# Minesweeper inference and tic-tac-toe minimax, modelled in Dafny

This project models two small game-playing AIs and proves properties of them.

**Minesweeper AI.** A knowledge base of *sentences* ("exactly `count` of these `cells` are mines").
- Each observation (a probed safe cell and its count of mined neighbours) does four things:
  - it is recorded as a move and marked safe;
  - it adds a sentence over the cell's unknown neighbours;
  - sentences whose cells are all mines or all safe are resolved, pass after pass, until a pass resolves nothing;
  - one subset-inference pass then appends the sentence `B - A` for distinct sentences `A`, `B` with `A.cells ⊆ B.cells`, unless it is already in the knowledge or already appended.
- The AI's safe move is any known-safe cell not yet probed.

Three modules cover the AI:
- `Knowledge` states the whole knowledge base as values: sentences, the `KB` record, and one function per stage of `add_knowledge`.
- `KnowledgeFacts` proves what those functions do:
  - the known marks are recorded and nothing else changes;
  - marking is idempotent;
  - propagation terminates with every remaining sentence settled;
  - the inferred sentences are new, pairwise distinct and complete;
  - everything the AI believes stays true of the real mine layout.
- `MinesweeperAi` holds the source's two classes, `Sentence` and `MinesweeperAI`, as Dafny classes with the same fields.
  - Their methods update those fields in place.
  - Each method is proved to leave exactly the state that the matching `Knowledge` function computes.
  - This includes the aliasing between the `knowledge.copy()` snapshot and the live list: the two share sentence objects.

`MinesweeperBoard` models the board's `nearby_mines` over a given mine grid. `Scenario` proves that the source script's three observations on an 8x8 board reach the states its comment expects.

**Tic-tac-toe.** Module `TicTacToe` covers the rules and the search:
- the rules: whose turn it is, the legal moves, the board after a move (including the exceptions it raises), the winner, game over and the score;
- the exhaustive minimax search through the mutually recursive `max_value`/`min_value`.

The loop-based rules (`player`, `actions`, `result`, `terminal`) are methods whose loops are proved against their functions. The search is a set of recursive functions. Lemmas prove that each search value is the maximum (respectively minimum) over the legal moves, and that the returned move is legal and reaches it.

`Wrappers` declares `Option`. `Scan` holds the facts about row-major nested loops that the grid loops share.

The model follows the code where it departs from what its comments and docstrings suggest:
- A propagation pass counts as *updating* whenever some sentence has known mines or known safes, even if those cells were already marked. Such a sentence then empties and is removed, so termination still holds.
- An observation for a cell outside the grid is not rejected. The neighbour loops clip to the grid.
- `make_random_move` does not return None when no candidate is left. It loops.

## Model

| member | source | states |
|---|---|---|
| MinesweeperBoard.NearbyMines | projects/1-minesweeper/minesweeper.py:55-78 | the count is the number of mined cells among the in-bounds 3x3 neighbours of the cell, excluding the cell itself |
| MinesweeperBoard.CountRow | projects/1-minesweeper/minesweeper.py:67-76 | the inner loop over one row adds the in-bounds mined cells of that row of the block, other than the cell itself, to the count |
| MinesweeperAi.Sentence.constructor | projects/1-minesweeper/minesweeper.py:93-95 | the new sentence holds exactly the given cells and count |
| MinesweeperAi.Sentence.Equals | projects/1-minesweeper/minesweeper.py:97-98 | two sentences are equal iff their cell sets and their counts are equal |
| Knowledge.KnownMines | projects/1-minesweeper/minesweeper.py:103-111 | all the cells when there are as many cells as the count and the count is not 0, otherwise the empty set |
| Knowledge.KnownSafes | projects/1-minesweeper/minesweeper.py:113-121 | all the cells when the count is 0, otherwise the empty set |
| KnowledgeFacts.KnownMinesSound | projects/1-minesweeper/minesweeper.py:103-111 | if a sentence is true of a mine layout, its known mines are mines of that layout |
| KnowledgeFacts.KnownSafesSound | projects/1-minesweeper/minesweeper.py:113-121 | if a sentence is true of a mine layout, none of its known safes is a mine |
| Knowledge.SentenceMarkMine | projects/1-minesweeper/minesweeper.py:123-130 | a member cell is removed and the count drops by one; a non-member leaves the sentence unchanged |
| Knowledge.SentenceMarkSafe | projects/1-minesweeper/minesweeper.py:133-140 | a member cell is removed and the count is kept; a non-member leaves the sentence unchanged |
| MinesweeperAi.Sentence.MarkMine | projects/1-minesweeper/minesweeper.py:123-130 | the object's new cells and count are the old sentence with the mine marked |
| MinesweeperAi.Sentence.MarkSafe | projects/1-minesweeper/minesweeper.py:133-140 | the object's new cells and count are the old sentence with the safe cell marked |
| KnowledgeFacts.MarkMinesSound | projects/1-minesweeper/minesweeper.py:123-130 | removing true mines from a true sentence, lowering the count for each, keeps it true |
| KnowledgeFacts.MarkSafesSound | projects/1-minesweeper/minesweeper.py:133-140 | removing non-mines from a true sentence keeps it true |
| Knowledge.Init | projects/1-minesweeper/minesweeper.py:147-161 | a new AI has the given size, no moves, no known mines or safes, and no sentences |
| MinesweeperAi.MinesweeperAI.constructor | projects/1-minesweeper/minesweeper.py:147-161 | the new object's state is the initial knowledge base; the size defaults to 8x8 |
| KnowledgeFacts.InitSound | projects/1-minesweeper/minesweeper.py:147-161 | the initial knowledge base is true of every mine layout |
| Knowledge.MarkMine | projects/1-minesweeper/minesweeper.py:163-170 | the cell joins the mines, every sentence has it marked as a mine, and nothing else changes |
| Knowledge.MarkSafe | projects/1-minesweeper/minesweeper.py:172-179 | the cell joins the safes, every sentence has it marked as safe, and nothing else changes |
| KnowledgeFacts.MarkMineIdempotent | projects/1-minesweeper/minesweeper.py:163-170 | marking the same mine twice gives the same state as marking it once |
| KnowledgeFacts.MarkSafeIdempotent | projects/1-minesweeper/minesweeper.py:172-179 | marking the same safe cell twice gives the same state as marking it once |
| Knowledge.MarksRemove | projects/1-minesweeper/minesweeper.py:227-235 | marking a set of cells takes exactly those cells out of a sentence; as mines each removed cell lowers the count by one, as safe cells the count is kept |
| Knowledge.MarkMines | projects/1-minesweeper/minesweeper.py:227-230 | every cell of the set joins the mines; each sentence, at its own index, has exactly those cells removed and its count lowered by one per removed cell; nothing else changes |
| Knowledge.MarkSafes | projects/1-minesweeper/minesweeper.py:232-235 | every cell of the set joins the safes; each sentence, at its own index, has exactly those cells removed and keeps its count; nothing else changes |
| MinesweeperAi.MinesweeperAI.MarkMine | projects/1-minesweeper/minesweeper.py:163-170 | the list of sentence objects is unchanged, and the object's whole new state is the old state with the mine marked |
| MinesweeperAi.MinesweeperAI.MarkSafe | projects/1-minesweeper/minesweeper.py:172-179 | the list of sentence objects is unchanged, and the object's whole new state is the old state with the safe cell marked |
| MinesweeperAi.MarkMineEach | projects/1-minesweeper/minesweeper.py:169-170 | every sentence object of the list ends holding its old value with the mine marked, even when the list holds an object twice |
| MinesweeperAi.MarkSafeEach | projects/1-minesweeper/minesweeper.py:178-179 | every sentence object of the list ends holding its old value with the safe cell marked, even when the list holds an object twice |
| KnowledgeFacts.MarkMinesStep | projects/1-minesweeper/minesweeper.py:227-230 | marking one more mine after a set of mines equals marking the enlarged set, so the marking order does not matter |
| KnowledgeFacts.MarkSafesStep | projects/1-minesweeper/minesweeper.py:232-235 | marking one more safe cell after a set equals marking the enlarged set |
| MinesweeperAi.MinesweeperAI.MarkMines | projects/1-minesweeper/minesweeper.py:227-230 | marking every cell of a set, one at a time and in any order, leaves the state with the whole set marked as mines |
| MinesweeperAi.MinesweeperAI.MarkSafes | projects/1-minesweeper/minesweeper.py:232-235 | marking every cell of a set, in any order, leaves the state with the whole set marked safe |
| MinesweeperAi.MinesweeperAI.MarkMinesIf | projects/1-minesweeper/minesweeper.py:227-230 | the cells are marked as mines only when there are any; the list objects and the unprocessed snapshot objects then hold the marked values |
| MinesweeperAi.MinesweeperAI.MarkSafesIf | projects/1-minesweeper/minesweeper.py:232-235 | the cells are marked safe only when there are any; the list objects and the unprocessed snapshot objects then hold the marked values |
| MinesweeperAi.MinesweeperAI.Neighbours | projects/1-minesweeper/minesweeper.py:203-213 | the loops collect the in-bounds neighbours that are not the cell, not probed, not mined and not safe, and count the unprobed neighbours known to be mines |
| MinesweeperAi.MinesweeperAI.ScanRow | projects/1-minesweeper/minesweeper.py:207-213 | the inner loop over one row adds that row's unknown neighbours to the set and counts its unprobed known mines |
| KnowledgeFacts.IntakeSentence | projects/1-minesweeper/minesweeper.py:197-217 | the existing sentences get the probed cell marked safe; a sentence over the unknown neighbours, with its count lowered by the known mined neighbours, is appended exactly when that set is non-empty |
| KnowledgeFacts.IntakeFacts | projects/1-minesweeper/minesweeper.py:197-201 | the cell is recorded as a move and as safe, no mine is added, and no sentence mentions the cell |
| Knowledge.Intake | projects/1-minesweeper/minesweeper.py:197-217 | the size and the mines are kept; the cell joins the moves and the safes; at most one sentence is added; no sentence mentions the probed cell |
| MinesweeperAi.MinesweeperAI.Record | projects/1-minesweeper/minesweeper.py:197-217 | the object's new state is the intake of the observation |
| MinesweeperAi.MinesweeperAI.Append | projects/1-minesweeper/minesweeper.py:215-217 | the list gains one fresh sentence object with the given cells and count at its end |
| Knowledge.FirstIndex | projects/1-minesweeper/minesweeper.py:238-239 | the index found holds the value, and no earlier index does |
| Knowledge.RemoveFirst | projects/1-minesweeper/minesweeper.py:238-239 | the first copy of the value is gone from the list, and the other elements keep their order |
| MinesweeperAi.MinesweeperAI.RemoveEqual | projects/1-minesweeper/minesweeper.py:238-239 | `list.remove` drops the first object whose value equals the argument, and the other objects keep their order |
| MinesweeperAi.MinesweeperAI.IndexOf | projects/1-minesweeper/minesweeper.py:239 | the search stops at the first sentence object equal to the value |
| Knowledge.Resolve | projects/1-minesweeper/minesweeper.py:223-235 | the marks for a sentence keep the snapshot inside the list; they empty the sentence when it had known cells and change nothing otherwise |
| KnowledgeFacts.ResolveMarks | projects/1-minesweeper/minesweeper.py:223-235 | the known mines and known safes are both computed before any mark; the mines are marked, then the safes, in the list and in the snapshot alike |
| MinesweeperAi.MinesweeperAI.MarkFor | projects/1-minesweeper/minesweeper.py:223-235 | the marks on the objects match the value-level marks on both the list and the unprocessed snapshot; the result says whether the sentence had known cells |
| Knowledge.Step | projects/1-minesweeper/minesweeper.py:223-239 | one loop iteration keeps the snapshot inside the list, never lengthens the list, and shortens it when it made marks |
| MinesweeperAi.MinesweeperAI.DropIfEmpty | projects/1-minesweeper/minesweeper.py:238-239 | an emptied sentence is removed from the list; otherwise nothing changes |
| MinesweeperAi.MinesweeperAI.Visit | projects/1-minesweeper/minesweeper.py:223-239 | the state, the rest of the snapshot and the updated flag after one iteration are those of the value-level step |
| Knowledge.Pass | projects/1-minesweeper/minesweeper.py:220-239 | a pass that made marks has shortened the list; known mines and safes only grow |
| MinesweeperAi.MinesweeperAI.RunPass | projects/1-minesweeper/minesweeper.py:220-239 | the loop over the snapshot ends in the state of the value-level pass, with the same updated flag |
| Knowledge.Propagate | projects/1-minesweeper/minesweeper.py:219-243 | the loop terminates; known cells only grow; every sentence left has cells, a non-zero count and a count different from its size (for a knowledge base true of some layout, `SoundInvariants` adds count <= size, so the count is below the size) |
| Knowledge.QuietPassSettles | projects/1-minesweeper/minesweeper.py:241-243 | a pass that makes no marks leaves only settled sentences |
| Knowledge.QuietStep | projects/1-minesweeper/minesweeper.py:223-239 | an iteration without marks either removes an empty sentence from the list and the snapshot alike or passes over a settled one, so every unsettled sentence still has a copy ahead in the snapshot |
| MinesweeperAi.MinesweeperAI.Propagate | projects/1-minesweeper/minesweeper.py:219-243 | the `while True` loop ends in the propagated state |
| KnowledgeFacts.PropagateClean | projects/1-minesweeper/minesweeper.py:219-243 | no cell known as a mine or safe appears in any sentence after propagation |
| KnowledgeFacts.StepClean | projects/1-minesweeper/minesweeper.py:223-239 | one iteration of the propagation loop leaves no known mine or safe in any sentence |
| KnowledgeFacts.InferFromGrows | projects/1-minesweeper/minesweeper.py:246-254 | from any pair onward, the loops only append to the inferred list |
| KnowledgeFacts.InferFromDistinct | projects/1-minesweeper/minesweeper.py:246-254 | from any pair onward, the membership test keeps the inferred list free of duplicates |
| KnowledgeFacts.InferFromDerived | projects/1-minesweeper/minesweeper.py:246-254 | from any pair onward, every appended sentence is absent from the knowledge and derived from a pair of distinct nested sentences |
| KnowledgeFacts.InferFromCovers | projects/1-minesweeper/minesweeper.py:246-254 | from any pair onward, every derivable pair ends with its derived sentence in the knowledge or in the inferred list |
| Knowledge.Derive | projects/1-minesweeper/minesweeper.py:250-252 | for nested cell sets, the new cells are exactly those only the larger sentence has, and the two counts add up to the larger one |
| Knowledge.InferFromBound | projects/1-minesweeper/minesweeper.py:246-254 | from any pair onward, at most one sentence is appended per pair still to visit |
| Knowledge.Infer | projects/1-minesweeper/minesweeper.py:245-254 | the subset pass appends at most one sentence per ordered pair of sentences |
| KnowledgeFacts.InferFacts | projects/1-minesweeper/minesweeper.py:245-257 | the appended sentences are pairwise distinct and none is already in the list; each comes from two distinct sentences with nested cells; every such pair's derived sentence ends up in the list or the additions |
| MinesweeperAi.MinesweeperAI.InferSentences | projects/1-minesweeper/minesweeper.py:245-254 | the nested loops return fresh objects holding exactly the inferred sentences, and change nothing |
| MinesweeperAi.MinesweeperAI.InferRow | projects/1-minesweeper/minesweeper.py:247-254 | the inner loop for one `sentence1` appends what the value-level subset pass appends for that row, and only fresh objects |
| MinesweeperAi.MinesweeperAI.AppendInferred | projects/1-minesweeper/minesweeper.py:245-257 | the new state is the old state with the inferred sentences appended after the existing knowledge; no existing sentence object changes |
| Knowledge.AddKnowledge | projects/1-minesweeper/minesweeper.py:181-257 | the size is kept, the probed cell is recorded as a move and known safe, and known mines and safes only grow |
| MinesweeperAi.MinesweeperAI.AddKnowledge | projects/1-minesweeper/minesweeper.py:181-257 | the object's new state is the value-level `add_knowledge` of the old state |
| KnowledgeFacts.AddKnowledgeFacts | projects/1-minesweeper/minesweeper.py:181-257 | the move is recorded and known safe, and known cells only grow; no known cell stays in a sentence; the list is the settled survivors of propagation followed by the inferred sentences |
| KnowledgeFacts.DeriveSound | projects/1-minesweeper/minesweeper.py:248-251 | the difference of two true sentences with nested cells is true |
| KnowledgeFacts.StepSound | projects/1-minesweeper/minesweeper.py:223-239 | one iteration keeps the knowledge base and the snapshot true of the layout |
| KnowledgeFacts.ListMarkMinesSound | projects/1-minesweeper/minesweeper.py:227-230 | marking real mines in a list of true sentences keeps every one true |
| KnowledgeFacts.ListMarkSafesSound | projects/1-minesweeper/minesweeper.py:232-235 | marking real safe cells in a list of true sentences keeps every one true |
| KnowledgeFacts.PassSound | projects/1-minesweeper/minesweeper.py:220-239 | a pass keeps the knowledge base true of the layout |
| KnowledgeFacts.PropagateSound | projects/1-minesweeper/minesweeper.py:219-243 | propagation keeps the knowledge base true of the layout |
| KnowledgeFacts.IntakeSound | projects/1-minesweeper/minesweeper.py:197-217 | the intake of a true observation of a safe cell keeps the knowledge base true |
| KnowledgeFacts.ProbeSound | projects/1-minesweeper/minesweeper.py:197-201 | recording a probed non-mine and marking it safe keeps the knowledge base true |
| KnowledgeFacts.NewSentenceHolds | projects/1-minesweeper/minesweeper.py:203-217 | the new sentence over the unknown neighbours, with the known mined neighbours taken off the count, is true when the count is the real number of neighbouring mines |
| KnowledgeFacts.AddKnowledgeSound | projects/1-minesweeper/minesweeper.py:181-257 | an observation of a safe cell with its true count keeps the knowledge base true, and the known mines and safes stay disjoint |
| KnowledgeFacts.SoundInvariants | projects/1-minesweeper/minesweeper.py:181-257 | a true knowledge base has disjoint mines and safes, and every sentence has 0 <= count <= size |
| MinesweeperAi.MinesweeperAI.MakeSafeMove | projects/1-minesweeper/minesweeper.py:259-273 | a returned cell is safe and not yet probed; None is returned exactly when every safe cell is probed; nothing is modified |
| Scenario.FirstMove | projects/1-minesweeper/minesweeper.py:339-343 | after (1,1) with count 0 on an 8x8 board there are no sentences and no mines, and the safe cells are the 3x3 block around (1,1) |
| Scenario.SecondMove | projects/1-minesweeper/minesweeper.py:345-349 | after (2,2) with count 2 the only sentence is {(1,3),(2,3),(3,1),(3,2),(3,3)} = 2, and there are no mines |
| Scenario.ThirdMove | projects/1-minesweeper/minesweeper.py:351-354 | after (3,3) with count 0 there are no sentences, and the mines are exactly (1,3) and (3,1) |
| Scenario.ThirdMoveSafes | projects/1-minesweeper/minesweeper.py:353 | the safe cells after the third move are the 17 the comment lists |
| Scenario.ThirdMoveSafeCount | projects/1-minesweeper/minesweeper.py:353 | there are 17 safe cells after the third move |
| Scenario.SubsetExample | projects/1-minesweeper/minesweeper.py:245-254 | from {a,b,c} = 1 and {a,b,c,d} = 2 the subset pass derives {d} = 1 and nothing else |
| Scenario.SubsetFollowUp | projects/1-minesweeper/minesweeper.py:219-243 | the derived sentence {d} = 1 makes d a known mine at the next propagation, which leaves no sentence |
| Scenario.DirectResolution | projects/1-minesweeper/minesweeper.py:220-239 | a sentence {x,y} = 0 makes both cells safe in one pass and is then removed |
| TicTacToe.InitialState | projects/0-tictactoe/tictactoe.py:12-18 | every square is empty |
| TicTacToe.Player | projects/0-tictactoe/tictactoe.py:21-38 | the mover is a player's mark, and it is X exactly when X has no more marks than O |
| TicTacToe.PlayerOf | projects/0-tictactoe/tictactoe.py:26-38 | the counting loops return the mover |
| TicTacToe.InitialPlayer | projects/0-tictactoe/tictactoe.py:21-38 | X moves first |
| TicTacToe.PlayerAlternates | projects/0-tictactoe/tictactoe.py:53-68 | on a board reached by alternating play, a move keeps the balance of marks and passes the turn to the other player |
| TicTacToe.Actions | projects/0-tictactoe/tictactoe.py:41-51 | a square is a legal move exactly when it is on the board and empty |
| TicTacToe.ActionsOf | projects/0-tictactoe/tictactoe.py:45-51 | the loops collect exactly the empty squares |
| TicTacToe.Wrap | projects/0-tictactoe/tictactoe.py:66 | a Python index from -3 to 2 selects a square from 0 to 2, negative indices counting from the end |
| TicTacToe.Place | projects/0-tictactoe/tictactoe.py:66 | the square gets the mark, and every other square is unchanged |
| TicTacToe.Result | projects/0-tictactoe/tictactoe.py:53-68 | a missing action or coordinate raises; an out-of-range coordinate raises an index error; otherwise the new board has the mover's mark at the action and agrees with the old board everywhere else |
| TicTacToe.ResultOf | projects/0-tictactoe/tictactoe.py:57-68 | the copy loop into a fresh board, then the move, gives the result, including its exceptions |
| TicTacToe.SuccessorFacts | projects/0-tictactoe/tictactoe.py:53-68 | playing an empty square succeeds and `result` returns exactly the successor board; the square leaves the legal moves and joins the mover's squares; the other player's squares are unchanged |
| TicTacToe.WinnerFrom | projects/0-tictactoe/tictactoe.py:75-87 | from index k, a returned mark fills row or column k or later, or a diagonal; Empty means neither player fills any of them |
| TicTacToe.Winner | projects/0-tictactoe/tictactoe.py:70-87 | a returned player fills some row, column or diagonal; None (Empty) is returned exactly when neither player does |
| TicTacToe.Terminal | projects/0-tictactoe/tictactoe.py:90-102 | the game is over exactly when there is a winner or no legal move is left |
| TicTacToe.FullIffNoActions | projects/0-tictactoe/tictactoe.py:98-102 | the board is full exactly when there are no legal moves |
| TicTacToe.IsTerminal | projects/0-tictactoe/tictactoe.py:90-102 | the loops with their early return compute whether the game is over |
| TicTacToe.Utility | projects/0-tictactoe/tictactoe.py:104-114 | on a finished game: 1 when X won, -1 when O won, 0 otherwise; no value while the game goes on |
| TicTacToe.Order | projects/0-tictactoe/tictactoe.py:140 | the search visits exactly the legal moves |
| TicTacToe.OrderFrom | projects/0-tictactoe/tictactoe.py:140 | from square k on, the listing holds exactly the legal moves at or after k in row-major order |
| TicTacToe.MaxValue | projects/0-tictactoe/tictactoe.py:133-146 | `max_value` terminates and its value is -1, 0 or 1 |
| TicTacToe.MinValue | projects/0-tictactoe/tictactoe.py:148-161 | `min_value` terminates and its value is -1, 0 or 1 |
| TicTacToe.MaxLoop | projects/0-tictactoe/tictactoe.py:137-146 | the best-so-far loop, started from minus infinity with at least one move, ends with a value of -1, 0 or 1 |
| TicTacToe.MinLoop | projects/0-tictactoe/tictactoe.py:152-161 | the best-so-far loop, started from plus infinity with at least one move, ends with a value of -1, 0 or 1 |
| TicTacToe.MaxReply | projects/0-tictactoe/tictactoe.py:141 | the value `min_value` gives the board after a legal move is -1, 0 or 1 |
| TicTacToe.MinReply | projects/0-tictactoe/tictactoe.py:156 | the value `max_value` gives the board after a legal move is -1, 0 or 1 |
| TicTacToe.MaxLoopBound | projects/0-tictactoe/tictactoe.py:140-146 | the loop returns a value no smaller than the starting value and no smaller than the value of any move it tries |
| TicTacToe.MaxLoopWitness | projects/0-tictactoe/tictactoe.py:140-146 | the loop keeps the starting value and move unless a move beats it, and then returns a tried move whose value is the result |
| TicTacToe.MinLoopBound | projects/0-tictactoe/tictactoe.py:155-161 | the loop returns a value no larger than the starting value and no larger than the value of any move it tries |
| TicTacToe.MinLoopWitness | projects/0-tictactoe/tictactoe.py:155-161 | the loop keeps the starting value and move unless a move beats it, and then returns a tried move whose value is the result |
| TicTacToe.MaxValueOptimal | projects/0-tictactoe/tictactoe.py:133-146 | on a finished game: the utility and no move; otherwise the value is the maximum over the legal moves of `min_value` of the result, and the returned move is legal and reaches it |
| TicTacToe.MinValueOptimal | projects/0-tictactoe/tictactoe.py:148-161 | on a finished game: the utility and no move; otherwise the value is the minimum over the legal moves of `max_value` of the result, and the returned move is legal and reaches it |
| TicTacToe.Minimax | projects/0-tictactoe/tictactoe.py:117-131 | no move exactly on a finished game; otherwise a legal move that is optimal for the player to move |

## Left out

- Random mine placement in `Minesweeper.__init__`, the board's `print`, `is_mine` and `won` (minesweeper.py:10-53, 80-84): randomness, console output, and trivial accessors outside the AI. `nearby_mines` is modelled over a given grid, because the grid itself comes from random placement.
- `make_random_move` (minesweeper.py:275-293): it draws random cells in a loop that never ends when every unprobed cell is a mine.
- `Sentence.__str__`, `print_ai_status` and the module-level script (minesweeper.py:100-101, 297-378): console output. The script's first three observations are used as the `Scenario` lemmas.
- The expected output at minesweeper.py:372-378 is not asserted. As written, the code keeps the superset sentence {(6,1),(6,2),(6,3),(7,1),(7,3)} = 2 beside the sentences derived from it, so the listed knowledge does not match.
- Safe/mine disjointness and 0 <= count <= |cells| are proved only for knowledge bases that are true of some mine layout (`KnowledgeFacts.SoundInvariants`). The code does not check its input, and inconsistent counts can break both.
- Termination of propagation is proved; the bound on the number of passes (one more than the number of sentences) is not stated as a separate lemma.
- MinesweeperAi.Sentence: `known_mines` and `known_safes` return the sentence's own `cells` set rather than a copy; the model returns the value. The propagation loop iterates over copies, and at most one of the two is non-empty, so no behaviour depends on this aliasing.
- MinesweeperAi.MinesweeperAI.MarkMines: Python iterates a set in hash order. The method picks the cells in an unspecified order, and its contract holds for every order.
- MinesweeperAi.MinesweeperAI.MakeSafeMove: which safe cell is returned depends on Python's set iteration order. The model returns any qualifying cell.
- TicTacToe.MaxValue: among equally good moves the search returns the first in row-major order. Python iterates the set of actions in hash order, so ties may be broken differently. The value and the optimality and legality of the returned move do not depend on the order.
- TicTacToe.MinValue: the same row-major tie-breaking as `max_value`.
- TicTacToe.Result: the board is a value, so "the input board is unchanged" holds by construction. The list copying and aliasing of Python's nested lists is not modelled. A coordinate that is not an integer (a `TypeError` in Python) is outside the `Action` type.
- TicTacToe.Utility: Python returns None implicitly on an unfinished game; the model returns `None` of `Option`.
- `tictactoe.py` imports `math` only for the infinities, which are the `NegInf`/`PosInf` scores.
