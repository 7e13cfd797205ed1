/**
 * The source's `Sentence` and `MinesweeperAI` classes as Dafny classes whose
 * methods update their fields in place.  Each method is proved to leave the
 * object in exactly the state the matching function of module Knowledge
 * computes from the state before the call.
 */
module MinesweeperAi {
  import K = Knowledge
  import KF = KnowledgeFacts
  import opened Wrappers
  import opened Scan

  type Cell = K.Cell

  /** A mutable sentence: `count` of the cells in `cells` are mines. */
  class Sentence {
    var cells: set<Cell>
    var count: int

    /** The sentence's current value. */
    function Value(): K.Sentence
      reads this
    {
      K.Sentence(cells, count)
    }

    constructor (cells: set<Cell>, count: int)
      ensures Value() == K.Sentence(cells, count)
    {
      this.cells := cells;
      this.count := count;
    }

    /** `__eq__`: structural equality of cells and count. */
    predicate Equals(other: Sentence)
      reads this, other
      ensures Equals(other) <==> Value() == other.Value()
    {
      cells == other.cells && count == other.count
    }

    /** `mark_mine`: drop the cell and lower the count, when the cell is present. */
    method MarkMine(cell: Cell)
      modifies this
      ensures Value() == K.SentenceMarkMine(old(Value()), cell)
    {
      if cell in cells {
        cells := cells - {cell};
        count := count - 1;
      }
    }

    /** `mark_safe`: drop the cell, when present. */
    method MarkSafe(cell: Cell)
      modifies this
      ensures Value() == K.SentenceMarkSafe(old(Value()), cell)
    {
      if cell in cells {
        cells := cells - {cell};
      }
    }
  }

  /** The current values of a list of sentence objects. */
  function Values(ks: seq<Sentence>): (r: seq<K.Sentence>)
    reads set o | o in ks
    ensures |r| == |ks|
    ensures forall i :: 0 <= i < |ks| ==> r[i] == ks[i].Value()
  {
    seq(|ks|, i requires 0 <= i < |ks| reads set o | o in ks => ks[i].Value())
  }

  /** Dropping the object at index i drops its value, and every other object stays. */
  lemma ValuesDropAt(ks: seq<Sentence>, i: int)
    requires 0 <= i < |ks|
    ensures Values(ks[..i] + ks[i + 1..]) == Values(ks)[..i] + Values(ks)[i + 1..]
    ensures forall o :: o in ks && o !in ks[..i] + ks[i + 1..] ==> o == ks[i]
  {
    assert ks == ks[..i] + [ks[i]] + ks[i + 1..];
  }

  lemma ValuesConcat(a: seq<Sentence>, b: seq<Sentence>)
    ensures Values(a + b) == Values(a) + Values(b)
  {
    var l, r := Values(a + b), Values(a) + Values(b);
    assert |l| == |r|;
    forall i | 0 <= i < |l| ensures l[i] == r[i] {
      if i < |a| {
        assert (a + b)[i] == a[i];
      } else {
        assert (a + b)[i] == b[i - |a|];
      }
    }
  }

  /** The cells the scan collects or counts lie in the clipped rows and columns the source loops over. */
  lemma NeighboursWithin(kb: K.KB, cell: Cell, r0: int, r1: int, c0: int, c1: int)
    requires r0 == (if 0 < cell.0 - 1 then cell.0 - 1 else 0)
    requires r1 == (if kb.height < cell.0 + 2 then kb.height else cell.0 + 2)
    requires c0 == (if 0 < cell.1 - 1 then cell.1 - 1 else 0)
    requires c1 == (if kb.width < cell.1 + 2 then kb.width else cell.1 + 2)
    ensures Within(K.UnknownNeighbours(kb, cell), r0, r1, c0, c1)
    ensures Within(K.MineNeighbours(kb, cell), r0, r1, c0, c1)
  {
    assert Within(K.Block(kb.height, kb.width, cell), r0, r1, c0, c1);
  }

  /** `for sentence in self.knowledge: sentence.mark_mine(cell)`, over a list that may hold an object twice. */
  method MarkMineEach(ks: seq<Sentence>, cell: Cell)
    modifies set o | o in ks
    ensures forall k :: 0 <= k < |ks| ==> ks[k].Value() == K.SentenceMarkMine(old(ks[k].Value()), cell)
  {
    var i := 0;
    while i < |ks|
      invariant 0 <= i <= |ks|
      invariant forall o :: o in ks ==>
        K.SentenceMarkMine(o.Value(), cell) == K.SentenceMarkMine(old(o.Value()), cell)
      invariant forall k :: 0 <= k < i ==> ks[k].Value() == K.SentenceMarkMine(old(ks[k].Value()), cell)
    {
      K.MarkTwice(ks[i].Value(), cell);
      ks[i].MarkMine(cell);
      i := i + 1;
    }
  }

  /** `for sentence in self.knowledge: sentence.mark_safe(cell)`, over a list that may hold an object twice. */
  method MarkSafeEach(ks: seq<Sentence>, cell: Cell)
    modifies set o | o in ks
    ensures forall k :: 0 <= k < |ks| ==> ks[k].Value() == K.SentenceMarkSafe(old(ks[k].Value()), cell)
  {
    var i := 0;
    while i < |ks|
      invariant 0 <= i <= |ks|
      invariant forall o :: o in ks ==>
        K.SentenceMarkSafe(o.Value(), cell) == K.SentenceMarkSafe(old(o.Value()), cell)
      invariant forall k :: 0 <= k < i ==> ks[k].Value() == K.SentenceMarkSafe(old(ks[k].Value()), cell)
    {
      K.MarkTwice(ks[i].Value(), cell);
      ks[i].MarkSafe(cell);
      i := i + 1;
    }
  }

  /** Which cells of one in-bounds row of the block around `cell` the scan collects or counts. */
  lemma RowCells(kb: K.KB, cell: Cell, i: int, colStart: int, colEnd: int)
    requires cell.0 - 1 <= i <= cell.0 + 1 && 0 <= i < kb.height
    requires colStart == (if 0 < cell.1 - 1 then cell.1 - 1 else 0)
    requires colEnd == (if kb.width < cell.1 + 2 then kb.width else cell.1 + 2)
    ensures forall j :: colStart <= j < colEnd ==>
      ((i, j) in K.UnknownNeighbours(kb, cell) <==>
       (i, j) != cell && (i, j) !in kb.movesMade && (i, j) !in kb.mines && (i, j) !in kb.safes)
    ensures forall j :: colStart <= j < colEnd ==>
      ((i, j) in K.MineNeighbours(kb, cell) <==> (i, j) != cell && (i, j) !in kb.movesMade && (i, j) in kb.mines)
  {
    forall j | colStart <= j < colEnd
      ensures (i, j) in K.Block(kb.height, kb.width, cell)
    {
      assert cell.1 - 1 <= j <= cell.1 + 1 && 0 <= j < kb.width;
    }
  }

  /** The AI player: probed cells, known mines and safes, and the knowledge list. */
  class MinesweeperAI {
    const height: int
    const width: int
    var movesMade: set<Cell>
    var mines: set<Cell>
    var safes: set<Cell>
    var knowledge: seq<Sentence>

    /** The AI's current state as a value. */
    function State(): K.KB
      reads this, knowledge
    {
      K.KB(height, width, movesMade, mines, safes, Values(knowledge))
    }

    constructor (height: int := 8, width: int := 8)
      ensures State() == K.Init(height, width)
    {
      this.height := height;
      this.width := width;
      movesMade := {};
      mines := {};
      safes := {};
      knowledge := [];
    }

    /** `mark_mine`: record the mine and mark it in every sentence of the knowledge list. */
    method MarkMine(cell: Cell)
      modifies this, knowledge
      ensures knowledge == old(knowledge)
      ensures State() == K.MarkMine(old(State()), cell)
    {
      mines := mines + {cell};
      MarkMineEach(knowledge, cell);
      assert Values(knowledge) == K.MarkMine(old(State()), cell).knowledge;
    }

    /** `mark_safe`: record the safe cell and mark it in every sentence of the knowledge list. */
    method MarkSafe(cell: Cell)
      modifies this, knowledge
      ensures knowledge == old(knowledge)
      ensures State() == K.MarkSafe(old(State()), cell)
    {
      safes := safes + {cell};
      MarkSafeEach(knowledge, cell);
      assert Values(knowledge) == K.MarkSafe(old(State()), cell).knowledge;
    }

    /** `for mine in known_mines.copy(): self.mark_mine(mine)`: every cell of `m` becomes a known mine. */
    method MarkMines(m: set<Cell>)
      modifies this, knowledge
      ensures knowledge == old(knowledge)
      ensures State() == K.MarkMines(old(State()), m)
    {
      ghost var start := State();
      var todo := m;
      ghost var done := {};
      KF.MarkNothing(start);
      while todo != {}
        invariant done + todo == m
        invariant knowledge == old(knowledge)
        invariant State() == K.MarkMines(start, done)
        decreases |todo|
      {
        var c :| c in todo;
        KF.MarkMinesStep(start, done, c);
        MarkMine(c);
        todo := todo - {c};
        done := done + {c};
      }
    }

    /** `for safe in known_safes.copy(): self.mark_safe(safe)`: every cell of `m` becomes known safe. */
    method MarkSafes(m: set<Cell>)
      modifies this, knowledge
      ensures knowledge == old(knowledge)
      ensures State() == K.MarkSafes(old(State()), m)
    {
      ghost var start := State();
      var todo := m;
      ghost var done := {};
      KF.MarkNothing(start);
      while todo != {}
        invariant done + todo == m
        invariant knowledge == old(knowledge)
        invariant State() == K.MarkSafes(start, done)
        decreases |todo|
      {
        var c :| c in todo;
        KF.MarkSafesStep(start, done, c);
        MarkSafe(c);
        todo := todo - {c};
        done := done + {c};
      }
    }

    /** `self.knowledge.remove(sentence)`: drop the first sentence equal to `v`. */
    method RemoveEqual(v: K.Sentence)
      requires v in Values(knowledge)
      modifies this
      ensures Values(knowledge) == K.RemoveFirst(old(Values(knowledge)), v)
      ensures var i := K.FirstIndex(old(Values(knowledge)), v); knowledge == old(knowledge)[..i] + old(knowledge)[i + 1..]
      ensures forall i :: 0 <= i < |knowledge| ==> knowledge[i] in old(knowledge)
      ensures forall o :: o in old(knowledge) && o !in knowledge ==> o.Value() == v
      ensures movesMade == old(movesMade) && mines == old(mines) && safes == old(safes)
    {
      ghost var vs := Values(knowledge);
      ghost var ks := knowledge;
      var i := IndexOf(v);
      assert K.RemoveFirst(vs, v) == vs[..i] + vs[i + 1..];
      ValuesDropAt(ks, i);
      knowledge := knowledge[..i] + knowledge[i + 1..];
    }

    /** The search inside `list.remove`: the index of the first object equal to `v`. */
    method IndexOf(v: K.Sentence) returns (i: nat)
      requires v in Values(knowledge)
      ensures i == K.FirstIndex(Values(knowledge), v)
    {
      ghost var vs := Values(knowledge);
      i := 0;
      while knowledge[i].Value() != v
        invariant 0 <= i < |vs|
        invariant forall p :: 0 <= p < i ==> vs[p] != v
        invariant v in vs[i..]
        decreases |vs| - i
      {
        assert vs[i..] == [vs[i]] + vs[i + 1..];
        i := i + 1;
      }
      KF.FirstIndexUnique(vs, v, i);
    }

    /**
     * `if known_mines: ...`: mark the cells of `m` when there are any.  Each object of
     * `rest` (the unprocessed snapshot) is in the knowledge list or has no
     * cells, so each one ends up holding its marked value.
     */
    method MarkMinesIf(m: set<Cell>, ghost rest: seq<Sentence>)
      requires forall o :: o in rest ==> o in knowledge || o.cells == {}
      modifies this, knowledge
      ensures knowledge == old(knowledge)
      ensures State() == K.MarkMines(old(State()), m)
      ensures Values(rest) == K.ListMarkMines(old(Values(rest)), m)
      ensures forall o :: o in rest ==> o in knowledge || o.cells == {}
    {
      ghost var before := Values(rest);
      if m != {} {
        MarkMines(m);
      } else {
        KF.MarkNothing(State());
      }
      forall j | 0 <= j < |rest|
        ensures rest[j].Value() == K.SentenceMarkMines(before[j], m)
      {
        if m == {} {
          KF.SentenceMarkNothing(before[j]);
        } else if rest[j] in knowledge {
          var p :| 0 <= p < |knowledge| && knowledge[p] == rest[j];
          assert rest[j].Value() == Values(knowledge)[p];
          assert before[j] == old(Values(knowledge))[p];
        } else {
          KF.MarkEmptySentence(before[j], m);
        }
      }
      assert Values(rest) == K.ListMarkMines(before, m);
    }

    /**
     * `if known_safes: ...`: mark the cells of `m` when there are any.  Each object of
     * `rest` (the unprocessed snapshot) is in the knowledge list or has no
     * cells, so each one ends up holding its marked value.
     */
    method MarkSafesIf(m: set<Cell>, ghost rest: seq<Sentence>)
      requires forall o :: o in rest ==> o in knowledge || o.cells == {}
      modifies this, knowledge
      ensures knowledge == old(knowledge)
      ensures State() == K.MarkSafes(old(State()), m)
      ensures Values(rest) == K.ListMarkSafes(old(Values(rest)), m)
      ensures forall o :: o in rest ==> o in knowledge || o.cells == {}
    {
      ghost var before := Values(rest);
      if m != {} {
        MarkSafes(m);
      } else {
        KF.MarkNothing(State());
      }
      forall j | 0 <= j < |rest|
        ensures rest[j].Value() == K.SentenceMarkSafes(before[j], m)
      {
        if m == {} {
          KF.SentenceMarkNothing(before[j]);
        } else if rest[j] in knowledge {
          var p :| 0 <= p < |knowledge| && knowledge[p] == rest[j];
          assert rest[j].Value() == Values(knowledge)[p];
          assert before[j] == old(Values(knowledge))[p];
        } else {
          KF.MarkEmptySentence(before[j], m);
        }
      }
      assert Values(rest) == K.ListMarkSafes(before, m);
    }

    /**
     * The marks made for `sentence` in one iteration of the propagation loop:
     * its known mines, then the known safes computed before them.  `rest`
     * is the unprocessed part of the snapshot, starting with `sentence`.
     */
    method MarkFor(sentence: Sentence, ghost rest: seq<Sentence>) returns (marked: bool)
      requires rest != [] && rest[0] == sentence
      requires multiset(Values(rest)) <= multiset(Values(knowledge))
      requires forall o :: o in rest ==> o in knowledge || o.cells == {}
      modifies this, knowledge
      ensures knowledge == old(knowledge)
      ensures marked == (K.KnownMines(old(sentence.Value())) != {} || K.KnownSafes(old(sentence.Value())) != {})
      ensures (State(), Values(rest)) == K.Resolve(old(State()), old(Values(rest)))
      ensures forall o :: o in rest ==> o in knowledge || o.cells == {}
    {
      var v := sentence.Value();
      var knownMines := K.KnownMines(v);
      var knownSafes := K.KnownSafes(v);
      ghost var kb := State();
      ghost var before := Values(rest);
      KF.ResolveMarks(kb, before);
      MarkMinesIf(knownMines, rest);
      MarkSafesIf(knownSafes, rest);
      marked := knownMines != {} || knownSafes != {};
    }

    /** `if not sentence.cells: self.knowledge.remove(sentence)`. */
    method DropIfEmpty(sentence: Sentence, ghost rest: seq<Sentence>)
      requires rest != [] && rest[0] == sentence
      requires sentence.Value() in Values(knowledge)
      requires forall o :: o in rest ==> o in knowledge || o.cells == {}
      modifies this
      ensures State() == if sentence.cells == {} then
                           old(State()).(knowledge := K.RemoveFirst(old(Values(knowledge)), sentence.Value()))
                         else old(State())
      ensures Values(rest[1..]) == old(Values(rest))[1..]
      ensures forall i :: 0 <= i < |knowledge| ==> knowledge[i] in old(knowledge)
      ensures forall o :: o in rest[1..] ==> o in knowledge || o.cells == {}
    {
      ghost var later := Values(rest[1..]);
      assert later == Values(rest)[1..];
      if sentence.cells == {} {
        RemoveEqual(sentence.Value());
      }
      assert Values(rest[1..]) == later;
    }

    /** One iteration of the propagation loop: the marks for `sentence`, then its removal once it has no cells. */
    method Visit(sentence: Sentence, ghost rest: seq<Sentence>) returns (marked: bool)
      requires rest != [] && rest[0] == sentence
      requires multiset(Values(rest)) <= multiset(Values(knowledge))
      requires forall o :: o in rest ==> o in knowledge || o.cells == {}
      modifies this, knowledge
      ensures (State(), Values(rest[1..]), marked) == K.Step(old(State()), old(Values(rest)))
      ensures forall i :: 0 <= i < |knowledge| ==> knowledge[i] in old(knowledge)
      ensures forall o :: o in rest[1..] ==> o in knowledge || o.cells == {}
      ensures multiset(Values(rest[1..])) <= multiset(Values(knowledge))
    {
      ghost var kb := State();
      ghost var values := Values(rest);
      marked := MarkFor(sentence, rest);
      ghost var resolved := K.Resolve(kb, values);
      K.RemovingHead(resolved.1, resolved.0.knowledge);
      assert sentence.Value() == resolved.1[0];
      DropIfEmpty(sentence, rest);
    }

    /** One pass of `for sentence in self.knowledge.copy()`; the result says whether any marks were made. */
    method RunPass() returns (updated: bool)
      modifies this, knowledge
      ensures (State(), updated) == K.Pass(old(State()), old(State()).knowledge, false)
      ensures forall i :: 0 <= i < |knowledge| ==> knowledge[i] in old(knowledge)
    {
      var snapshot := knowledge;
      updated := false;
      var k := 0;
      while k < |snapshot|
        invariant 0 <= k <= |snapshot|
        invariant forall i :: 0 <= i < |knowledge| ==> knowledge[i] in old(knowledge)
        invariant multiset(Values(snapshot[k..])) <= multiset(Values(knowledge))
        invariant forall o :: o in snapshot[k..] ==> o in knowledge || o.cells == {}
        invariant K.Pass(State(), Values(snapshot[k..]), updated) == K.Pass(old(State()), old(State()).knowledge, false)
      {
        var marked := Visit(snapshot[k], snapshot[k..]);
        assert snapshot[k..][1..] == snapshot[k + 1..];
        updated := updated || marked;
        k := k + 1;
      }
    }

    /**
     * The loops of step 3 over the in-bounds 3x3 block around `cell`: the
     * neighbours that are not probed, mined or safe, and the number of
     * unprobed neighbours already known to be mines.
     */
    method Neighbours(cell: Cell) returns (neighbours: set<Cell>, knownMines: int)
      ensures neighbours == K.UnknownNeighbours(State(), cell)
      ensures knownMines == |K.MineNeighbours(State(), cell)|
    {
      var (row, col) := cell;
      var rowStart := if 0 < row - 1 then row - 1 else 0;
      var rowEnd := if height < row + 2 then height else row + 2;
      var colStart := if 0 < col - 1 then col - 1 else 0;
      var colEnd := if width < col + 2 then width else col + 2;
      ghost var kb := State();
      ghost var unknown := K.UnknownNeighbours(kb, cell);
      ghost var mined := K.MineNeighbours(kb, cell);
      assert kb.movesMade == movesMade && kb.mines == mines && kb.safes == safes;
      NeighboursWithin(kb, cell, rowStart, rowEnd, colStart, colEnd);
      UptoStart(unknown, rowStart, rowEnd, colStart, colEnd);
      UptoStart(mined, rowStart, rowEnd, colStart, colEnd);
      neighbours := {};
      knownMines := 0;
      var i := rowStart;
      while i < rowEnd
        invariant rowStart <= i
        invariant neighbours == Upto(unknown, i, colStart)
        invariant knownMines == |Upto(mined, i, colStart)|
      {
        RowCells(kb, cell, i, colStart, colEnd);
        neighbours, knownMines := ScanRow(cell, i, colStart, colEnd, neighbours, knownMines, unknown, mined);
        ghost var j := if colStart < colEnd then colEnd else colStart;
        UptoRow(unknown, i, j, rowStart, rowEnd, colStart, colEnd);
        UptoRow(mined, i, j, rowStart, rowEnd, colStart, colEnd);
        i := i + 1;
      }
      UptoEnd(unknown, i, rowStart, rowEnd, colStart, colEnd);
      UptoEnd(mined, i, rowStart, rowEnd, colStart, colEnd);
    }

    /**
     * The inner loop of step 3: row i of the block, columns [colStart, colEnd).
     * `unknown` and `mined` are the sets the whole scan collects.
     */
    method ScanRow(cell: Cell, i: int, colStart: int, colEnd: int, neighbours0: set<Cell>, knownMines0: int,
                   ghost unknown: set<Cell>, ghost mined: set<Cell>)
      returns (neighbours: set<Cell>, knownMines: int)
      requires forall j :: colStart <= j < colEnd ==>
        ((i, j) in unknown <==> (i, j) != cell && (i, j) !in movesMade && (i, j) !in mines && (i, j) !in safes)
      requires forall j :: colStart <= j < colEnd ==>
        ((i, j) in mined <==> (i, j) != cell && (i, j) !in movesMade && (i, j) in mines)
      requires neighbours0 == Upto(unknown, i, colStart)
      requires knownMines0 == |Upto(mined, i, colStart)|
      ensures neighbours == Upto(unknown, i, if colStart < colEnd then colEnd else colStart)
      ensures knownMines == |Upto(mined, i, if colStart < colEnd then colEnd else colStart)|
    {
      neighbours, knownMines := neighbours0, knownMines0;
      var j := colStart;
      while j < colEnd
        invariant j == colStart || colStart < j <= colEnd
        invariant neighbours == Upto(unknown, i, j)
        invariant knownMines == |Upto(mined, i, j)|
      {
        var neighbour := (i, j);
        if neighbour in unknown {
          UptoAdd(unknown, i, j);
        } else {
          UptoSkip(unknown, i, j);
        }
        if neighbour in mined {
          UptoAdd(mined, i, j);
        } else {
          UptoSkip(mined, i, j);
        }
        if neighbour != cell && neighbour !in movesMade {
          if neighbour !in mines && neighbour !in safes {
            neighbours := neighbours + {neighbour};
          } else if neighbour in mines {
            knownMines := knownMines + 1;
          }
        }
        j := j + 1;
      }
    }

    /** Steps 1-3 of `add_knowledge`: record the move, mark it safe, append the new sentence. */
    method Record(cell: Cell, count: int)
      modifies this, knowledge
      ensures State() == K.Intake(old(State()), cell, count)
      ensures forall i :: 0 <= i < |knowledge| ==> knowledge[i] in old(knowledge) || fresh(knowledge[i])
    {
      movesMade := movesMade + {cell};
      ghost var moved := State();
      assert moved == old(State()).(movesMade := old(State()).movesMade + {cell});
      MarkSafe(cell);
      var neighbours, knownMines := Neighbours(cell);
      if neighbours != {} {
        Append(neighbours, count - knownMines);
      }
    }

    /** `knowledge.append(Sentence(cells, count))`. */
    method Append(cells: set<Cell>, count: int)
      modifies this
      ensures State() == old(State()).(knowledge := old(State()).knowledge + [K.Sentence(cells, count)])
      ensures forall i :: 0 <= i < |knowledge| ==> knowledge[i] in old(knowledge) || fresh(knowledge[i])
    {
      var sentence := new Sentence(cells, count);
      ghost var vs := Values(knowledge);
      assert vs == old(Values(knowledge));
      knowledge := knowledge + [sentence];
      assert Values(knowledge) == vs + [sentence.Value()];
    }

    /** Step 4: passes over a snapshot of the knowledge until one makes no marks. */
    method Propagate()
      modifies this, knowledge
      ensures State() == K.Propagate(old(State()))
      ensures forall i :: 0 <= i < |knowledge| ==> knowledge[i] in old(knowledge)
    {
      while true
        invariant forall i :: 0 <= i < |knowledge| ==> knowledge[i] in old(knowledge)
        invariant K.Propagate(State()) == K.Propagate(old(State()))
        decreases |knowledge|
      {
        ghost var before := State();
        var updated := RunPass();
        if !updated {
          assert State() == K.Propagate(before);
          break;
        }
      }
    }

    /**
     * Step 5: for every ordered pair of distinct sentences whose first is a
     * subset of the second, the difference sentence, unless it is already
     * known or already inferred.  Returns fresh objects and changes nothing.
     */
    method InferSentences() returns (inferred: seq<Sentence>)
      ensures Values(inferred) == K.Infer(Values(knowledge))
      ensures forall p :: 0 <= p < |inferred| ==> fresh(inferred[p])
    {
      ghost var ks := Values(knowledge);
      inferred := [];
      var i := 0;
      while i < |knowledge|
        invariant 0 <= i <= |knowledge|
        invariant forall p :: 0 <= p < |inferred| ==> fresh(inferred[p])
        invariant K.InferFrom(ks, i, 0, Values(inferred)) == K.Infer(ks)
      {
        inferred := InferRow(i, inferred, ks);
        i := i + 1;
      }
    }

    /** One pass of the inner loop of step 5: `sentence1` is `knowledge[i]`, `sentence2` runs over the list. */
    method InferRow(i: int, inferred0: seq<Sentence>, ghost ks: seq<K.Sentence>) returns (inferred: seq<Sentence>)
      requires 0 <= i < |knowledge| && Values(knowledge) == ks
      ensures K.InferFrom(ks, i + 1, 0, Values(inferred)) == K.InferFrom(ks, i, 0, Values(inferred0))
      ensures forall p :: 0 <= p < |inferred| ==> inferred[p] in inferred0 || fresh(inferred[p])
    {
      inferred := inferred0;
      var sentence1 := knowledge[i];
      var j := 0;
      while j < |knowledge|
        invariant 0 <= j <= |knowledge|
        invariant forall p :: 0 <= p < |inferred| ==> inferred[p] in inferred0 || fresh(inferred[p])
        invariant K.InferFrom(ks, i, j, Values(inferred)) == K.InferFrom(ks, i, 0, Values(inferred0))
      {
        var sentence2 := knowledge[j];
        ghost var acc := Values(inferred);
        ghost var d := K.Derive(ks[i], ks[j]);
        ghost var next := if K.Derivable(ks, i, j) && d !in ks && d !in acc then acc + [d] else acc;
        assert K.InferFrom(ks, i, j, acc) == K.InferFrom(ks, i, j + 1, next);
        assert sentence1.Value() == ks[i] && sentence2.Value() == ks[j];
        if !sentence1.Equals(sentence2) && sentence1.cells <= sentence2.cells {
          var newCells := sentence2.cells - sentence1.cells;
          var newCount := sentence2.count - sentence1.count;
          var inferredSentence := new Sentence(newCells, newCount);
          assert Values(knowledge) == ks && Values(inferred) == acc;
          if inferredSentence.Value() !in Values(knowledge) && inferredSentence.Value() !in Values(inferred) {
            inferred := inferred + [inferredSentence];
            assert Values(inferred) == acc + [inferredSentence.Value()];
          }
        }
        assert Values(inferred) == next;
        j := j + 1;
      }
    }

    /** `add_knowledge(cell, count)`: the board reports that the probed `cell` has `count` mined neighbours. */
    method AddKnowledge(cell: Cell, count: int)
      modifies this, knowledge
      ensures State() == K.AddKnowledge(old(State()), cell, count)
    {
      Record(cell, count);
      Propagate();
      AppendInferred();
    }

    /** Step 5 of `add_knowledge`: append the sentences the subset pass infers. */
    method AppendInferred()
      modifies this
      ensures State() == old(State()).(knowledge := old(State()).knowledge + K.Infer(old(State()).knowledge))
    {
      var inferred := InferSentences();
      ValuesConcat(knowledge, inferred);
      knowledge := knowledge + inferred;
    }

    /**
     * `make_safe_move`: a cell known to be safe that has not been probed, or
     * None when every safe cell has been probed.  Changes nothing.
     */
    method MakeSafeMove() returns (move: Option<Cell>)
      ensures move.Some? ==> move.value in safes && move.value !in movesMade
      ensures move.None? <==> safes <= movesMade
    {
      var todo := safes;
      while todo != {}
        invariant todo <= safes
        invariant safes - todo <= movesMade
        decreases |todo|
      {
        var safe :| safe in todo;
        if safe !in movesMade {
          return Some(safe);
        }
        todo := todo - {safe};
      }
      return None;
    }
  }
}
