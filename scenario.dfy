/**
 * The three observations the script feeds an 8x8 AI, each proved to reach
 * the state the script's comment expects: probing (1, 1) with no mined
 * neighbour, then (2, 2) with two, then (3, 3) with none.
 */
module Scenario {
  import opened Knowledge

  /** The 3x3 block around an interior cell. */
  lemma InteriorBlock(h: int, w: int, r: int, c: int)
    requires 1 <= r < h - 1 && 1 <= c < w - 1
    ensures Block(h, w, (r, c)) ==
      {(r - 1, c - 1), (r - 1, c), (r - 1, c + 1),
       (r, c - 1), (r, c), (r, c + 1),
       (r + 1, c - 1), (r + 1, c), (r + 1, c + 1)}
  {
    var b := Block(h, w, (r, c));
    var d := {(r - 1, c - 1), (r - 1, c), (r - 1, c + 1),
              (r, c - 1), (r, c), (r, c + 1),
              (r + 1, c - 1), (r + 1, c), (r + 1, c + 1)};
    forall n | n in d ensures n in b {
      assert r - 1 <= n.0 <= r + 1 && c - 1 <= n.1 <= c + 1;
    }
  }

  const Corner: set<Cell> :=
    {(0, 0), (0, 1), (0, 2), (1, 0), (1, 1), (1, 2), (2, 0), (2, 1), (2, 2)}

  /** The state after the first observation: no sentences, the block around (1, 1) safe. */
  const After1: KB := KB(8, 8, {(1, 1)}, {}, Corner, [])

  const Frontier: set<Cell> := {(1, 3), (2, 3), (3, 1), (3, 2), (3, 3)}

  /** After the second observation: one sentence, two mines among five cells. */
  const After2: KB := KB(8, 8, {(1, 1), (2, 2)}, {}, Corner, [Sentence(Frontier, 2)])

  const Cleared: set<Cell> := {(2, 3), (2, 4), (3, 2), (3, 4), (4, 2), (4, 3), (4, 4)}

  /** After the third observation: no sentences, two mines found, 17 safe cells. */
  const After3: KB := KB(8, 8, {(1, 1), (2, 2), (3, 3)}, {(1, 3), (3, 1)}, Corner + {(3, 3)} + Cleared, [])

  /** The sentence the first observation adds: the eight neighbours of (1, 1), none a mine. */
  const Around1: Sentence := Sentence(Corner - {(1, 1)}, 0)

  /** The state after the intake of the first observation. */
  const Intake1: KB := KB(8, 8, {(1, 1)}, {}, {(1, 1)}, [Around1])

  lemma FirstIntake()
    ensures Intake(Init(8, 8), (1, 1), 0) == Intake1
  {
    InteriorBlock(8, 8, 1, 1);
    var kb1 := KB(8, 8, {(1, 1)}, {}, {(1, 1)}, []);
    assert Init(8, 8).(movesMade := Init(8, 8).movesMade + {(1, 1)}) == Init(8, 8).(movesMade := {(1, 1)});
    assert MarkSafe(Init(8, 8).(movesMade := {(1, 1)}), (1, 1)) == kb1;
    assert UnknownNeighbours(kb1, (1, 1)) == Around1.cells;
    assert MineNeighbours(kb1, (1, 1)) == {};
    assert (0, 0) in Around1.cells;
  }

  /** `Around1` has count 0: all its cells become safe, which empties it, and it is removed. */
  lemma FirstStep()
    ensures Step(Intake1, [Around1]) == (After1, [], true)
  {
    assert (0, 0) in Around1.cells;
    assert KnownMines(Around1) == {} && KnownSafes(Around1) == Around1.cells;
    assert {(1, 1)} + Around1.cells == Corner;
    var kb3 := KB(8, 8, {(1, 1)}, {}, Corner, [Sentence({}, 0)]);
    assert SentenceMarkSafes(Around1, Around1.cells) == Sentence({}, 0);
    assert ListMarkSafes([Around1], Around1.cells) == [Sentence({}, 0)];
    assert MarkSafes(Intake1, Around1.cells) == kb3;
    assert Resolve(Intake1, [Around1]) == (kb3, [Sentence({}, 0)]);
    assert RemoveFirst([Sentence({}, 0)], Sentence({}, 0)) == [];
  }

  lemma FirstMove()
    ensures AddKnowledge(Init(8, 8), (1, 1), 0) == After1
    ensures After1.knowledge == [] && After1.mines == {} && After1.safes == Block(8, 8, (1, 1))
  {
    FirstIntake();
    FirstStep();
    InteriorBlock(8, 8, 1, 1);
    assert Pass(Intake1, [Around1], false) == (After1, true);
    assert Pass(After1, [], false) == (After1, false);
    assert Propagate(After1) == After1;
    assert Propagate(Intake1) == After1;
  }

  lemma SecondIntake()
    ensures Intake(After1, (2, 2), 2) == After2
  {
    InteriorBlock(8, 8, 2, 2);
    var kb1 := KB(8, 8, {(1, 1), (2, 2)}, {}, Corner, []);
    assert After1.(movesMade := After1.movesMade + {(2, 2)}) == After1.(movesMade := {(1, 1), (2, 2)});
    assert Corner + {(2, 2)} == Corner;
    assert MarkSafe(After1.(movesMade := {(1, 1), (2, 2)}), (2, 2)) == kb1;
    assert UnknownNeighbours(kb1, (2, 2)) == Frontier;
    assert MineNeighbours(kb1, (2, 2)) == {};
    assert (1, 3) in Frontier;
    assert kb1.knowledge + [Sentence(Frontier, 2)] == [Sentence(Frontier, 2)];
  }

  lemma SecondMove()
    ensures AddKnowledge(After1, (2, 2), 2) == After2
    ensures After2.knowledge == [Sentence({(1, 3), (2, 3), (3, 1), (3, 2), (3, 3)}, 2)] && After2.mines == {}
  {
    SecondIntake();
    SecondSettled();
    SecondNoInference();
  }

  /** The frontier sentence has neither known mines nor known safes, so propagation leaves it alone. */
  lemma SecondSettled()
    ensures Propagate(After2) == After2
  {
    var s := Sentence(Frontier, 2);
    assert |Frontier| == 5;
    assert KnownMines(s) == {} && KnownSafes(s) == {};
    assert Resolve(After2, [s]) == (After2, [s]);
    assert Step(After2, [s]) == (After2, [], false);
    assert Pass(After2, [s], false) == (After2, false);
  }

  /** A single sentence infers nothing. */
  lemma SecondNoInference()
    ensures Infer(After2.knowledge) == []
  {
    var s := Sentence(Frontier, 2);
    assert After2.knowledge == [s];
    assert InferFrom([s], 0, 1, []) == [];
  }

  // The third observation, stage by stage.
  const Undecided: Sentence := Sentence({(1, 3), (2, 3), (3, 1), (3, 2)}, 2)
  const Clear: Sentence := Sentence(Cleared, 0)
  const BothMines: Sentence := Sentence({(1, 3), (3, 1)}, 2)
  const Probed3: set<Cell> := {(1, 1), (2, 2), (3, 3)}
  const Intake3: KB := KB(8, 8, Probed3, {}, Corner + {(3, 3)}, [Undecided, Clear])
  const Pass3a: KB := KB(8, 8, Probed3, {}, Corner + {(3, 3)} + Cleared, [BothMines])

  lemma ThirdIntake()
    ensures Intake(After2, (3, 3), 0) == Intake3
  {
    var kb1 := KB(8, 8, Probed3, {}, Corner + {(3, 3)}, [Undecided]);
    assert (3, 3) in Frontier && Frontier - {(3, 3)} == Undecided.cells;
    assert SentenceMarkSafe(Sentence(Frontier, 2), (3, 3)) == Undecided;
    assert MarkSafe(After2.(movesMade := Probed3), (3, 3)) == kb1;
    ThirdNeighbours();
    assert After2.(movesMade := After2.movesMade + {(3, 3)}) == After2.(movesMade := Probed3);
    assert (2, 3) in Cleared;
  }

  /** Around (3, 3), after it is marked safe, the unknown cells are `Cleared` and none is a known mine. */
  lemma ThirdNeighbours()
    ensures var kb1 := KB(8, 8, Probed3, {}, Corner + {(3, 3)}, [Undecided]);
      UnknownNeighbours(kb1, (3, 3)) == Cleared && MineNeighbours(kb1, (3, 3)) == {}
  {
    InteriorBlock(8, 8, 3, 3);
  }

  /** The first pass: `Undecided` is left alone; `Clear` marks its cells safe, which empties it and shrinks `Undecided`. */
  lemma ThirdFirstPass()
    ensures Pass(Intake3, Intake3.knowledge, false) == (Pass3a, true)
  {
    ThirdFirstStep();
    ThirdSecondStep();
    assert Pass(Pass3a, [], true) == (Pass3a, true);
    assert Pass(Intake3, [Clear], false) == (Pass3a, true);
  }

  lemma ThirdFirstStep()
    ensures Step(Intake3, [Undecided, Clear]) == (Intake3, [Clear], false)
  {
    assert |Undecided.cells| == 4;
    assert KnownMines(Undecided) == {} && KnownSafes(Undecided) == {};
    assert Resolve(Intake3, [Undecided, Clear]) == (Intake3, [Undecided, Clear]);
  }

  /** `Clear`'s cells marked safe: `Undecided` shrinks to `BothMines` and `Clear` empties. */
  const Marked3: KB := KB(8, 8, Probed3, {}, Corner + {(3, 3)} + Cleared, [BothMines, Sentence({}, 0)])

  lemma ThirdClearMarks()
    ensures MarkSafes(Intake3, Cleared) == Marked3
  {
    assert SentenceMarkSafes(Undecided, Cleared) == BothMines;
    assert SentenceMarkSafes(Clear, Cleared) == Sentence({}, 0);
  }

  lemma ThirdClearResolve()
    ensures Resolve(Intake3, [Clear]) == (Marked3, [Sentence({}, 0)])
  {
    assert (2, 3) in Cleared;
    assert KnownMines(Clear) == {} && KnownSafes(Clear) == Cleared;
    ThirdClearMarks();
    assert SentenceMarkSafes(Clear, Cleared) == Sentence({}, 0);
    assert ListMarkSafes([Clear], Cleared) == [Sentence({}, 0)];
  }

  lemma ThirdSecondStep()
    ensures Step(Intake3, [Clear]) == (Pass3a, [], true)
  {
    ThirdClearResolve();
    assert (2, 3) in Cleared;
    assert KnownSafes(Clear) != {};
    assert RemoveFirst([BothMines, Sentence({}, 0)], Sentence({}, 0)) == [BothMines];
  }

  /** The second pass: both cells of `BothMines` are mines, which empties it. */
  lemma ThirdSecondPass()
    ensures Pass(Pass3a, Pass3a.knowledge, false) == (After3, true)
  {
    var kb4 := Pass3a;
    assert |BothMines.cells| == 2;
    assert KnownMines(BothMines) == BothMines.cells && KnownSafes(BothMines) == {};
    var kb5 := kb4.(mines := BothMines.cells, knowledge := [Sentence({}, 0)]);
    assert BothMines.cells * BothMines.cells == BothMines.cells;
    assert SentenceMarkMines(BothMines, BothMines.cells) == Sentence({}, 0);
    assert MarkMines(kb4, BothMines.cells) == kb5;
    assert Resolve(kb4, [BothMines]) == (kb5, [Sentence({}, 0)]);
    assert Step(kb4, [BothMines]) == (After3, [], true);
  }

  lemma ThirdMove()
    ensures AddKnowledge(After2, (3, 3), 0) == After3
    ensures After3.knowledge == [] && After3.mines == {(1, 3), (3, 1)}
  {
    ThirdIntake();
    ThirdFirstPass();
    ThirdSecondPass();
    assert Propagate(After3) == After3;
    assert Propagate(Pass3a) == After3;
    assert Propagate(Intake3) == After3;
  }

  /** The 17 safe cells the script expects after the third observation. */
  lemma ThirdMoveSafes()
    ensures After3.safes == Expected3
  {
  }

  lemma ThirdMoveSafeCount()
    ensures |After3.safes| == 17
  {
    SafeLeftCount();
    ClearedCount();
    SafeLeftDisjoint();
    DisjointCount(Corner + {(3, 3)}, Cleared);
  }

  lemma DisjointCount(a: set<Cell>, b: set<Cell>)
    requires a * b == {}
    ensures |a + b| == |a| + |b|
  {
  }

  lemma SafeLeftCount()
    ensures |Corner + {(3, 3)}| == 10
  {
    CornerCount();
    assert (3, 3) !in Corner;
  }

  lemma SafeLeftDisjoint()
    ensures (Corner + {(3, 3)}) * Cleared == {}
  {
    assert forall c :: c in Corner ==> c.0 <= 2 && c.1 <= 2;
    assert forall c :: c in Cleared ==> (3 <= c.0 || 3 <= c.1) && c != (3, 3);
  }

  lemma CornerCount()
    ensures |Corner| == 9
  {
  }

  lemma ClearedCount()
    ensures |Cleared| == 7
  {
  }

  const Expected3: set<Cell> :=
    {(0, 0), (0, 1), (0, 2), (1, 0), (1, 1), (1, 2), (2, 0), (2, 1), (2, 2),
     (2, 3), (2, 4), (3, 2), (3, 3), (3, 4), (4, 2), (4, 3), (4, 4)}

  // ---------------------------------------------------------------------
  // Two small examples of the inference rules

  /** From {a,b,c} = 1 and {a,b,c,d} = 2 the subset pass derives {d} = 1, and nothing else. */
  lemma SubsetExample()
    ensures Infer([Sentence({(0, 0), (0, 1), (0, 2)}, 1), Sentence({(0, 0), (0, 1), (0, 2), (0, 3)}, 2)])
         == [Sentence({(0, 3)}, 1)]
  {
    var a := Sentence({(0, 0), (0, 1), (0, 2)}, 1);
    var b := Sentence({(0, 0), (0, 1), (0, 2), (0, 3)}, 2);
    var ks := [a, b];
    var d := Sentence({(0, 3)}, 1);
    assert b.cells - a.cells == d.cells;
    assert Derive(a, b) == d;
    assert (0, 3) !in a.cells && d != a && d != b;
    assert !Derivable(ks, 0, 0) && Derivable(ks, 0, 1) && !Derivable(ks, 1, 0) && !Derivable(ks, 1, 1);
    assert InferFrom(ks, 2, 0, [d]) == [d];
    assert InferFrom(ks, 1, 2, [d]) == [d];
    assert InferFrom(ks, 1, 1, [d]) == [d];
    assert InferFrom(ks, 1, 0, [d]) == [d];
    assert InferFrom(ks, 0, 2, [d]) == [d];
    assert ks[0] == a && ks[1] == b && d !in ks;
    assert Derive(ks[0], ks[1]) == d;
    var none: seq<Sentence> := [];
    assert d !in none && none + [d] == [d];
    assert InferFrom(ks, 0, 1, []) == InferFrom(ks, 0, 2, [d]);
    assert InferFrom(ks, 0, 0, []) == InferFrom(ks, 0, 1, []);
  }

  /** The sentence {d} = 1 that SubsetExample derives makes d a mine at the next propagation. */
  lemma SubsetFollowUp(kb: KB)
    requires kb.knowledge == [Sentence({(0, 3)}, 1)]
    ensures (0, 3) in Propagate(kb).mines && Propagate(kb).knowledge == []
  {
    var s := kb.knowledge[0];
    assert KnownMines(s) == {(0, 3)} && KnownSafes(s) == {};
    assert SentenceMarkMines(s, s.cells) == Sentence({}, 0);
    assert ListMarkMines([s], s.cells) == [Sentence({}, 0)];
    assert RemoveFirst([Sentence({}, 0)], Sentence({}, 0)) == [];
    var p := Pass(kb, kb.knowledge, false);
    assert p.1 && (0, 3) in p.0.mines && p.0.knowledge == [];
    assert Pass(p.0, [], false) == (p.0, false);
  }

  /** A sentence {x,y} = 0 makes both cells safe in one pass, and is then dropped. */
  lemma DirectResolution(kb: KB)
    requires kb.knowledge == [Sentence({(0, 0), (0, 1)}, 0)]
    ensures var p := Pass(kb, kb.knowledge, false);
      p.1 && {(0, 0), (0, 1)} <= p.0.safes && p.0.knowledge == []
  {
    var s := kb.knowledge[0];
    assert KnownMines(s) == {} && KnownSafes(s) == s.cells;
    assert SentenceMarkSafes(s, s.cells) == Sentence({}, 0);
    assert ListMarkSafes([s], s.cells) == [Sentence({}, 0)];
    assert RemoveFirst([Sentence({}, 0)], Sentence({}, 0)) == [];
  }
}
