/**
 * What the knowledge base promises: the marking operations are idempotent and
 * compose, the subset pass appends exactly the new derivable sentences, known
 * cells never linger in sentences, and every conclusion is sound for the true
 * mine layout whenever the observations are the board's real counts.
 */
module KnowledgeFacts {
  import opened Knowledge

  // ---------------------------------------------------------------------
  // Marking

  /** Calling `mark_mine` twice with the same cell gives the same state as once. */
  lemma MarkMineIdempotent(kb: KB, c: Cell)
    ensures MarkMine(MarkMine(kb, c), c) == MarkMine(kb, c)
  {
    var once := MarkMine(kb, c);
    assert MarkMine(once, c).knowledge == once.knowledge;
  }

  /** Calling `mark_safe` twice with the same cell gives the same state as once. */
  lemma MarkSafeIdempotent(kb: KB, c: Cell)
    ensures MarkSafe(MarkSafe(kb, c), c) == MarkSafe(kb, c)
  {
    var once := MarkSafe(kb, c);
    assert MarkSafe(once, c).knowledge == once.knowledge;
  }

  /** Marking one more mine after a set of them is marking the larger set. */
  lemma SentenceMarkMinesStep(s: Sentence, d: set<Cell>, c: Cell)
    ensures SentenceMarkMine(SentenceMarkMines(s, d), c) == SentenceMarkMines(s, d + {c})
  {
    if c in d {
      SentenceMarkMinesAgain(s, d, c);
    } else {
      SentenceMarkMinesFresh(s, d, c);
    }
  }

  lemma SentenceMarkMinesAgain(s: Sentence, d: set<Cell>, c: Cell)
    requires c in d
    ensures SentenceMarkMine(SentenceMarkMines(s, d), c) == SentenceMarkMines(s, d + {c})
  {
    assert c !in SentenceMarkMines(s, d).cells;
    assert d + {c} == d;
  }

  lemma SentenceMarkMinesFresh(s: Sentence, d: set<Cell>, c: Cell)
    requires c !in d
    ensures SentenceMarkMine(SentenceMarkMines(s, d), c) == SentenceMarkMines(s, d + {c})
  {
    if c in s.cells {
      assert s.cells * (d + {c}) == s.cells * d + {c};
    } else {
      assert s.cells * (d + {c}) == s.cells * d;
    }
    assert s.cells - d - {c} == s.cells - (d + {c});
  }

  /** Marking one more safe cell after a set of them is marking the larger set. */
  lemma SentenceMarkSafesStep(s: Sentence, d: set<Cell>, c: Cell)
    ensures SentenceMarkSafe(SentenceMarkSafes(s, d), c) == SentenceMarkSafes(s, d + {c})
  {
    assert s.cells - d - {c} == s.cells - (d + {c});
  }

  /** The loop `for mine in known_mines.copy(): self.mark_mine(mine)` marks the whole set, in any order. */
  lemma MarkMinesStep(kb: KB, d: set<Cell>, c: Cell)
    ensures MarkMine(MarkMines(kb, d), c) == MarkMines(kb, d + {c})
  {
    var lhs := MarkMine(MarkMines(kb, d), c);
    var rhs := MarkMines(kb, d + {c});
    forall i | 0 <= i < |kb.knowledge| ensures lhs.knowledge[i] == rhs.knowledge[i] {
      SentenceMarkMinesStep(kb.knowledge[i], d, c);
    }
    assert lhs.knowledge == rhs.knowledge;
  }

  /** The loop `for safe in known_safes.copy(): self.mark_safe(safe)` marks the whole set, in any order. */
  lemma MarkSafesStep(kb: KB, d: set<Cell>, c: Cell)
    ensures MarkSafe(MarkSafes(kb, d), c) == MarkSafes(kb, d + {c})
  {
    var lhs := MarkSafe(MarkSafes(kb, d), c);
    var rhs := MarkSafes(kb, d + {c});
    forall i | 0 <= i < |kb.knowledge| ensures lhs.knowledge[i] == rhs.knowledge[i] {
      SentenceMarkSafesStep(kb.knowledge[i], d, c);
    }
    assert lhs.knowledge == rhs.knowledge;
  }

  /** Marking no cells leaves a sentence as it is. */
  lemma SentenceMarkNothing(s: Sentence)
    ensures SentenceMarkMines(s, {}) == s && SentenceMarkSafes(s, {}) == s
  {
    assert s.cells - {} == s.cells;
  }

  /** Marking cells leaves a sentence without cells as it is. */
  lemma MarkEmptySentence(s: Sentence, m: set<Cell>)
    requires s.cells == {}
    ensures SentenceMarkMines(s, m) == s && SentenceMarkSafes(s, m) == s
  {
    assert s.cells * m == {};
  }

  /** Marking no cells leaves a list of sentences as it is. */
  lemma ListMarkNothing(ks: seq<Sentence>)
    ensures ListMarkMines(ks, {}) == ks && ListMarkSafes(ks, {}) == ks
  {
    forall i | 0 <= i < |ks|
      ensures ListMarkMines(ks, {})[i] == ks[i] && ListMarkSafes(ks, {})[i] == ks[i]
    {
      SentenceMarkNothing(ks[i]);
    }
  }

  /** Marking no cells changes nothing. */
  lemma MarkNothing(kb: KB)
    ensures MarkMines(kb, {}) == kb && MarkSafes(kb, {}) == kb
  {
    ListMarkNothing(kb.knowledge);
  }

  /** The marks made for the head of `rest`, computed up front: mines first, then safes. */
  lemma ResolveMarks(kb: KB, rest: seq<Sentence>)
    requires rest != [] && multiset(rest) <= multiset(kb.knowledge)
    ensures var km := KnownMines(rest[0]);
      var ks := KnownSafes(rest[0]);
      var r := Resolve(kb, rest);
      r.0 == MarkSafes(MarkMines(kb, km), ks) &&
      r.1 == ListMarkSafes(ListMarkMines(rest, km), ks)
  {
    var km := KnownMines(rest[0]);
    var ks := KnownSafes(rest[0]);
    MarkNothing(kb);
    MarkNothing(MarkMines(kb, km));
    ListMarkNothing(rest);
    ListMarkNothing(ListMarkMines(rest, km));
  }

  /** The first index holding `v` is the only index satisfying FirstIndex's contract. */
  lemma FirstIndexUnique(ks: seq<Sentence>, v: Sentence, i: int)
    requires 0 <= i < |ks| && ks[i] == v
    requires forall p :: 0 <= p < i ==> ks[p] != v
    ensures FirstIndex(ks, v) == i
  {
    var r := FirstIndex(ks, v);
    assert !(r < i) && !(i < r);
  }

  // ---------------------------------------------------------------------
  // Subset inference

  predicate NoDuplicates(s: seq<Sentence>)
  {
    forall a, b :: 0 <= a < b < |s| ==> s[a] != s[b]
  }

  /** `d` follows by subset elimination from some pair of distinct sentences of `ks`. */
  ghost predicate DerivedFrom(ks: seq<Sentence>, d: Sentence)
  {
    exists p, q :: Derivable(ks, p, q) && d == Derive(ks[p], ks[q])
  }

  /** Pair (p, q) comes before (i, j) in the order of the nested loops. */
  predicate Before(p: int, q: int, i: int, j: int)
  {
    p < i || (p == i && q < j)
  }

  /** Every pair before (i, j) has its derived sentence in `ks` or in `acc`. */
  ghost predicate CoveredUpTo(ks: seq<Sentence>, i: int, j: int, acc: seq<Sentence>)
  {
    forall p, q :: Derivable(ks, p, q) && Before(p, q, i, j) ==>
      Derive(ks[p], ks[q]) in ks || Derive(ks[p], ks[q]) in acc
  }

  /** From any pair onward, the loops only append to `acc`. */
  lemma {:induction false} InferFromGrows(ks: seq<Sentence>, i: nat, j: nat, acc: seq<Sentence>)
    requires i <= |ks| && j <= |ks|
    ensures acc <= InferFrom(ks, i, j, acc)
    decreases |ks| - i, |ks| - j
  {
    if i == |ks| {
    } else if j == |ks| {
      InferFromGrows(ks, i + 1, 0, acc);
    } else {
      var d := Derive(ks[i], ks[j]);
      var acc' := if Derivable(ks, i, j) && d !in ks && d !in acc then acc + [d] else acc;
      InferFromGrows(ks, i, j + 1, acc');
      var r := InferFrom(ks, i, j + 1, acc');
      assert r[..|acc|] == acc'[..|acc|];
    }
  }

  /** From any pair onward, the loops never append a sentence twice. */
  lemma {:induction false} InferFromDistinct(ks: seq<Sentence>, i: nat, j: nat, acc: seq<Sentence>)
    requires i <= |ks| && j <= |ks|
    requires NoDuplicates(acc)
    ensures NoDuplicates(InferFrom(ks, i, j, acc))
    decreases |ks| - i, |ks| - j
  {
    if i == |ks| {
    } else if j == |ks| {
      InferFromDistinct(ks, i + 1, 0, acc);
    } else {
      var d := Derive(ks[i], ks[j]);
      if Derivable(ks, i, j) && d !in ks && d !in acc {
        var acc' := acc + [d];
        assert NoDuplicates(acc') by {
          forall a, b | 0 <= a < b < |acc'|
            ensures acc'[a] != acc'[b]
          {
            if b == |acc| {
              assert acc'[a] in acc;
            }
          }
        }
        InferFromDistinct(ks, i, j + 1, acc');
      } else {
        InferFromDistinct(ks, i, j + 1, acc);
      }
    }
  }

  /** From any pair onward, every appended sentence is new and derived from a pair of `ks`. */
  lemma {:induction false} InferFromDerived(ks: seq<Sentence>, i: nat, j: nat, acc: seq<Sentence>)
    requires i <= |ks| && j <= |ks|
    requires forall d :: d in acc ==> d !in ks && DerivedFrom(ks, d)
    ensures forall d :: d in InferFrom(ks, i, j, acc) ==> d !in ks && DerivedFrom(ks, d)
    decreases |ks| - i, |ks| - j
  {
    if i == |ks| {
    } else if j == |ks| {
      InferFromDerived(ks, i + 1, 0, acc);
    } else {
      var d := Derive(ks[i], ks[j]);
      if Derivable(ks, i, j) && d !in ks && d !in acc {
        var acc' := acc + [d];
        assert DerivedFrom(ks, d);
        assert forall x :: x in acc' ==> x in acc || x == d;
        InferFromDerived(ks, i, j + 1, acc');
      } else {
        InferFromDerived(ks, i, j + 1, acc);
      }
    }
  }

  /** From any pair onward, every derivable pair ends up in `ks` or in the additions. */
  lemma {:induction false} InferFromCovers(ks: seq<Sentence>, i: nat, j: nat, acc: seq<Sentence>)
    requires i <= |ks| && j <= |ks|
    requires CoveredUpTo(ks, i, j, acc)
    ensures CoveredUpTo(ks, |ks|, 0, InferFrom(ks, i, j, acc))
    decreases |ks| - i, |ks| - j
  {
    if i == |ks| {
      forall p, q | Derivable(ks, p, q) && Before(p, q, |ks|, 0)
        ensures Before(p, q, i, j)
      {
      }
    } else if j == |ks| {
      forall p, q | Derivable(ks, p, q) && Before(p, q, i + 1, 0)
        ensures Before(p, q, i, j)
      {
      }
      InferFromCovers(ks, i + 1, 0, acc);
    } else {
      var d := Derive(ks[i], ks[j]);
      var acc' := if Derivable(ks, i, j) && d !in ks && d !in acc then acc + [d] else acc;
      CoveredStep(ks, i, j, acc, acc');
      InferFromCovers(ks, i, j + 1, acc');
    }
  }

  /** Visiting pair (i, j) extends the covered pairs by one. */
  lemma CoveredStep(ks: seq<Sentence>, i: nat, j: nat, acc: seq<Sentence>, acc': seq<Sentence>)
    requires i < |ks| && j < |ks|
    requires CoveredUpTo(ks, i, j, acc)
    requires acc' == if Derivable(ks, i, j) && Derive(ks[i], ks[j]) !in ks && Derive(ks[i], ks[j]) !in acc
      then acc + [Derive(ks[i], ks[j])] else acc
    ensures CoveredUpTo(ks, i, j + 1, acc')
  {
    forall p, q | Derivable(ks, p, q) && Before(p, q, i, j + 1)
      ensures Derive(ks[p], ks[q]) in ks || Derive(ks[p], ks[q]) in acc'
    {
      if Before(p, q, i, j) {
        assert Derive(ks[p], ks[q]) in ks || Derive(ks[p], ks[q]) in acc;
      }
    }
  }

  /**
   * The subset pass appends, in loop order, the sentences derived from pairs of
   * distinct sentences with nested cell sets: none already in the list, none
   * twice, and every such derived sentence ends up in the list or the additions.
   */
  lemma InferFacts(ks: seq<Sentence>)
    ensures NoDuplicates(Infer(ks))
    ensures forall d :: d in Infer(ks) ==> d !in ks && DerivedFrom(ks, d)
    ensures forall p, q :: Derivable(ks, p, q) ==>
      Derive(ks[p], ks[q]) in ks || Derive(ks[p], ks[q]) in Infer(ks)
  {
    InferFromDistinct(ks, 0, 0, []);
    InferFromDerived(ks, 0, 0, []);
    InferFromCovers(ks, 0, 0, []);
  }

  // ---------------------------------------------------------------------
  // Known cells never stay in a sentence

  /** Probed cells are known safe, and no known cell appears in any sentence. */
  predicate Clean(kb: KB)
  {
    kb.movesMade <= kb.safes &&
    forall s :: s in kb.knowledge ==> s.cells !! (kb.mines + kb.safes)
  }

  lemma CleanInit(height: int, width: int)
    ensures Clean(Init(height, width))
  {
  }

  lemma {:induction false} PassClean(kb: KB, rest: seq<Sentence>, updated: bool)
    requires multiset(rest) <= multiset(kb.knowledge)
    requires Clean(kb)
    ensures Clean(Pass(kb, rest, updated).0)
    decreases |rest|
  {
    if rest != [] {
      var st := Step(kb, rest);
      StepClean(kb, rest);
      PassClean(st.0, st.1, updated || st.2);
    }
  }

  /** One step of the propagation loop keeps known cells out of every sentence. */
  lemma StepClean(kb: KB, rest: seq<Sentence>)
    requires rest != [] && multiset(rest) <= multiset(kb.knowledge)
    requires Clean(kb)
    ensures Clean(Step(kb, rest).0)
  {
    ResolveMarks(kb, rest);
    var rs := Resolve(kb, rest);
    assert Clean(rs.0);
  }

  lemma {:induction false} PropagateClean(kb: KB)
    requires Clean(kb)
    ensures Clean(Propagate(kb))
    decreases |kb.knowledge|
  {
    var p := Pass(kb, kb.knowledge, false);
    PassClean(kb, kb.knowledge, false);
    if p.1 {
      PropagateClean(p.0);
    }
  }

  /** After the intake the probed cell is a move made, known safe, and in no sentence. */
  lemma IntakeFacts(kb: KB, cell: Cell, count: int)
    requires Clean(kb)
    ensures var r := Intake(kb, cell, count);
      Clean(r) &&
      r.movesMade == kb.movesMade + {cell} && r.safes == kb.safes + {cell} && r.mines == kb.mines &&
      (forall s :: s in r.knowledge ==> cell !in s.cells)
  {
  }

  /**
   * The sentence appended for an observation: the in-bounds 3x3 neighbours of
   * `cell` that are not `cell` and not already moved, mined or safe, with
   * the count lowered by the unmoved neighbours already known to be mines.
   * It is appended only when that cell set is non-empty.
   */
  lemma IntakeSentence(kb: KB, cell: Cell, count: int)
    ensures var r := Intake(kb, cell, count);
      var unknown := set n | n in Block(kb.height, kb.width, cell) && n != cell &&
                           n !in kb.movesMade && n !in kb.mines && n !in kb.safes;
      var known := set n | n in Block(kb.height, kb.width, cell) && n != cell &&
                           n !in kb.movesMade && n in kb.mines;
      r.knowledge[..|kb.knowledge|] == MapSeq(kb.knowledge, s => SentenceMarkSafe(s, cell)) &&
      (unknown == {} ==> |r.knowledge| == |kb.knowledge|) &&
      (unknown != {} ==> (|r.knowledge| == |kb.knowledge| + 1 &&
                          r.knowledge[|kb.knowledge|] == Sentence(unknown, count - |known|)))
  {
    var kb1 := MarkSafe(kb.(movesMade := kb.movesMade + {cell}), cell);
    assert UnknownNeighbours(kb1, cell) ==
           set n | n in Block(kb.height, kb.width, cell) && n != cell &&
                   n !in kb.movesMade && n !in kb.mines && n !in kb.safes;
    assert MineNeighbours(kb1, cell) ==
           set n | n in Block(kb.height, kb.width, cell) && n != cell &&
                   n !in kb.movesMade && n in kb.mines;
    assert kb1.knowledge == MapSeq(kb.knowledge, s => SentenceMarkSafe(s, cell));
  }

  /**
   * `add_knowledge` records the move as made and safe, only adds to the known
   * sets, keeps known cells out of every sentence, and leaves the list as the
   * settled survivors of propagation followed by the inferred sentences.
   */
  lemma AddKnowledgeFacts(kb: KB, cell: Cell, count: int)
    requires Clean(kb)
    ensures var r := AddKnowledge(kb, cell, count);
      var settled := Propagate(Intake(kb, cell, count)).knowledge;
      Clean(r) &&
      r.movesMade == kb.movesMade + {cell} && cell in r.safes &&
      kb.mines <= r.mines && kb.safes <= r.safes &&
      (forall s :: s in r.knowledge ==> cell !in s.cells) &&
      r.knowledge == settled + Infer(settled) &&
      (forall s :: s in settled ==> Settled(s))
  {
    var kb1 := Intake(kb, cell, count);
    IntakeFacts(kb, cell, count);
    var kb2 := Propagate(kb1);
    PropagateClean(kb1);
    var inf := Infer(kb2.knowledge);
    InferFacts(kb2.knowledge);
    forall d | d in inf ensures d.cells !! (kb2.mines + kb2.safes) {
      var p, q :| Derivable(kb2.knowledge, p, q) && d == Derive(kb2.knowledge[p], kb2.knowledge[q]);
      assert kb2.knowledge[q] in kb2.knowledge;
    }
  }

  // ---------------------------------------------------------------------
  // Soundness with respect to the true mine layout `w`

  /** The mine layout `w` satisfies "exactly count of cells are mines". */
  ghost predicate Holds(w: set<Cell>, s: Sentence)
  {
    |s.cells * w| == s.count
  }

  /** Everything the knowledge base believes is true of the layout `w`. */
  ghost predicate Sound(kb: KB, w: set<Cell>)
  {
    kb.movesMade <= kb.safes && kb.mines <= w && kb.safes !! w &&
    forall s :: s in kb.knowledge ==> Holds(w, s)
  }

  /** The number of mines of `w` around `cell`, as `Minesweeper.nearby_mines` counts them. */
  function NearbyCount(w: set<Cell>, height: int, width: int, cell: Cell): nat
  {
    |set n | n in Block(height, width, cell) && n != cell && n in w|
  }

  lemma SubsetCard(a: set<Cell>, b: set<Cell>)
    requires a <= b
    ensures |a| <= |b|
  {
    assert b == a + (b - a);
  }

  /** A sentence true of `w` has its count between 0 and its number of cells. */
  lemma HoldsBounds(w: set<Cell>, s: Sentence)
    requires Holds(w, s)
    ensures 0 <= s.count <= |s.cells|
  {
    SubsetCard(s.cells * w, s.cells);
  }

  /** Cells a true sentence reports as mines are mines. */
  lemma KnownMinesSound(w: set<Cell>, s: Sentence)
    requires Holds(w, s)
    ensures KnownMines(s) <= w
  {
    if |s.cells| == s.count && s.count != 0 && !(s.cells <= w) {
      var x :| x in s.cells && x !in w;
      SubsetCard(s.cells * w, s.cells - {x});
    }
  }

  /** Cells a true sentence reports as safe are not mines. */
  lemma KnownSafesSound(w: set<Cell>, s: Sentence)
    requires Holds(w, s)
    ensures KnownSafes(s) !! w
  {
    if s.count == 0 {
      assert s.cells * w == {};
      assert forall x :: x in s.cells && x in w ==> x in s.cells * w;
    }
  }

  /** Removing real mines from a true sentence and lowering its count keeps it true. */
  lemma MarkMinesSound(w: set<Cell>, s: Sentence, m: set<Cell>)
    requires Holds(w, s) && m <= w
    ensures Holds(w, SentenceMarkMines(s, m))
  {
    var c := s.cells;
    assert c * w == (c - m) * w + c * m;
    assert ((c - m) * w) !! (c * m);
  }

  /** Removing real safe cells from a true sentence keeps it true. */
  lemma MarkSafesSound(w: set<Cell>, s: Sentence, m: set<Cell>)
    requires Holds(w, s) && m !! w
    ensures Holds(w, SentenceMarkSafes(s, m))
  {
    assert (s.cells - m) * w == s.cells * w;
  }

  /** Subset elimination: if s1 is inside s2, the cells only s2 has hold the difference of the counts. */
  lemma DeriveSound(w: set<Cell>, s1: Sentence, s2: Sentence)
    requires Holds(w, s1) && Holds(w, s2) && s1.cells <= s2.cells
    ensures Holds(w, Derive(s1, s2))
  {
    assert s2.cells * w == (s2.cells - s1.cells) * w + s1.cells * w;
    assert ((s2.cells - s1.cells) * w) !! (s1.cells * w);
  }

  /** Removing real mines from every true sentence of a list keeps each one true. */
  lemma ListMarkMinesSound(w: set<Cell>, ks: seq<Sentence>, m: set<Cell>)
    requires m <= w && forall s :: s in ks ==> Holds(w, s)
    ensures forall s :: s in ListMarkMines(ks, m) ==> Holds(w, s)
  {
    var r := ListMarkMines(ks, m);
    forall s | s in r ensures Holds(w, s) {
      var i :| 0 <= i < |r| && r[i] == s;
      MarkMinesSound(w, ks[i], m);
    }
  }

  /** Removing real safe cells from every true sentence of a list keeps each one true. */
  lemma ListMarkSafesSound(w: set<Cell>, ks: seq<Sentence>, m: set<Cell>)
    requires m !! w && forall s :: s in ks ==> Holds(w, s)
    ensures forall s :: s in ListMarkSafes(ks, m) ==> Holds(w, s)
  {
    var r := ListMarkSafes(ks, m);
    forall s | s in r ensures Holds(w, s) {
      var i :| 0 <= i < |r| && r[i] == s;
      MarkSafesSound(w, ks[i], m);
    }
  }

  lemma StepSound(kb: KB, rest: seq<Sentence>, w: set<Cell>)
    requires rest != [] && multiset(rest) <= multiset(kb.knowledge)
    requires Sound(kb, w) && forall s :: s in rest ==> Holds(w, s)
    ensures Sound(Step(kb, rest).0, w)
    ensures forall s :: s in Step(kb, rest).1 ==> Holds(w, s)
  {
    var v := rest[0];
    var km := KnownMines(v);
    var ks := KnownSafes(v);
    KnownMinesSound(w, v);
    KnownSafesSound(w, v);
    ResolveMarks(kb, rest);
    ListMarkMinesSound(w, kb.knowledge, km);
    ListMarkMinesSound(w, rest, km);
    ListMarkSafesSound(w, ListMarkMines(kb.knowledge, km), ks);
    ListMarkSafesSound(w, ListMarkMines(rest, km), ks);
    var rs := Resolve(kb, rest);
    assert Sound(rs.0, w);
    forall s | s in rs.1[1..] ensures Holds(w, s) {
      assert s in rs.1;
    }
  }

  lemma {:induction false} PassSound(kb: KB, rest: seq<Sentence>, updated: bool, w: set<Cell>)
    requires multiset(rest) <= multiset(kb.knowledge)
    requires Sound(kb, w) && forall s :: s in rest ==> Holds(w, s)
    ensures Sound(Pass(kb, rest, updated).0, w)
    decreases |rest|
  {
    if rest != [] {
      var st := Step(kb, rest);
      StepSound(kb, rest, w);
      PassSound(st.0, st.1, updated || st.2, w);
    }
  }

  lemma {:induction false} PropagateSound(kb: KB, w: set<Cell>)
    requires Sound(kb, w)
    ensures Sound(Propagate(kb), w)
    decreases |kb.knowledge|
  {
    var p := Pass(kb, kb.knowledge, false);
    PassSound(kb, kb.knowledge, false, w);
    if p.1 {
      PropagateSound(p.0, w);
    }
  }

  /** Recording a probed cell that is not a mine and marking it safe keeps the knowledge base sound. */
  lemma ProbeSound(kb: KB, w: set<Cell>, cell: Cell)
    requires Sound(kb, w) && cell !in w
    ensures Sound(MarkSafe(kb.(movesMade := kb.movesMade + {cell}), cell), w)
  {
    var kb1 := MarkSafe(kb.(movesMade := kb.movesMade + {cell}), cell);
    forall s | s in kb1.knowledge ensures Holds(w, s) {
      var i :| 0 <= i < |kb1.knowledge| && kb1.knowledge[i] == s;
      MarkSafesSound(w, kb.knowledge[i], {cell});
    }
  }

  /** The sentence built for `cell` is true when `count` is the real number of mines around it. */
  lemma NewSentenceHolds(kb: KB, w: set<Cell>, cell: Cell, count: int)
    requires Sound(kb, w)
    requires count == NearbyCount(w, kb.height, kb.width, cell)
    ensures Holds(w, Sentence(UnknownNeighbours(kb, cell), count - |MineNeighbours(kb, cell)|))
  {
    var unknown := UnknownNeighbours(kb, cell);
    var known := MineNeighbours(kb, cell);
    var around := set n | n in Block(kb.height, kb.width, cell) && n != cell && n in w;
    assert around == unknown * w + known;
    assert (unknown * w) !! known;
  }

  /** The new sentence is true when `count` is the real number of mines around a cell that is not a mine. */
  lemma IntakeSound(kb: KB, w: set<Cell>, cell: Cell, count: int)
    requires Sound(kb, w) && cell !in w
    requires count == NearbyCount(w, kb.height, kb.width, cell)
    ensures Sound(Intake(kb, cell, count), w)
  {
    var kb1 := MarkSafe(kb.(movesMade := kb.movesMade + {cell}), cell);
    ProbeSound(kb, w, cell);
    NewSentenceHolds(kb1, w, cell, count);
  }

  /**
   * Soundness of `add_knowledge`: if everything known is true of the mine
   * layout `w`, the probed cell is not a mine and `count` is its real number
   * of neighbouring mines, then everything known afterwards is still true;
   * in particular no cell is ever concluded both safe and a mine.
   */
  lemma AddKnowledgeSound(kb: KB, w: set<Cell>, cell: Cell, count: int)
    requires Sound(kb, w) && cell !in w
    requires count == NearbyCount(w, kb.height, kb.width, cell)
    ensures Sound(AddKnowledge(kb, cell, count), w)
    ensures AddKnowledge(kb, cell, count).mines !! AddKnowledge(kb, cell, count).safes
  {
    IntakeSound(kb, w, cell, count);
    var kb2 := Propagate(Intake(kb, cell, count));
    PropagateSound(Intake(kb, cell, count), w);
    InferFacts(kb2.knowledge);
    forall d | d in Infer(kb2.knowledge) ensures Holds(w, d) {
      var p, q :| Derivable(kb2.knowledge, p, q) && d == Derive(kb2.knowledge[p], kb2.knowledge[q]);
      DeriveSound(w, kb2.knowledge[p], kb2.knowledge[q]);
    }
  }

  /** The empty knowledge base is sound for every layout. */
  lemma InitSound(height: int, width: int, w: set<Cell>)
    ensures Sound(Init(height, width), w)
  {
  }

  /** In a sound state every sentence has 0 <= count <= |cells| and known mines and safes are disjoint. */
  lemma SoundInvariants(kb: KB, w: set<Cell>)
    requires Sound(kb, w)
    ensures kb.mines !! kb.safes
    ensures forall s :: s in kb.knowledge ==> 0 <= s.count <= |s.cells|
  {
    forall s | s in kb.knowledge ensures 0 <= s.count <= |s.cells| {
      HoldsBounds(w, s);
    }
  }
}
