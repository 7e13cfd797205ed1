/**
 * The Minesweeper AI's knowledge base as values: sentences ("exactly `count`
 * of `cells` are mines"), the known-safe and known-mine sets, and the three
 * stages of `add_knowledge` (intake of an observation, the fixed-point
 * propagation loop, one subset-inference pass).  The imperative classes in
 * module MinesweeperAi are proved to compute exactly these functions.
 */
module Knowledge {

  type Cell = (int, int)

  /** A sentence; equality of values is the source's structural `__eq__`. */
  datatype Sentence = Sentence(cells: set<Cell>, count: int)

  /** The AI's state: grid size, moves made, known mines and safes, and the ordered knowledge list. */
  datatype KB = KB(height: int, width: int,
                   movesMade: set<Cell>, mines: set<Cell>, safes: set<Cell>,
                   knowledge: seq<Sentence>)

  function Init(height: int, width: int): (kb: KB)
    ensures kb.movesMade == kb.mines == kb.safes == {} && kb.knowledge == []
    ensures kb.height == height && kb.width == width
  {
    KB(height, width, {}, {}, {}, [])
  }

  // ---------------------------------------------------------------------
  // Sentences

  /** `known_mines`: all cells when as many mines as cells are claimed (and the count is not 0). */
  function KnownMines(s: Sentence): (r: set<Cell>)
    ensures r <= s.cells
    ensures |s.cells| == s.count && s.count != 0 ==> r == s.cells
    ensures !(|s.cells| == s.count && s.count != 0) ==> r == {}
  {
    if |s.cells| == s.count && s.count != 0 then s.cells else {}
  }

  /** `known_safes`: all cells when the count is 0. */
  function KnownSafes(s: Sentence): (r: set<Cell>)
    ensures r <= s.cells
    ensures s.count == 0 ==> r == s.cells
    ensures s.count != 0 ==> r == {}
  {
    if s.count == 0 then s.cells else {}
  }

  /** The sentence after every cell of `m` has become a known mine. */
  function SentenceMarkMines(s: Sentence, m: set<Cell>): Sentence
  {
    Sentence(s.cells - m, s.count - |s.cells * m|)
  }

  /** The sentence after every cell of `m` has become known safe. */
  function SentenceMarkSafes(s: Sentence, m: set<Cell>): Sentence
  {
    Sentence(s.cells - m, s.count)
  }

  /** `Sentence.mark_mine`: a member cell is removed and the count drops by one; otherwise no change. */
  function SentenceMarkMine(s: Sentence, c: Cell): (r: Sentence)
    ensures c in s.cells ==> r == Sentence(s.cells - {c}, s.count - 1)
    ensures c !in s.cells ==> r == s
  {
    assert c in s.cells ==> s.cells * {c} == {c};
    assert c !in s.cells ==> s.cells * {c} == {} && s.cells - {c} == s.cells;
    SentenceMarkMines(s, {c})
  }

  /** `Sentence.mark_safe`: a member cell is removed and the count is kept; otherwise no change. */
  function SentenceMarkSafe(s: Sentence, c: Cell): (r: Sentence)
    ensures c in s.cells ==> r == Sentence(s.cells - {c}, s.count)
    ensures c !in s.cells ==> r == s
  {
    assert c !in s.cells ==> s.cells - {c} == s.cells;
    SentenceMarkSafes(s, {c})
  }

  /** Marking the same cell twice is marking it once. */
  lemma MarkTwice(s: Sentence, c: Cell)
    ensures SentenceMarkMine(SentenceMarkMine(s, c), c) == SentenceMarkMine(s, c)
    ensures SentenceMarkSafe(SentenceMarkSafe(s, c), c) == SentenceMarkSafe(s, c)
  {
  }
  /**
   * Marking the cells of `m` takes exactly those cells out of the sentence; as
   * mines they lower the count by one each, as safe cells they leave it.
   */
  lemma MarksRemove(s: Sentence, m: set<Cell>)
    ensures var r := SentenceMarkMines(s, m);
      r.cells <= s.cells && r.cells !! m && s.cells == r.cells + s.cells * m &&
      r.count + |s.cells - r.cells| == s.count
    ensures var r := SentenceMarkSafes(s, m);
      r.cells <= s.cells && r.cells !! m && s.cells == r.cells + s.cells * m && r.count == s.count
  {
    assert s.cells - (s.cells - m) == s.cells * m;
  }


  /** Apply `f` to every sentence of a list. */
  function MapSeq(ks: seq<Sentence>, f: Sentence -> Sentence): (r: seq<Sentence>)
    ensures |r| == |ks|
    ensures forall i :: 0 <= i < |ks| ==> r[i] == f(ks[i])
  {
    seq(|ks|, i requires 0 <= i < |ks| => f(ks[i]))
  }

  /** Every sentence of a list after the cells of `m` have become known mines. */
  function ListMarkMines(ks: seq<Sentence>, m: set<Cell>): (r: seq<Sentence>)
    ensures |r| == |ks|
    ensures forall i :: 0 <= i < |ks| ==> r[i] == SentenceMarkMines(ks[i], m)
  {
    MapSeq(ks, s => SentenceMarkMines(s, m))
  }

  /** Every sentence of a list after the cells of `m` have become known safe. */
  function ListMarkSafes(ks: seq<Sentence>, m: set<Cell>): (r: seq<Sentence>)
    ensures |r| == |ks|
    ensures forall i :: 0 <= i < |ks| ==> r[i] == SentenceMarkSafes(ks[i], m)
  {
    MapSeq(ks, s => SentenceMarkSafes(s, m))
  }

  // ---------------------------------------------------------------------
  // Marking cells in the whole knowledge base

  /**
   * Every cell of `m` becomes a known mine and each sentence has them marked
   * (see MarksRemove), so no sentence keeps any of them; nothing else changes.
   */
  function MarkMines(kb: KB, m: set<Cell>): (r: KB)
    ensures r.mines == kb.mines + m
    ensures |r.knowledge| == |kb.knowledge|
    ensures forall s :: s in r.knowledge ==> s.cells !! m
    ensures forall i :: 0 <= i < |kb.knowledge| ==> r.knowledge[i] == SentenceMarkMines(kb.knowledge[i], m)
    ensures r == kb.(mines := r.mines, knowledge := r.knowledge)
  {
    kb.(mines := kb.mines + m, knowledge := ListMarkMines(kb.knowledge, m))
  }

  /**
   * Every cell of `m` becomes known safe and each sentence has them marked
   * (see MarksRemove), so no sentence keeps any of them; nothing else changes.
   */
  function MarkSafes(kb: KB, m: set<Cell>): (r: KB)
    ensures r.safes == kb.safes + m
    ensures |r.knowledge| == |kb.knowledge|
    ensures forall s :: s in r.knowledge ==> s.cells !! m
    ensures forall i :: 0 <= i < |kb.knowledge| ==> r.knowledge[i] == SentenceMarkSafes(kb.knowledge[i], m)
    ensures r == kb.(safes := r.safes, knowledge := r.knowledge)
  {
    kb.(safes := kb.safes + m, knowledge := ListMarkSafes(kb.knowledge, m))
  }

  /** `MinesweeperAI.mark_mine`: record the mine and mark it in every sentence; nothing else changes. */
  function MarkMine(kb: KB, c: Cell): (r: KB)
    ensures r.mines == kb.mines + {c}
    ensures |r.knowledge| == |kb.knowledge|
    ensures forall i :: 0 <= i < |kb.knowledge| ==> r.knowledge[i] == SentenceMarkMine(kb.knowledge[i], c)
    ensures r == kb.(mines := r.mines, knowledge := r.knowledge)
  {
    MarkMines(kb, {c})
  }

  /** `MinesweeperAI.mark_safe`: record the safe cell and mark it in every sentence; nothing else changes. */
  function MarkSafe(kb: KB, c: Cell): (r: KB)
    ensures r.safes == kb.safes + {c}
    ensures |r.knowledge| == |kb.knowledge|
    ensures forall i :: 0 <= i < |kb.knowledge| ==> r.knowledge[i] == SentenceMarkSafe(kb.knowledge[i], c)
    ensures r == kb.(safes := r.safes, knowledge := r.knowledge)
  {
    MarkSafes(kb, {c})
  }

  // ---------------------------------------------------------------------
  // Step 3 of add_knowledge: the sentence built from an observation

  /** The in-bounds cells of the 3x3 block centred on `cell` (including `cell` itself when in bounds). */
  function Block(height: int, width: int, cell: Cell): set<Cell>
  {
    set i, j | cell.0 - 1 <= i <= cell.0 + 1 && 0 <= i < height &&
               cell.1 - 1 <= j <= cell.1 + 1 && 0 <= j < width :: (i, j)
  }

  /** Neighbours of `cell` that are neither probed nor known: the cells of the new sentence. */
  function UnknownNeighbours(kb: KB, cell: Cell): set<Cell>
  {
    set n | n in Block(kb.height, kb.width, cell) && n != cell && n !in kb.movesMade &&
            n !in kb.mines && n !in kb.safes
  }

  /** Unprobed neighbours of `cell` already known to be mines: each lowers the new sentence's count. */
  function MineNeighbours(kb: KB, cell: Cell): set<Cell>
  {
    set n | n in Block(kb.height, kb.width, cell) && n != cell && n !in kb.movesMade && n in kb.mines
  }

  /** Steps 1-3 of `add_knowledge`: record the move, mark it safe, append the new sentence when it has cells. */
  function Intake(kb: KB, cell: Cell, count: int): (r: KB)
    ensures r.height == kb.height && r.width == kb.width
    ensures r.movesMade == kb.movesMade + {cell} && r.safes == kb.safes + {cell} && r.mines == kb.mines
    ensures |kb.knowledge| <= |r.knowledge| <= |kb.knowledge| + 1
    ensures forall s :: s in r.knowledge ==> cell !in s.cells
  {
    var kb1 := MarkSafe(kb.(movesMade := kb.movesMade + {cell}), cell);
    var cells := UnknownNeighbours(kb1, cell);
    if cells != {} then
      kb1.(knowledge := kb1.knowledge + [Sentence(cells, count - |MineNeighbours(kb1, cell)|)])
    else
      kb1
  }

  // ---------------------------------------------------------------------
  // Step 4: the propagation loop

  /** The index of the first element equal to `v`. */
  function FirstIndex(ks: seq<Sentence>, v: Sentence): (r: nat)
    requires v in ks
    ensures r < |ks| && ks[r] == v
    ensures forall p :: 0 <= p < r ==> ks[p] != v
  {
    if ks[0] == v then 0 else 1 + FirstIndex(ks[1..], v)
  }

  /** `list.remove`: drop the first element equal to `v` (the source raises when there is none). */
  function RemoveFirst(ks: seq<Sentence>, v: Sentence): (r: seq<Sentence>)
    requires v in ks
    ensures |r| == |ks| - 1
    ensures multiset(r) == multiset(ks) - multiset{v}
    ensures forall x :: x in r ==> x in ks
    ensures var i := FirstIndex(ks, v); r == ks[..i] + ks[i+1..]
  {
    var i := FirstIndex(ks, v);
    assert ks == ks[..i] + [v] + ks[i+1..];
    ks[..i] + ks[i+1..]
  }

  /**
   * The marks made for the first sentence of `rest` (its known mines, then the
   * known safes computed before them).  `rest` holds the current values of
   * the snapshot's unprocessed sentences: the snapshot shares its objects with
   * the knowledge list, so every mark reaches them as well.
   */
  function Resolve(kb: KB, rest: seq<Sentence>): (r: (KB, seq<Sentence>))
    requires rest != [] && multiset(rest) <= multiset(kb.knowledge)
    ensures multiset(r.1) <= multiset(r.0.knowledge)
    ensures |r.1| == |rest| && |r.0.knowledge| == |kb.knowledge|
    ensures KnownMines(rest[0]) != {} || KnownSafes(rest[0]) != {} ==> r.1[0].cells == {}
    ensures KnownMines(rest[0]) == {} && KnownSafes(rest[0]) == {} ==> r == (kb, rest)
    ensures r.0.height == kb.height && r.0.width == kb.width && r.0.movesMade == kb.movesMade
    ensures kb.mines <= r.0.mines && kb.safes <= r.0.safes
  {
    var v := rest[0];
    var km := KnownMines(v);
    var ks := KnownSafes(v);
    var fm := s => SentenceMarkMines(s, km);
    var fs := s => SentenceMarkSafes(s, ks);
    var kb1 := if km != {} then MarkMines(kb, km) else kb;
    var rest1 := if km != {} then ListMarkMines(rest, km) else rest;
    MapPreservesSubMultiset(rest, kb.knowledge, fm);
    var kb2 := if ks != {} then MarkSafes(kb1, ks) else kb1;
    var rest2 := if ks != {} then ListMarkSafes(rest1, ks) else rest1;
    MapPreservesSubMultiset(rest1, kb1.knowledge, fs);
    assert km != {} ==> rest1[0].cells == {};
    (kb2, rest2)
  }

  /**
   * One iteration of the `for sentence in self.knowledge.copy()` loop: the
   * marks, then `knowledge.remove(sentence)` when its cells are now empty.
   * Returns the new state, the rest of the snapshot and whether marks were made.
   */
  function Step(kb: KB, rest: seq<Sentence>): (r: (KB, seq<Sentence>, bool))
    requires rest != [] && multiset(rest) <= multiset(kb.knowledge)
    ensures multiset(r.1) <= multiset(r.0.knowledge)
    ensures |r.1| == |rest| - 1
    ensures |r.0.knowledge| <= |kb.knowledge|
    ensures r.2 ==> |r.0.knowledge| < |kb.knowledge|
    ensures r.0.height == kb.height && r.0.width == kb.width && r.0.movesMade == kb.movesMade
    ensures kb.mines <= r.0.mines && kb.safes <= r.0.safes
  {
    var rs := Resolve(kb, rest);
    var kb2 := rs.0;
    var head := rs.1[0];
    var updated := KnownMines(rest[0]) != {} || KnownSafes(rest[0]) != {};
    RemovingHead(rs.1, kb2.knowledge);
    var kb3 := if head.cells == {} then kb2.(knowledge := RemoveFirst(kb2.knowledge, head)) else kb2;
    (kb3, rs.1[1..], updated)
  }

  /** The rest of one pass over the snapshot; `updated` records whether any step produced marks. */
  function Pass(kb: KB, rest: seq<Sentence>, updated: bool): (r: (KB, bool))
    requires multiset(rest) <= multiset(kb.knowledge)
    ensures |r.0.knowledge| <= |kb.knowledge|
    ensures r.1 && !updated ==> |r.0.knowledge| < |kb.knowledge|
    ensures updated ==> r.1
    ensures r.0.height == kb.height && r.0.width == kb.width && r.0.movesMade == kb.movesMade
    ensures kb.mines <= r.0.mines && kb.safes <= r.0.safes
    decreases |rest|
  {
    if rest == [] then (kb, updated)
    else
      var st := Step(kb, rest);
      Pass(st.0, st.1, updated || st.2)
  }

  /** A sentence that no pass can act on: the ones the propagation loop leaves behind. */
  predicate Settled(s: Sentence)
  {
    s.cells != {} && s.count != 0 && |s.cells| != s.count
  }

  /** The `while True` loop: repeat passes until one makes no marks. */
  function Propagate(kb: KB): (r: KB)
    ensures |r.knowledge| <= |kb.knowledge|
    ensures r.height == kb.height && r.width == kb.width && r.movesMade == kb.movesMade
    ensures kb.mines <= r.mines && kb.safes <= r.safes
    ensures forall s :: s in r.knowledge ==> Settled(s)
    decreases |kb.knowledge|
  {
    var p := Pass(kb, kb.knowledge, false);
    if p.1 then
      Propagate(p.0)
    else
      QuietPassSettles(kb, kb.knowledge, false);
      p.0
  }

  // ---------------------------------------------------------------------
  // Step 5: subset inference

  /** The sentence inferred from `s1` and `s2` when `s1.cells` is a subset of `s2.cells`. */
  function Derive(s1: Sentence, s2: Sentence): (r: Sentence)
    ensures s1.cells <= s2.cells ==>
      r.cells !! s1.cells && r.cells + s1.cells == s2.cells && r.count + s1.count == s2.count
  {
    Sentence(s2.cells - s1.cells, s2.count - s1.count)
  }

  /** The pair (ks[i], ks[j]) triggers inference. */
  predicate Derivable(ks: seq<Sentence>, i: int, j: int)
  {
    0 <= i < |ks| && 0 <= j < |ks| && ks[i] != ks[j] && ks[i].cells <= ks[j].cells
  }

  /**
   * The nested loops over `sentence1` (index i) and `sentence2` (index j),
   * from pair (i, j) onward, with `acc` the inferred sentences so far.
   */
  function InferFrom(ks: seq<Sentence>, i: nat, j: nat, acc: seq<Sentence>): seq<Sentence>
    requires i <= |ks| && j <= |ks|
    decreases |ks| - i, |ks| - j
  {
    if i == |ks| then acc
    else if j == |ks| then InferFrom(ks, i + 1, 0, acc)
    else
      var d := Derive(ks[i], ks[j]);
      var acc' := if Derivable(ks, i, j) && d !in ks && d !in acc then acc + [d] else acc;
      InferFrom(ks, i, j + 1, acc')
  }

  /** The sentences the subset pass appends to `ks`: at most one for each ordered pair of sentences. */
  function Infer(ks: seq<Sentence>): (r: seq<Sentence>)
    ensures |r| <= |ks| * |ks|
  {
    if ks == [] then [] else InferFromBound(ks, 0, 0, []); InferFrom(ks, 0, 0, [])
  }

  /** From pair (i, j) onward the loops append at most one sentence per pair still to visit. */
  lemma {:induction false} InferFromBound(ks: seq<Sentence>, i: nat, j: nat, acc: seq<Sentence>)
    requires i < |ks| && j <= |ks|
    ensures |InferFrom(ks, i, j, acc)| + j <= |acc| + (|ks| - i) * |ks|
    decreases |ks| - i, |ks| - j
  {
    if j == |ks| {
      assert (|ks| - i) * |ks| == (|ks| - (i + 1)) * |ks| + |ks|;
      if i + 1 < |ks| {
        InferFromBound(ks, i + 1, 0, acc);
      } else {
        assert InferFrom(ks, i + 1, 0, acc) == acc;
      }
    } else {
      var d := Derive(ks[i], ks[j]);
      var acc' := if Derivable(ks, i, j) && d !in ks && d !in acc then acc + [d] else acc;
      InferFromBound(ks, i, j + 1, acc');
    }
  }

  /** `add_knowledge(cell, count)`: intake, propagation to a fixed point, then one subset pass. */
  function AddKnowledge(kb: KB, cell: Cell, count: int): (r: KB)
    ensures r.height == kb.height && r.width == kb.width
    ensures r.movesMade == kb.movesMade + {cell}
    ensures cell in r.safes && kb.safes <= r.safes && kb.mines <= r.mines
  {
    var kb2 := Propagate(Intake(kb, cell, count));
    kb2.(knowledge := kb2.knowledge + Infer(kb2.knowledge))
  }

  // ---------------------------------------------------------------------
  // Lemmas the definitions above rely on

  /** Dropping the head of a sub-multiset, and one copy of it from the whole, keeps the inclusion. */
  lemma RemovingHead(rest: seq<Sentence>, ks: seq<Sentence>)
    requires rest != [] && multiset(rest) <= multiset(ks)
    ensures rest[0] in ks
    ensures multiset(rest[1..]) <= multiset(ks) - multiset{rest[0]}
    ensures multiset(rest[1..]) <= multiset(ks)
  {
    assert rest == [rest[0]] + rest[1..];
    assert rest[0] in multiset(rest);
  }

  /** Removing the element at index k takes one copy of it out of the multiset. */
  lemma MultisetDropAt(b: seq<Sentence>, k: int)
    requires 0 <= k < |b|
    ensures multiset(b) == multiset(b[..k] + b[k+1..]) + multiset{b[k]}
  {
    assert b == b[..k] + [b[k]] + b[k+1..];
  }

  /** Mapping the list without its k-th element loses one copy of the k-th image. */
  lemma MapDropAt(b: seq<Sentence>, k: int, f: Sentence -> Sentence)
    requires 0 <= k < |b|
    ensures multiset(MapSeq(b, f)) == multiset(MapSeq(b[..k] + b[k+1..], f)) + multiset{f(b[k])}
  {
    var mb := MapSeq(b, f);
    assert MapSeq(b[..k] + b[k+1..], f) == mb[..k] + mb[k+1..];
    MultisetDropAt(mb, k);
  }

  lemma SubMultisetCancel(p: multiset<Sentence>, q: multiset<Sentence>, x: Sentence)
    requires p + multiset{x} <= q + multiset{x}
    ensures p <= q
  {
    forall y ensures p[y] <= q[y] {
      assert (p + multiset{x})[y] <= (q + multiset{x})[y];
    }
  }

  lemma SubMultisetAdd(p: multiset<Sentence>, q: multiset<Sentence>, x: Sentence)
    requires p <= q
    ensures p + multiset{x} <= q + multiset{x}
  {
  }

  /** Mapping the same function over a sub-multiset gives a sub-multiset. */
  lemma {:induction false} MapPreservesSubMultiset(a: seq<Sentence>, b: seq<Sentence>, f: Sentence -> Sentence)
    requires multiset(a) <= multiset(b)
    ensures multiset(MapSeq(a, f)) <= multiset(MapSeq(b, f))
    decreases |a|
  {
    if a != [] {
      var x := a[0];
      assert a == [x] + a[1..];
      assert x in multiset(b);
      var k :| 0 <= k < |b| && b[k] == x;
      var b' := b[..k] + b[k+1..];
      MultisetDropAt(b, k);
      assert multiset(a) == multiset(a[1..]) + multiset{x};
      SubMultisetCancel(multiset(a[1..]), multiset(b'), x);
      MapPreservesSubMultiset(a[1..], b', f);
      MapDropAt(b, k, f);
      MapDropAt(a, 0, f);
      assert a[..0] + a[0+1..] == a[1..];
      SubMultisetAdd(multiset(MapSeq(a[1..], f)), multiset(MapSeq(b', f)), f(x));
    }
  }

  /**
   * A pass that makes no marks leaves only settled sentences: every unsettled
   * sentence still in the list has a copy ahead in the snapshot, and processing
   * it removes one copy.
   */
  lemma {:induction false} QuietPassSettles(kb: KB, rest: seq<Sentence>, updated: bool)
    requires multiset(rest) <= multiset(kb.knowledge)
    requires forall s :: s in kb.knowledge && !Settled(s) ==> multiset(kb.knowledge)[s] <= multiset(rest)[s]
    ensures !Pass(kb, rest, updated).1 ==> forall s :: s in Pass(kb, rest, updated).0.knowledge ==> Settled(s)
    decreases |rest|
  {
    if rest == [] {
      forall s | s in kb.knowledge ensures Settled(s) {
        assert multiset(kb.knowledge)[s] > 0;
      }
    } else {
      var st := Step(kb, rest);
      if !st.2 {
        QuietStep(kb, rest);
        QuietPassSettles(st.0, st.1, updated);
      }
    }
  }

  /**
   * A step that makes no marks keeps the bookkeeping of QuietPassSettles: the
   * head is either removed from both lists (no cells) or settled.
   */
  lemma QuietStep(kb: KB, rest: seq<Sentence>)
    requires rest != [] && multiset(rest) <= multiset(kb.knowledge)
    requires forall s :: s in kb.knowledge && !Settled(s) ==> multiset(kb.knowledge)[s] <= multiset(rest)[s]
    requires !Step(kb, rest).2
    ensures var st := Step(kb, rest);
      forall s :: s in st.0.knowledge && !Settled(s) ==> multiset(st.0.knowledge)[s] <= multiset(st.1)[s]
  {
    var st := Step(kb, rest);
    var v := rest[0];
    assert Resolve(kb, rest) == (kb, rest);
    assert st.1 == rest[1..];
    assert rest == [v] + rest[1..];
    assert multiset(rest[1..]) == multiset(rest) - multiset{v};
    if v.cells == {} {
      assert st.0.knowledge == RemoveFirst(kb.knowledge, v);
      CountsAfterDrop(kb.knowledge, st.0.knowledge, rest, st.1, v);
    } else {
      assert st.0 == kb;
      CountsAfterSettled(kb.knowledge, rest, st.1, v);
    }
  }

  /** Taking one copy of `v` out of both lists keeps every unsettled count covered. */
  lemma CountsAfterDrop(ks: seq<Sentence>, ks2: seq<Sentence>, rest: seq<Sentence>, rest2: seq<Sentence>, v: Sentence)
    requires multiset(ks2) == multiset(ks) - multiset{v}
    requires multiset(rest2) == multiset(rest) - multiset{v}
    requires v in rest
    requires forall s :: s in ks && !Settled(s) ==> multiset(ks)[s] <= multiset(rest)[s]
    ensures forall s :: s in ks2 && !Settled(s) ==> multiset(ks2)[s] <= multiset(rest2)[s]
  {
    forall s | s in ks2 && !Settled(s) ensures multiset(ks2)[s] <= multiset(rest2)[s] {
      assert s in multiset(ks2);
      assert s in ks;
    }
  }

  /** Taking a settled sentence out of the snapshot changes no unsettled count. */
  lemma CountsAfterSettled(ks: seq<Sentence>, rest: seq<Sentence>, rest2: seq<Sentence>, v: Sentence)
    requires Settled(v)
    requires multiset(rest2) == multiset(rest) - multiset{v}
    requires forall s :: s in ks && !Settled(s) ==> multiset(ks)[s] <= multiset(rest)[s]
    ensures forall s :: s in ks && !Settled(s) ==> multiset(ks)[s] <= multiset(rest2)[s]
  {
  }
}
