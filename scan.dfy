/**
 * Row-major scans over a rectangle of grid cells: the part of a set that a
 * nested `for i ... for j ...` loop has reached, and how it grows.
 */
module Scan {

  /** The cells of `s` that a row-major scan reaches before (i, j). */
  ghost function Upto(s: set<(int, int)>, i: int, j: int): set<(int, int)>
  {
    set n | n in s && (n.0 < i || (n.0 == i && n.1 < j))
  }

  /** Every cell of `s` lies in rows [r0, r1) and columns [c0, c1). */
  ghost predicate Within(s: set<(int, int)>, r0: int, r1: int, c0: int, c1: int)
  {
    forall n :: n in s ==> r0 <= n.0 < r1 && c0 <= n.1 < c1
  }

  lemma UptoStart(s: set<(int, int)>, r0: int, r1: int, c0: int, c1: int)
    requires Within(s, r0, r1, c0, c1)
    ensures Upto(s, r0, c0) == {}
  {
  }

  /** A scan reaching a member of `s` adds exactly that cell. */
  lemma UptoAdd(s: set<(int, int)>, i: int, j: int)
    requires (i, j) in s
    ensures Upto(s, i, j + 1) == Upto(s, i, j) + {(i, j)}
    ensures |Upto(s, i, j + 1)| == |Upto(s, i, j)| + 1
  {
    assert (i, j) !in Upto(s, i, j);
  }

  /** A scan reaching a cell outside `s` adds nothing. */
  lemma UptoSkip(s: set<(int, int)>, i: int, j: int)
    requires (i, j) !in s
    ensures Upto(s, i, j + 1) == Upto(s, i, j)
  {
  }

  lemma UptoRow(s: set<(int, int)>, i: int, j: int, r0: int, r1: int, c0: int, c1: int)
    requires Within(s, r0, r1, c0, c1) && c1 <= j
    ensures Upto(s, i, j) == Upto(s, i + 1, c0)
  {
  }

  lemma UptoEnd(s: set<(int, int)>, i: int, r0: int, r1: int, c0: int, c1: int)
    requires Within(s, r0, r1, c0, c1) && r1 <= i
    ensures Upto(s, i, c0) == s
  {
  }
}
