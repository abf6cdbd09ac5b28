/**
 * Integer arithmetic of the record shelf: which records a page shows
 * (`collection.slice(...)` in VinylCollection) and where each shown record
 * sits on the shelf (the column and row offsets in Vinyl).
 */
module Layout {

  /** `vinylsPerPage`: records shown on one page of the shelf. */
  const PerPage: nat := 7

  /** Columns of the shelf grid: a record's column is its window index modulo 4. */
  const Columns: nat := 4

  function Min(a: int, b: int): int {
    if a <= b then a else b
  }

  /** Highest page index the Next control admits: `Math.floor(collection.length / vinylsPerPage)`. */
  function LastPage(n: nat): nat {
    n / PerPage
  }

  /**
   * How `Array.prototype.slice` turns an integer argument into a position of
   * an array of length `len`: a negative argument counts back from the end,
   * and the result is clamped to `0..len`.
   */
  function Clamp(i: int, len: nat): (k: nat)
    ensures k <= len
    ensures 0 <= i <= len ==> k == i
    ensures i > len ==> k == len
    ensures -(len as int) <= i < 0 ==> k == len + i
    ensures i < -(len as int) ==> k == 0
  {
    if i < 0 then (if len + i < 0 then 0 else len + i) else Min(i, len)
  }

  /** `xs.slice(start, end)` for integer arguments. */
  function Slice<T>(xs: seq<T>, start: int, end: int): (r: seq<T>)
    ensures |r| <= |xs|
    ensures Clamp(start, |xs|) <= Clamp(end, |xs|) ==>
              |r| == Clamp(end, |xs|) - Clamp(start, |xs|)
    ensures Clamp(start, |xs|) > Clamp(end, |xs|) ==> r == []
    ensures forall k :: 0 <= k < |r| ==> r[k] == xs[Clamp(start, |xs|) + k]
  {
    var from, to := Clamp(start, |xs|), Clamp(end, |xs|);
    if from < to then xs[from..to] else []
  }

  /** First collection position the page window covers (`page * vinylsPerPage`). */
  function WindowStart(page: int): int {
    page * PerPage
  }

  /** End of the page window: `Math.min((page + 1) * vinylsPerPage, collection.length)`. */
  function WindowEnd(page: int, n: nat): int {
    Min((page + 1) * PerPage, n)
  }

  /** The records the shelf renders for `page` (CollectionPage.jsx line 305). */
  function Shown<T>(xs: seq<T>, page: int): seq<T> {
    Slice(xs, WindowStart(page), WindowEnd(page, |xs|))
  }

  /**
   * The record at collection position `id` is rendered, and so has a mounted
   * Vinyl with a live mesh ref, exactly when the slice for `page` takes it.
   */
  predicate Shows(n: nat, page: int, id: nat) {
    Clamp(WindowStart(page), n) <= id < Clamp(WindowEnd(page, n), n)
  }

  lemma StartWithinBound(n: nat, page: int)
    requires 0 <= page <= LastPage(n)
    ensures 0 <= WindowStart(page) <= n
  {
    assert page * PerPage <= (n / PerPage) * PerPage <= n;
  }

  /**
   * Within the page bound the slice is the plain window
   * `[page * 7, min((page + 1) * 7, n))`: its ends satisfy
   * `0 <= start <= end <= n`, it holds at most seven records, and a position
   * is shown exactly when it lies inside it.
   */
  lemma ShownWindow<T>(xs: seq<T>, page: int)
    requires 0 <= page <= LastPage(|xs|)
    ensures 0 <= WindowStart(page) <= WindowEnd(page, |xs|) <= |xs|
    ensures WindowEnd(page, |xs|) - WindowStart(page) <= PerPage
    ensures Shown(xs, page) == xs[WindowStart(page)..WindowEnd(page, |xs|)]
    ensures forall id: nat :: Shows(|xs|, page, id) <==>
              WindowStart(page) <= id < WindowEnd(page, |xs|)
  {
    StartWithinBound(|xs|, page);
    var from, to := WindowStart(page), WindowEnd(page, |xs|);
    assert Clamp(from, |xs|) == from && Clamp(to, |xs|) == to;
  }

  /**
   * Every page up to the bound shows seven records except the last, which
   * shows the `n % 7` left over; so when `n` is a positive multiple of seven
   * the Next control admits a final page that is empty.
   */
  lemma PageSizes<T>(xs: seq<T>, page: int)
    requires 0 <= page <= LastPage(|xs|)
    ensures page < LastPage(|xs|) ==> |Shown(xs, page)| == PerPage
    ensures page == LastPage(|xs|) ==> |Shown(xs, page)| == |xs| % PerPage
  {
    ShownWindow(xs, page);
    var n := |xs|;
    assert n == LastPage(n) * PerPage + n % PerPage;
    if page < LastPage(n) {
      assert (page + 1) * PerPage <= LastPage(n) * PerPage <= n;
    } else {
      assert (page + 1) * PerPage == LastPage(n) * PerPage + PerPage > n;
    }
  }

  /**
   * Every record is reachable by paging: the record at position `i` is shown
   * on page `i / 7`, which the page bound admits, at window index `i % 7` —
   * and on no other page that is not negative.
   */
  lemma {:induction false} EveryRecordOnOnePage<T>(xs: seq<T>, i: nat, page: int)
    requires i < |xs|
    ensures 0 <= i / PerPage <= LastPage(|xs|)
    ensures Shows(|xs|, i / PerPage, i)
    ensures i % PerPage < |Shown(xs, i / PerPage)| && Shown(xs, i / PerPage)[i % PerPage] == xs[i]
    ensures 0 <= page && Shows(|xs|, page, i) ==> page == i / PerPage
  {
    var p := i / PerPage;
    assert i == p * PerPage + i % PerPage;
    assert p * PerPage <= i < (p + 1) * PerPage;
    assert p <= LastPage(|xs|) by {
      assert p * PerPage <= |xs|;
    }
    ShownWindow(xs, p);
    if 0 <= page && Shows(|xs|, page, i) {
      assert page <= LastPage(|xs|);
      ShownWindow(xs, page);
      assert page * PerPage <= i < (page + 1) * PerPage;
    }
  }

  /** `columnOffset = idx % 4`. */
  function Column(idx: nat): nat {
    idx % Columns
  }

  /** `rowOffset = Math.floor(idx / 4)`. */
  function Row(idx: nat): nat {
    idx / Columns
  }

  /**
   * A record at window index `idx < 7` sits in column 0..3 of row 0..1, and
   * its slot gives its index back, so two records of one page never share a
   * slot.
   */
  lemma SlotOf(idx: nat, other: nat)
    requires idx < PerPage && other < PerPage
    ensures Column(idx) < Columns && Row(idx) < 2
    ensures idx == Row(idx) * Columns + Column(idx)
    ensures (Column(idx), Row(idx)) == (Column(other), Row(other)) ==> idx == other
  {
  }

  const SepScale: real := 0.2
  const TopOfShelf: real := 0.56
  const NextShelf: real := 0.37
  const ShelfStart: real := -0.3

  /** `homePos`: the resting position of the record at window index `idx`. */
  function HomePosition(idx: nat): (real, real, real) {
    (ShelfStart + Column(idx) as real * SepScale, TopOfShelf - Row(idx) as real * NextShelf, 0.0)
  }

  /** Distinct window indices rest at distinct shelf positions. */
  lemma HomePositionsDistinct(i: nat, j: nat)
    requires i < PerPage && j < PerPage && i != j
    ensures HomePosition(i) != HomePosition(j)
  {
    SlotOf(i, j);
  }
}
