/** The chunk list of SimpleBestFitAllocator as a value: a sequence of extents measured in
    32-byte units.  The searching, splitting and merging the allocator does on its linked
    nodes is described here on sequences, and the laws of the allocator are proved here. */
module Extents {
  import opened Arithmetic

  datatype Option<+T> = None | Some(value: T)

  /** One chunk_t: its first unit, its length in units, and whether it is free. */
  datatype Extent = Extent(start: nat, size: nat, free: bool) {
    function End(): nat { start + size }
  }

  // ---------- The invariant ----------

  ghost predicate Follows(c: seq<Extent>, i: nat)
    requires 0 < i < |c|
  {
    c[i - 1].End() == c[i].start
  }

  ghost predicate Apart(c: seq<Extent>, i: nat)
    requires 0 < i < |c|
  {
    !(c[i - 1].free && c[i].free)
  }

  /** Non-empty chunks that follow each other without gap or overlap from unit `from` to `to`. */
  ghost predicate Tiles(c: seq<Extent>, from: nat, to: nat) {
    && |c| > 0
    && c[0].start == from
    && c[|c| - 1].End() == to
    && (forall i :: 0 <= i < |c| ==> c[i].size > 0)
    && (forall i :: 0 < i < |c| ==> Follows(c, i))
  }

  /** No two free chunks are neighbours. */
  ghost predicate Coalesced(c: seq<Extent>) {
    forall i :: 0 < i < |c| ==> Apart(c, i)
  }

  ghost predicate PageAligned(c: seq<Extent>, page: nat)
    requires page > 0
  {
    forall i :: 0 <= i < |c| && !c[i].free ==> c[i].start % page == 0
  }

  ghost predicate Sound(c: seq<Extent>, from: nat, to: nat, page: nat)
    requires page > 0
  {
    Tiles(c, from, to) && Coalesced(c) && PageAligned(c, page)
  }

  /** What every reachable chunk list of a heap of `total` units satisfies. */
  ghost predicate WellFormed(c: seq<Extent>, total: nat, page: nat)
    requires page > 0
  {
    Sound(c, 0, total, page)
  }

  /** Chunks i..j of c may be replaced by a sound stretch that covers the same units and does
      not put two free chunks side by side at its ends. */
  lemma Splice(c: seq<Extent>, total: nat, i: nat, j: nat, mid: seq<Extent>, page: nat)
    requires page > 0 && WellFormed(c, total, page) && i < j <= |c|
    requires Sound(mid, c[i].start, c[j - 1].End(), page)
    requires i > 0 ==> !(c[i - 1].free && mid[0].free)
    requires j < |c| ==> !(mid[|mid| - 1].free && c[j].free)
    ensures WellFormed(c[..i] + mid + c[j..], total, page)
  {
    var r := c[..i] + mid + c[j..];
    var m := i + |mid|;
    forall k | 0 < k < |r|
      ensures Follows(r, k) && Apart(r, k)
    {
      if k < i {
        assert Follows(c, k) && Apart(c, k);
      } else if k == i {
        assert Follows(c, i);
      } else if k < m {
        assert Follows(mid, k - i) && Apart(mid, k - i);
      } else if k == m {
        assert Follows(c, j);
      } else {
        assert Follows(c, k - m + j) && Apart(c, k - m + j);
      }
    }
  }

  /** What Tiles and Coalesced say about the neighbours of chunk i. */
  lemma Neighbours(c: seq<Extent>, from: nat, to: nat, i: nat)
    requires Tiles(c, from, to) && Coalesced(c) && i < |c|
    ensures i > 0 ==> c[i - 1].End() == c[i].start && !(c[i - 1].free && c[i].free)
    ensures i + 1 < |c| ==> c[i].End() == c[i + 1].start && !(c[i].free && c[i + 1].free)
  {
    assert i > 0 ==> Follows(c, i) && Apart(c, i);
    assert i + 1 < |c| ==> Follows(c, i + 1) && Apart(c, i + 1);
  }

  lemma {:induction false} OrderedBefore(c: seq<Extent>, total: nat, i: nat, j: nat)
    requires Tiles(c, 0, total) && i < j < |c|
    ensures c[i].End() <= c[j].start
    decreases j
  {
    assert Follows(c, j);
    if i + 1 < j {
      OrderedBefore(c, total, i, j - 1);
    }
  }

  lemma {:induction false} LaterEnds(c: seq<Extent>, total: nat, j: nat)
    requires Tiles(c, 0, total) && j < |c|
    ensures c[j].End() <= total
    decreases |c| - j
  {
    if j + 1 < |c| {
      assert Follows(c, j + 1);
      LaterEnds(c, total, j + 1);
    }
  }

  /** Live chunks never share a unit, and each starts on a page. */
  lemma LiveDisjoint(c: seq<Extent>, total: nat, page: nat, i: nat, j: nat)
    requires page > 0 && WellFormed(c, total, page)
    requires i < |c| && j < |c| && i != j && !c[i].free && !c[j].free
    ensures c[i].End() <= c[j].start || c[j].End() <= c[i].start
    ensures c[i].start % page == 0 && c[i].End() <= total
  {
    OrderedBefore(c, total, if i < j then i else j, if i < j then j else i);
    LaterEnds(c, total, i);
  }

  // ---------- Choosing a chunk ----------

  /** Units of padding that bring `start` up to the next page boundary. */
  function Extra(start: nat, page: nat): (r: nat)
    requires page > 0
    ensures r < page && (start + r) % page == 0
    ensures forall a: nat :: a >= start && a % page == 0 ==> a >= start + r
  {
    var r := (-(start as int)) % page;
    PaddingReachesPage(start, page, r);
    r
  }

  lemma PaddingReachesPage(start: nat, page: nat, r: nat)
    requires page > 0 && r == (-(start as int)) % page
    ensures r < page && (start + r) % page == 0
    ensures forall a: nat :: a >= start && a % page == 0 ==> a >= start + r
  {
    var q := (-(start as int)) / page;
    assert -(start as int) == page * q + r;
    assert start + r == page * (-q);
    Remainder(start + r, page, -q, 0);
    forall a: nat | a >= start && a % page == 0
      ensures a >= start + r
    {
      var b := a / page;
      assert a == page * b;
      if a < start + r {
        assert page * b < page * (-q);
        if b >= -q { TimesMonotone(-q, b, page); }
        TimesMonotone(b, -q - 1, page);
      }
    }
  }

  predicate Fits(e: Extent, units: nat, page: nat)
    requires page > 0
  {
    e.free && e.size >= units + Extra(e.start, page)
  }

  /** Chunk i fits, no fitting chunk is smaller, and it comes first among equals. */
  ghost predicate IsBestFit(c: seq<Extent>, i: nat, units: nat, page: nat)
    requires page > 0
  {
    && i < |c|
    && Fits(c[i], units, page)
    && forall j :: 0 <= j < |c| && Fits(c[j], units, page) ==>
         c[i].size <= c[j].size && (c[i].size == c[j].size ==> i <= j)
  }

  ghost predicate NoneFits(c: seq<Extent>, units: nat, page: nat)
    requires page > 0
  {
    forall j :: 0 <= j < |c| ==> !Fits(c[j], units, page)
  }

  function BestFit(c: seq<Extent>, units: nat, page: nat): (r: Option<nat>)
    requires page > 0
    ensures r.Some? ==> IsBestFit(c, r.value, units, page)
    ensures r.None? ==> NoneFits(c, units, page)
  {
    if c == [] then None else
      var n := |c| - 1;
      var r := BestFit(c[..n], units, page);
      if Fits(c[n], units, page) && (r.None? || c[n].size < c[r.value].size) then Some(n) else r
  }

  // ---------- The unit-level meaning of failure ----------

  ghost predicate UnitFree(c: seq<Extent>, u: nat) {
    exists k :: 0 <= k < |c| && c[k].free && c[k].start <= u < c[k].End()
  }

  /** A page-aligned run of `units` consecutive free units starts at a. */
  ghost predicate AlignedRun(c: seq<Extent>, a: nat, units: nat, page: nat)
    requires page > 0
  {
    a % page == 0 && forall u :: a <= u < a + units ==> UnitFree(c, u)
  }

  lemma FitGivesRun(c: seq<Extent>, i: nat, units: nat, page: nat)
    requires page > 0 && i < |c| && Fits(c[i], units, page)
    ensures AlignedRun(c, c[i].start + Extra(c[i].start, page), units, page)
  {
  }

  /** A run of free units cannot leave the chunk it starts in: the next chunk is not free. */
  lemma {:induction false} RunStaysInChunk(c: seq<Extent>, total: nat, k: nat, a: nat, units: nat)
    requires Tiles(c, 0, total) && Coalesced(c)
    requires k < |c| && c[k].free && c[k].start <= a < c[k].End()
    requires forall u :: a <= u < a + units ==> UnitFree(c, u)
    ensures a + units <= c[k].End()
  {
    var e := c[k].End();
    if e < a + units {
      Neighbours(c, 0, total, k);
      assert UnitFree(c, e);
      var m :| 0 <= m < |c| && c[m].free && c[m].start <= e < c[m].End();
      if m < k {
        OrderedBefore(c, total, m, k);
      } else if m > k + 1 {
        OrderedBefore(c, total, k + 1, m);
      }
    }
  }

  /** The per-chunk search of alloc misses nothing: some chunk fits exactly when some
      page-aligned run of free units of that length exists anywhere in the heap. */
  lemma SearchIsComplete(c: seq<Extent>, total: nat, units: nat, page: nat)
    requires page > 0 && units > 0 && Tiles(c, 0, total) && Coalesced(c)
    ensures BestFit(c, units, page).None? <==> !exists a: nat :: AlignedRun(c, a, units, page)
  {
    match BestFit(c, units, page)
    case Some(i) =>
      FitGivesRun(c, i, units, page);
    case None =>
      if a: nat :| AlignedRun(c, a, units, page) {
        assert UnitFree(c, a);
        var k :| 0 <= k < |c| && c[k].free && c[k].start <= a < c[k].End();
        RunStaysInChunk(c, total, k, a, units);
        assert Fits(c[k], units, page);
      }
  }

  // ---------- Carving an allocation out of a chunk ----------

  function Piece(start: nat, size: nat): (r: seq<Extent>) {
    if size > 0 then [Extent(start, size, true)] else []
  }

  /** How many chunks of padding come before an allocation carved at `start`. */
  function Padded(start: nat, page: nat): nat
    requires page > 0
  {
    if Extra(start, page) > 0 then 1 else 0
  }

  /** A free chunk cut into its padding, the allocation, and what is left behind it. */
  function Cut(e: Extent, units: nat, page: nat): (r: seq<Extent>)
    requires page > 0 && Fits(e, units, page)
    ensures units > 0 ==> Sound(r, e.start, e.End(), page)
    ensures var p := Padded(e.start, page);
            && p < |r| <= p + 2 && r[p] == Extent(e.start + Extra(e.start, page), units, false)
            && (forall k :: 0 <= k < |r| && k != p ==> r[k].free)
  {
    var extra := Extra(e.start, page);
    var at := e.start + extra;
    Piece(e.start, extra) + [Extent(at, units, false)] + Piece(at + units, e.size - extra - units)
  }

  function Carve(c: seq<Extent>, i: nat, units: nat, page: nat): seq<Extent>
    requires page > 0 && i < |c| && Fits(c[i], units, page)
  {
    c[..i] + Cut(c[i], units, page) + c[i + 1..]
  }

  lemma CarveKeepsWellFormed(c: seq<Extent>, total: nat, i: nat, units: nat, page: nat)
    requires page > 0 && units > 0 && WellFormed(c, total, page)
    requires i < |c| && Fits(c[i], units, page)
    ensures WellFormed(Carve(c, i, units, page), total, page)
  {
    Neighbours(c, 0, total, i);
    Splice(c, total, i, i + 1, Cut(c[i], units, page), page);
  }

  // ---------- Releasing a chunk ----------

  /** The merge loop of dealloc at position j: fold chunk j into a free (or for an empty
      chunk, any) left neighbour, then go on to the next chunk while that one is free. */
  function MergeFrom(c: seq<Extent>, j: nat): seq<Extent>
    requires j < |c|
    decreases |c| - j
  {
    var merges := j > 0 && (c[j - 1].free || c[j].size == 0);
    var c' := if merges then FoldLeft(c, j) else c;
    var next := if merges then j else j + 1;
    if next < |c'| && c'[next].free then MergeFrom(c', next) else c'
  }

  /** Chunk j added to chunk j-1. */
  function FoldLeft(c: seq<Extent>, j: nat): seq<Extent>
    requires 0 < j < |c|
  {
    c[..j - 1] + [c[j - 1].(size := c[j - 1].size + c[j].size)] + c[j + 1..]
  }

  /** What dealloc makes of the list when it finds chunk i. */
  function Release(c: seq<Extent>, i: nat): seq<Extent>
    requires i < |c|
  {
    MergeFrom(c[i := c[i].(free := true)], i)
  }

  /** First and one-past-last of the chunks that freeing chunk i turns into one. */
  function Lo(c: seq<Extent>, i: nat): (r: nat)
    requires i < |c|
    ensures r <= i
  {
    if i > 0 && c[i - 1].free then i - 1 else i
  }

  function Hi(c: seq<Extent>, i: nat): (r: nat)
    requires i < |c|
    ensures i < r <= |c|
  {
    if i + 1 < |c| && c[i + 1].free then i + 2 else i + 1
  }

  function Whole(c: seq<Extent>, i: nat): Extent
    requires i < |c|
  {
    var left := if Lo(c, i) < i then c[i - 1].size else 0;
    var right := if Hi(c, i) > i + 1 then c[i + 1].size else 0;
    Extent(c[Lo(c, i)].start, left + c[i].size + right, true)
  }

  function Joined(c: seq<Extent>, i: nat): seq<Extent>
    requires i < |c|
  {
    c[..Lo(c, i)] + [Whole(c, i)] + c[Hi(c, i)..]
  }

  /** One round of the merge loop: whether it folds or not, the next chunk it looks at is j+1. */
  lemma MergeOnce(c: seq<Extent>, j: nat)
    requires j < |c|
    ensures var folds := j > 0 && (c[j - 1].free || c[j].size == 0);
            var c' := if folds then FoldLeft(c, j) else c;
            var next := if folds then j else j + 1;
            MergeFrom(c, j) == if j + 1 < |c| && c[j + 1].free then MergeFrom(c', next) else c'
  {
    if j > 0 {
      assert j + 1 < |c| ==> FoldLeft(c, j)[j] == c[j + 1];
    }
  }

  /** On a coalesced list the merge loop joins the chunk with its free neighbours, no more. */
  lemma ReleaseJoins(c: seq<Extent>, total: nat, i: nat)
    requires Tiles(c, 0, total) && Coalesced(c) && i < |c|
    ensures Release(c, i) == Joined(c, i)
  {
    var c0 := c[i := c[i].(free := true)];
    var left := Lo(c, i) < i;
    var c1 := if left then FoldLeft(c0, i) else c0;
    var next := if left then i else i + 1;
    assert c[i].size > 0;
    MergeOnce(c0, i);
    if Hi(c, i) == i + 2 {
      Neighbours(c, 0, total, i + 1);
      assert c1[next] == c[i + 1] && c1[next - 1].free;
      assert next + 1 < |c1| ==> c1[next + 1] == c[i + 2];
      MergeOnce(c1, next);
      FoldedTwice(c, i);
    } else {
      assert c1 == c[..Lo(c, i)] + [Whole(c, i)] + c[Hi(c, i)..];
    }
  }

  lemma FoldedTwice(c: seq<Extent>, i: nat)
    requires i < |c| && Hi(c, i) == i + 2
    ensures var c0 := c[i := c[i].(free := true)];
            var left := Lo(c, i) < i;
            var c1 := if left then FoldLeft(c0, i) else c0;
            FoldLeft(c1, if left then i else i + 1) == c[..Lo(c, i)] + [Whole(c, i)] + c[Hi(c, i)..]
  {
  }

  lemma JoinedIsWellFormed(c: seq<Extent>, total: nat, i: nat, page: nat)
    requires page > 0 && WellFormed(c, total, page) && i < |c|
    ensures WellFormed(Joined(c, i), total, page)
  {
    var lo, hi := Lo(c, i), Hi(c, i);
    Neighbours(c, 0, total, i);
    Neighbours(c, 0, total, lo);
    Neighbours(c, 0, total, hi - 1);
    Splice(c, total, lo, hi, [Whole(c, i)], page);
  }

  lemma ReleaseKeepsWellFormed(c: seq<Extent>, total: nat, i: nat, page: nat)
    requires page > 0 && WellFormed(c, total, page) && i < |c|
    ensures WellFormed(Release(c, i), total, page)
  {
    ReleaseJoins(c, total, i);
    JoinedIsWellFormed(c, total, i, page);
  }

  /** Freeing a chunk that is free already changes nothing. */
  lemma ReleaseFreeIsNoop(c: seq<Extent>, total: nat, i: nat)
    requires Tiles(c, 0, total) && Coalesced(c) && i < |c| && c[i].free
    ensures Release(c, i) == c
  {
    Neighbours(c, 0, total, i);
    ReleaseJoins(c, total, i);
  }

  /** dealloc of the allocation just carved restores the list exactly. */
  lemma RoundTrip(c: seq<Extent>, total: nat, i: nat, units: nat, page: nat)
    requires page > 0 && units > 0 && WellFormed(c, total, page)
    requires i < |c| && Fits(c[i], units, page)
    ensures Release(Carve(c, i, units, page), i + Padded(c[i].start, page)) == c
  {
    CarvedJoins(c, total, i, units, page);
    CarveKeepsWellFormed(c, total, i, units, page);
    ReleaseJoins(Carve(c, i, units, page), total, i + Padded(c[i].start, page));
  }

  /** The merge loop at an empty chunk drops it, whatever its left neighbour is. */
  lemma MergeEmpty(d: seq<Extent>, k: nat, d1: seq<Extent>)
    requires 0 < k < |d| && d[k].size == 0 && d1 == d[..k] + d[k + 1..]
    ensures MergeFrom(d, k) == if k < |d1| && d1[k].free then MergeFrom(d1, k) else d1
  {
    assert FoldLeft(d, k) == d1;
    MergeOnce(d, k);
  }

  /** The merge loop at a chunk with no free chunk after it. */
  lemma MergeLast(d: seq<Extent>, k: nat)
    requires k < |d| && d[k].size > 0 && (k + 1 < |d| ==> !d[k + 1].free)
    ensures MergeFrom(d, k) == if k > 0 && d[k - 1].free then FoldLeft(d, k) else d
  {
    MergeOnce(d, k);
  }

  /** Chunk i cut into a free part of `extra` units and a free rest. */
  function Halves(c: seq<Extent>, i: nat, extra: nat): seq<Extent>
    requires i < |c| && extra <= c[i].size
  {
    c[..i] + Piece(c[i].start, extra) + Piece(c[i].start + extra, c[i].size - extra) + c[i + 1..]
  }

  lemma HalvesMend(c: seq<Extent>, i: nat, extra: nat)
    requires i < |c| && extra <= c[i].size && c[i].free && c[i].size > 0
    ensures var d := Halves(c, i, extra);
            if extra == 0 || extra == c[i].size then d == c
            else
              && i + 1 < |d| && d[i] == Extent(c[i].start, extra, true)
              && d[i + 1] == Extent(c[i].start + extra, c[i].size - extra, true)
              && d[i + 2..] == c[i + 1..] && FoldLeft(d, i + 1) == c
  {
    assert c == c[..i] + [c[i]] + c[i + 1..];
  }

  /** Carving nothing puts an empty chunk between the two parts. */
  lemma CarvedEmpty(c: seq<Extent>, i: nat, page: nat)
    requires page > 0 && i < |c| && Fits(c[i], 0, page)
    ensures var d, k, h := Carve(c, i, 0, page), i + Padded(c[i].start, page), Halves(c, i, Extra(c[i].start, page));
            k < |d| && d[k] == Extent(c[i].start + Extra(c[i].start, page), 0, false) && d[..k] + d[k + 1..] == h
  {
  }

  /** The same for an empty allocation, which dealloc folds into its left neighbour even if that
      one is not free. */
  lemma EmptyRoundTrip(c: seq<Extent>, total: nat, i: nat, page: nat)
    requires page > 0 && WellFormed(c, total, page) && i < |c| && Fits(c[i], 0, page)
    ensures Release(Carve(c, i, 0, page), i + Padded(c[i].start, page)) == c
  {
    var extra, k, d := Extra(c[i].start, page), i + Padded(c[i].start, page), Carve(c, i, 0, page);
    CarvedEmpty(c, i, page);
    HalvesMend(c, i, extra);
    Neighbours(c, 0, total, i);
    var d0 := d[k := d[k].(free := true)];
    if k > 0 { EmptyInside(c, i, extra, d0, k); } else { EmptyInFront(c, d0); }
  }

  lemma EmptyInside(c: seq<Extent>, i: nat, extra: nat, d: seq<Extent>, k: nat)
    requires i < |c| && extra <= c[i].size && c[i].free && c[i].size > 0
    requires (i > 0 ==> !c[i - 1].free) && (i + 1 < |c| ==> !c[i + 1].free)
    requires 0 < k < |d| && d[k].size == 0 && k == (if extra > 0 then i + 1 else i)
    requires d[..k] + d[k + 1..] == Halves(c, i, extra)
    ensures MergeFrom(d, k) == c
  {
    var h := Halves(c, i, extra);
    HalvesMend(c, i, extra);
    MergeEmpty(d, k, h);
    if extra < c[i].size {
      assert k + 1 < |h| ==> h[k + 1] == c[i + 1];
      MergeLast(h, k);
    }
  }

  lemma EmptyInFront(c: seq<Extent>, d: seq<Extent>)
    requires |c| > 0 && c[0].free && c[0].size > 0 && (1 < |c| ==> !c[1].free)
    requires |d| == |c| + 1 && d[0] == Extent(c[0].start, 0, true) && d[1..] == c
    ensures MergeFrom(d, 0) == c
  {
    assert d[1] == c[0] && (2 < |d| ==> d[2] == c[1]);
    assert FoldLeft(d, 1) == c by { assert d[2..] == c[1..]; }
    MergeOnce(d, 0);
    MergeLast(d, 1);
  }

  lemma CarvedJoins(c: seq<Extent>, total: nat, i: nat, units: nat, page: nat)
    requires page > 0 && units > 0 && WellFormed(c, total, page)
    requires i < |c| && Fits(c[i], units, page)
    ensures |Carve(c, i, units, page)| > i + Padded(c[i].start, page)
    ensures Joined(Carve(c, i, units, page), i + Padded(c[i].start, page)) == c
  {
    Neighbours(c, 0, total, i);
    CutSumsUp(c[i], units, page);
    JoinInMiddle(c, Carve(c, i, units, page), i, Cut(c[i], units, page), Padded(c[i].start, page));
  }

  /** Joining chunk p of a stretch of which all others are free, between live neighbours, joins
      exactly that stretch. */
  lemma JoinInMiddle(c: seq<Extent>, d: seq<Extent>, i: nat, mid: seq<Extent>, p: nat)
    requires i < |c| && c[i].free && p <= 1 && p < |mid| <= p + 2
    requires (i > 0 ==> !c[i - 1].free) && (i + 1 < |c| ==> !c[i + 1].free)
    requires forall k :: 0 <= k < |mid| && k != p ==> mid[k].free
    requires mid[0].start == c[i].start && StretchSize(mid, p) == c[i].size
    requires d == c[..i] + mid + c[i + 1..]
    ensures Joined(d, i + p) == c
  {
    assert d[i] == mid[0] && (i + 1 < |c| ==> d[i + |mid|] == c[i + 1]);
    assert Lo(d, i + p) == i && Hi(d, i + p) == i + |mid|;
    assert d[..i] == c[..i] && d[i + |mid|..] == c[i + 1..];
    assert Whole(d, i + p) == c[i];
  }

  function StretchSize(mid: seq<Extent>, p: nat): nat
    requires p < |mid|
  {
    (if p == 1 then mid[0].size else 0) + mid[p].size + (if p + 1 < |mid| then mid[p + 1].size else 0)
  }

  lemma CutSumsUp(e: Extent, units: nat, page: nat)
    requires page > 0 && units > 0 && Fits(e, units, page)
    ensures var r, p := Cut(e, units, page), Padded(e.start, page);
            r[0].start == e.start && StretchSize(r, p) == e.size
  {
  }
}
