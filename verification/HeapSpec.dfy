/** The operations of SimpleBestFitAllocator on chunk lists as values, in bytes, and the laws
    that hold over whole runs of them. */
module HeapSpec {
  import opened Arithmetic
  import opened Extents

  /** kMemoryAlign: one unit is 32 bytes. */
  const UNIT: nat := 32

  function Units(size: nat): nat { (size + UNIT - 1) / UNIT }

  /** The same rounding in size_t arithmetic. */
  function WrappedUnits(size: nat): nat { (size + UNIT - 1) % WORD / UNIT }

  predicate Wraps(size: nat) { size + UNIT - 1 >= WORD }

  /** alloc rounds a size_t up correctly exactly when the addition does not wrap; above that
      every request becomes a request for nothing. */
  lemma RoundingIsExact(size: nat)
    requires size < WORD
    ensures WrappedUnits(size) == Units(size) <==> !Wraps(size)
    ensures Wraps(size) ==> WrappedUnits(size) == 0
    ensures size > 0 ==> Units(size) > 0 && UNIT * (Units(size) - 1) < size <= UNIT * Units(size)
  {
  }

  // ---------- alloc ----------

  datatype Grant = Granted(offset: uint32) | OutOfMemory

  /** alloc once the size is in units, and not 0: the new list and the byte offset, a size_t, or no
      change. */
  function AllocUnits(c: seq<Extent>, units: nat, page: nat): (seq<Extent>, Grant)
    requires page > 0
  {
    match BestFit(c, units, page)
    case None => (c, OutOfMemory)
    case Some(i) =>
      (Carve(c, i, units, page), Granted(UNIT * (c[i].start + Extra(c[i].start, page)) % WORD))
  }

  /** alloc; a request for 0 bytes is granted at offset 0 without a chunk. */
  function Alloc(c: seq<Extent>, size: nat, page: nat): (seq<Extent>, Grant)
    requires page > 0
  {
    if size == 0 then (c, Granted(0)) else AllocUnits(c, WrappedUnits(size), page)
  }

  const ENOMEM: int := 12

  /** A size_t as a ssize_t. */
  function Signed(offset: uint32): int { if offset < SIGN then offset else offset - WORD }

  /** The result of alloc: an offset of 2^31 or more comes out negative, as an error does. */
  function Returned(g: Grant): int {
    match g
    case Granted(offset) => Signed(offset)
    case OutOfMemory => -ENOMEM
  }

  /** A grant whose offset the caller cannot tell from an error by its sign. */
  predicate Lost(g: Grant) { g.Granted? && g.offset >= SIGN }

  lemma ByteOffset(at: nat, total: nat)
    requires at <= total && UNIT * total < WORD
    ensures UNIT * at % WORD == UNIT * at
  {
  }

  /** Whatever the size, the offset granted is that of the chunk and in the heap, or for an empty
      chunk perhaps at its end. */
  lemma GrantInHeap(c: seq<Extent>, total: nat, i: nat, units: nat, page: nat)
    requires page > 0 && UNIT * total < WORD && WellFormed(c, total, page) && BestFit(c, units, page) == Some(i)
    ensures var at := c[i].start + Extra(c[i].start, page);
            && UNIT * at < WORD && at + units <= total
            && AllocUnits(c, units, page) == (Carve(c, i, units, page), Granted(UNIT * at))
  {
    LaterEnds(c, total, i);
    ByteOffset(c[i].start + Extra(c[i].start, page), total);
  }

  /** In a heap of at most 2^31 bytes no grant is lost, one of 2^31 bytes and a size that wraps
      excepted: an empty chunk may stand at the end of the heap. */
  lemma SmallHeapLosesNothing(c: seq<Extent>, total: nat, size: nat, page: nat)
    requires page > 0 && WellFormed(c, total, page) && UNIT * total <= SIGN
    requires Wraps(size) ==> UNIT * total < SIGN
    ensures !Lost(Alloc(c, size, page).1)
  {
    if size > 0 {
      match BestFit(c, WrappedUnits(size), page) {
        case None =>
        case Some(i) => GrantInHeap(c, total, i, WrappedUnits(size), page);
      }
    }
  }

  // ---------- dealloc ----------

  /** The first chunk at unit s. */
  function Find(c: seq<Extent>, s: nat): (r: Option<nat>)
    ensures r.Some? ==> r.value < |c| && c[r.value].start == s
    ensures r.None? ==> forall i :: 0 <= i < |c| ==> c[i].start != s
  {
    if c == [] then None
    else if c[0].start == s then Some(0)
    else
      match Find(c[1..], s)
      case None => None
      case Some(i) => Some(i + 1)
  }

  function Dealloc(c: seq<Extent>, offset: nat): seq<Extent> {
    match Find(c, offset / UNIT)
    case None => c
    case Some(i) => Release(c, i)
  }

  // ---------- Live allocations ----------

  ghost function Live(c: seq<Extent>): set<Extent> {
    set i | 0 <= i < |c| && !c[i].free :: c[i]
  }

  lemma SameStartSameChunk(c: seq<Extent>, total: nat, i: nat, j: nat)
    requires Tiles(c, 0, total) && i < |c| && j < |c| && c[i].start == c[j].start
    ensures i == j
  {
    if i < j { OrderedBefore(c, total, i, j); }
    if j < i { OrderedBefore(c, total, j, i); }
  }

  lemma LiveOfConcat(a: seq<Extent>, b: seq<Extent>)
    ensures Live(a + b) == Live(a) + Live(b)
  {
    forall e | e in Live(a) + Live(b)
      ensures e in Live(a + b)
    {
      if e in Live(a) {
        var i :| 0 <= i < |a| && !a[i].free && a[i] == e;
        assert (a + b)[i] == e;
      } else {
        var i :| 0 <= i < |b| && !b[i].free && b[i] == e;
        assert (a + b)[|a| + i] == e;
      }
    }
  }

  lemma LiveAround(c: seq<Extent>, lo: nat, hi: nat)
    requires lo <= hi <= |c|
    ensures Live(c) == Live(c[..lo]) + Live(c[lo..hi]) + Live(c[hi..])
  {
    assert c == c[..lo] + c[lo..hi] + c[hi..];
    LiveOfConcat(c[..lo] + c[lo..hi], c[hi..]);
    LiveOfConcat(c[..lo], c[lo..hi]);
  }

  lemma LiveOfSplice(pre: seq<Extent>, mid: seq<Extent>, post: seq<Extent>)
    ensures Live(pre + mid + post) == Live(pre) + Live(mid) + Live(post)
  {
    LiveOfConcat(pre + mid, post);
    LiveOfConcat(pre, mid);
  }

  /** A grant adds exactly one live chunk, big enough, page-aligned, and clear of all others. */
  lemma AllocGrants(c: seq<Extent>, total: nat, size: nat, page: nat)
    requires page > 0 && UNIT * total < WORD && 0 < size && !Wraps(size) && WellFormed(c, total, page)
    ensures var (c', g) := Alloc(c, size, page);
            && WellFormed(c', total, page)
            && match g
               case OutOfMemory =>
                 c' == c && !exists a: nat :: AlignedRun(c, a, Units(size), page)
               case Granted(offset) =>
                 var e := Extent(offset / UNIT, Units(size), false);
                 && offset % (UNIT * page) == 0 && offset + size <= UNIT * total
                 && Live(c') == Live(c) + {e}
                 && (forall f :: f in Live(c) ==> e.End() <= f.start || f.End() <= e.start)
  {
    RoundingIsExact(size);
    SearchIsComplete(c, total, Units(size), page);
    match BestFit(c, Units(size), page)
    case None =>
    case Some(i) =>
      CarveKeepsWellFormed(c, total, i, Units(size), page);
      CarvedChunk(c, total, i, Units(size), page);
      GrantInHeap(c, total, i, Units(size), page);
      PageOffset(c[i].start + Extra(c[i].start, page), page);
  }

  /** A request that wraps is granted, as an empty chunk, whenever some free chunk reaches a page
      boundary, and then the list is no longer well formed. */
  lemma WrappedRequest(c: seq<Extent>, total: nat, size: nat, page: nat)
    requires page > 0 && size < WORD && Wraps(size) && WellFormed(c, total, page)
    ensures var (c', g) := Alloc(c, size, page);
            && (g.OutOfMemory? <==> BestFit(c, 0, page).None?)
            && (g.OutOfMemory? ==> c' == c)
            && (WellFormed(c', total, page) <==> g.OutOfMemory?)
  {
    RoundingIsExact(size);
    match BestFit(c, 0, page)
    case None =>
    case Some(i) =>
      var k := i + Padded(c[i].start, page);
      assert Carve(c, i, 0, page)[k] == Cut(c[i], 0, page)[Padded(c[i].start, page)];
  }

  /** A list of one free chunk that starts on a page grants an empty chunk in front of it. */
  lemma WrappedOnFresh(total: nat, size: nat, page: nat)
    requires page > 0 && total > 0 && size < WORD && Wraps(size)
    ensures var c' := [Extent(0, 0, false), Extent(0, total, true)];
            Alloc([Extent(0, total, true)], size, page) == (c', Granted(0)) && !WellFormed(c', total, page)
  {
    var e := Extent(0, total, true);
    assert Extra(0, page) == 0;
    assert BestFit([e], 0, page) == Some(0);
    assert Carve([e], 0, 0, page) == Cut(e, 0, page) == [Extent(0, 0, false), e];
    RoundingIsExact(size);
    WrappedRequest([e], total, size, page);
  }

  /** One request for the largest size_t, on a fresh heap of 8 MiB with pages of 4096 bytes. */
  lemma WrappedExample()
    ensures var c' := [Extent(0, 0, false), Extent(0, 262144, true)];
            Alloc([Extent(0, 262144, true)], 0xFFFF_FFFF, 128) == (c', Granted(0)) && !WellFormed(c', 262144, 128)
  {
    WrappedOnFresh(262144, 0xFFFF_FFFF, 128);
  }

  /** alloc keeps the list well formed exactly if it does not grant a request that wraps. */
  lemma AllocKeepsWellFormed(c: seq<Extent>, total: nat, size: nat, page: nat)
    requires page > 0 && size < WORD && WellFormed(c, total, page)
    ensures WellFormed(Alloc(c, size, page).0, total, page) <==> !(Wraps(size) && Alloc(c, size, page).1.Granted?)
  {
    if size == 0 {
    } else if Wraps(size) {
      WrappedRequest(c, total, size, page);
    } else {
      RoundingIsExact(size);
      match BestFit(c, WrappedUnits(size), page) {
        case None =>
        case Some(i) => CarveKeepsWellFormed(c, total, i, WrappedUnits(size), page);
      }
    }
  }

  lemma PageOffset(at: nat, page: nat)
    requires page > 0 && at % page == 0
    ensures (UNIT * at) % (UNIT * page) == 0
  {
    var k := at / page;
    assert at == page * k;
    assert UNIT * at == (UNIT * page) * k;
    Remainder(UNIT * at, UNIT * page, k, 0);
  }

  lemma CarvedChunk(c: seq<Extent>, total: nat, i: nat, units: nat, page: nat)
    requires page > 0 && units > 0 && WellFormed(c, total, page)
    requires i < |c| && Fits(c[i], units, page)
    ensures var e := Extent(c[i].start + Extra(c[i].start, page), units, false);
            && Live(Carve(c, i, units, page)) == Live(c) + {e}
            && (forall f :: f in Live(c) ==> e.End() <= f.start || f.End() <= e.start)
  {
    var cut := Cut(c[i], units, page);
    var e := Extent(c[i].start + Extra(c[i].start, page), units, false);
    LiveOfSplice(c[..i], cut, c[i + 1..]);
    LiveAround(c, i, i + 1);
    assert Live(c[i..i + 1]) == {};
    assert Live(cut) == {e} by { assert cut[Padded(c[i].start, page)] == e; }
    forall f | f in Live(c)
      ensures e.End() <= f.start || f.End() <= e.start
    {
      var j :| 0 <= j < |c| && !c[j].free && c[j] == f;
      if j < i { OrderedBefore(c, total, j, i); } else { OrderedBefore(c, total, i, j); }
    }
  }

  /** dealloc of a live chunk's offset makes that chunk no longer live and touches no other;
      dealloc of any other offset changes nothing at all. */
  lemma DeallocReleases(c: seq<Extent>, total: nat, offset: nat, page: nat)
    requires page > 0 && WellFormed(c, total, page)
    ensures WellFormed(Dealloc(c, offset), total, page)
    ensures Live(Dealloc(c, offset)) == set e | e in Live(c) && e.start != offset / UNIT
    ensures (forall e :: e in Live(c) ==> e.start != offset / UNIT) ==> Dealloc(c, offset) == c
  {
    match Find(c, offset / UNIT)
    case None =>
    case Some(i) =>
      ReleaseKeepsWellFormed(c, total, i, page);
      if c[i].free {
        ReleaseFreeIsNoop(c, total, i);
        forall e | e in Live(c)
          ensures e.start != offset / UNIT
        {
          var j :| 0 <= j < |c| && !c[j].free && c[j] == e;
          if e.start == offset / UNIT { SameStartSameChunk(c, total, i, j); }
        }
      } else {
        LiveAfterRelease(c, total, i);
        assert c[i] in Live(c);
      }
  }

  lemma LiveAfterRelease(c: seq<Extent>, total: nat, i: nat)
    requires Tiles(c, 0, total) && Coalesced(c) && i < |c| && !c[i].free
    ensures Live(Release(c, i)) == set e | e in Live(c) && e.start != c[i].start
  {
    var lo, hi := Lo(c, i), Hi(c, i);
    ReleaseJoins(c, total, i);
    LiveOfSplice(c[..lo], [Whole(c, i)], c[hi..]);
    LiveAround(c, lo, hi);
    assert Live([Whole(c, i)]) == {};
    LiveAmongJoined(c, i);
    LiveElsewhere(c, total, i);
  }

  lemma LiveAmongJoined(c: seq<Extent>, i: nat)
    requires i < |c| && !c[i].free
    ensures Live(c[Lo(c, i)..Hi(c, i)]) == {c[i]}
  {
    assert c[Lo(c, i)..Hi(c, i)][i - Lo(c, i)] == c[i];
  }

  lemma LiveElsewhere(c: seq<Extent>, total: nat, i: nat)
    requires Tiles(c, 0, total) && i < |c|
    ensures forall e :: e in Live(c[..Lo(c, i)]) || e in Live(c[Hi(c, i)..]) ==> e.start != c[i].start
  {
    var lo, hi := Lo(c, i), Hi(c, i);
    forall e | e in Live(c[..lo])
      ensures e.start != c[i].start
    {
      var j :| 0 <= j < lo && c[j] == e;
      OrderedBefore(c, total, j, i);
    }
    forall e | e in Live(c[hi..])
      ensures e.start != c[i].start
    {
      var j :| 0 <= j < |c| - hi && c[hi..][j] == e;
      OrderedBefore(c, total, i, hi + j);
    }
  }

  // ---------- Whole runs ----------

  lemma {:induction false} FindIsFirst(c: seq<Extent>, s: nat, k: nat)
    requires k < |c| && c[k].start == s
    requires forall j :: 0 <= j < k ==> c[j].start != s
    ensures Find(c, s) == Some(k)
  {
    if k > 0 { FindIsFirst(c[1..], s, k - 1); }
  }

  /** The chunk carved is the first at its unit, also if it is empty. */
  lemma CarvedIsFound(c: seq<Extent>, total: nat, i: nat, units: nat, page: nat)
    requires page > 0 && Tiles(c, 0, total) && i < |c| && Fits(c[i], units, page)
    ensures Find(Carve(c, i, units, page), c[i].start + Extra(c[i].start, page)) ==
            Some(i + Padded(c[i].start, page))
  {
    var d, k := Carve(c, i, units, page), i + Padded(c[i].start, page);
    forall j | 0 <= j < i
      ensures c[j].start < c[i].start
    {
      OrderedBefore(c, total, j, i);
    }
    assert d[k] == Cut(c[i], units, page)[Padded(c[i].start, page)];
    assert forall j :: 0 <= j < i ==> d[j] == c[j];
    FindIsFirst(d, d[k].start, k);
  }

  /** dealloc right after a successful alloc gives back exactly the list there was before, also
      if the request wrapped. */
  lemma AllocThenDealloc(c: seq<Extent>, total: nat, size: nat, page: nat)
    requires page > 0 && UNIT * total < WORD && 0 < size && WellFormed(c, total, page)
    requires Alloc(c, size, page).1.Granted?
    ensures Dealloc(Alloc(c, size, page).0, Alloc(c, size, page).1.offset) == c
  {
    var i, units := BestFit(c, WrappedUnits(size), page).value, WrappedUnits(size);
    GrantInHeap(c, total, i, units, page);
    CarveThenDealloc(c, total, i, units, page);
  }

  lemma CarveThenDealloc(c: seq<Extent>, total: nat, i: nat, units: nat, page: nat)
    requires page > 0 && WellFormed(c, total, page) && i < |c| && Fits(c[i], units, page)
    ensures Dealloc(Carve(c, i, units, page), UNIT * (c[i].start + Extra(c[i].start, page))) == c
  {
    var d, s, k := Carve(c, i, units, page), c[i].start + Extra(c[i].start, page), i + Padded(c[i].start, page);
    assert Find(d, s) == Some(k) by { CarvedIsFound(c, total, i, units, page); }
    assert k < |d| && Release(d, k) == c by {
      if units > 0 { RoundTrip(c, total, i, units, page); } else { EmptyRoundTrip(c, total, i, page); }
    }
    DeallocFound(d, s, k);
  }

  lemma DeallocFound(d: seq<Extent>, s: nat, k: nat)
    requires k < |d| && Find(d, s) == Some(k)
    ensures Dealloc(d, UNIT * s) == Release(d, k)
  {
  }

  lemma LiveOrFree(c: seq<Extent>)
    ensures forall i :: 0 <= i < |c| ==> c[i].free || c[i] in Live(c)
  {
  }

  function DeallocAll(c: seq<Extent>, offsets: seq<nat>): seq<Extent>
    decreases |offsets|
  {
    if offsets == [] then c else DeallocAll(Dealloc(c, offsets[0]), offsets[1..])
  }

  ghost predicate Listed(offsets: seq<nat>, start: nat) {
    exists k :: 0 <= k < |offsets| && offsets[k] / UNIT == start
  }

  /** Freeing every live allocation, in any order whatever and even with stray or repeated
      offsets in between, leaves one free chunk that covers the heap. */
  lemma {:induction false} FreeingAllRestoresHeap(c: seq<Extent>, offsets: seq<nat>, total: nat, page: nat)
    requires page > 0 && WellFormed(c, total, page)
    requires forall e :: e in Live(c) ==> Listed(offsets, e.start)
    ensures DeallocAll(c, offsets) == [Extent(0, total, true)]
    decreases |offsets|
  {
    if offsets == [] {
      Neighbours(c, 0, total, 0);
      LiveOrFree(c);
    } else {
      DeallocReleases(c, total, offsets[0], page);
      forall e | e in Live(Dealloc(c, offsets[0]))
        ensures Listed(offsets[1..], e.start)
      {
        assert Listed(offsets, e.start);
        var k :| 0 <= k < |offsets| && offsets[k] / UNIT == e.start;
        assert offsets[1..][k - 1] == offsets[k];
      }
      FreeingAllRestoresHeap(Dealloc(c, offsets[0]), offsets[1..], total, page);
    }
  }

  datatype Request = Allocate(size: nat) | Deallocate(offset: nat)

  function Serve(c: seq<Extent>, r: Request, page: nat): seq<Extent>
    requires page > 0
  {
    match r
    case Allocate(size) => Alloc(c, size, page).0
    case Deallocate(offset) => Dealloc(c, offset)
  }

  function ServeAll(c: seq<Extent>, rs: seq<Request>, page: nat): seq<Extent>
    requires page > 0
    decreases |rs|
  {
    if rs == [] then c else ServeAll(Serve(c, rs[0], page), rs[1..], page)
  }

  /** A request whose size wraps must find no free chunk that reaches a page boundary. */
  ghost predicate Harmless(c: seq<Extent>, r: Request, page: nat)
    requires page > 0
  {
    r.Allocate? && Wraps(r.size) ==> BestFit(c, 0, page).None?
  }

  ghost predicate AllHarmless(c: seq<Extent>, rs: seq<Request>, page: nat)
    requires page > 0
    decreases |rs|
  {
    rs == [] || (Harmless(c, rs[0], page) && AllHarmless(Serve(c, rs[0], page), rs[1..], page))
  }

  /** The list is well formed before, between and after the requests. */
  ghost predicate AllWellFormed(c: seq<Extent>, rs: seq<Request>, total: nat, page: nat)
    requires page > 0
    decreases |rs|
  {
    WellFormed(c, total, page) && (rs == [] || AllWellFormed(Serve(c, rs[0], page), rs[1..], total, page))
  }

  /** Over any requests whatever from a fresh heap, every list on the way is well formed exactly
      if every request was harmless when it was made. */
  lemma ReachableIsWellFormed(rs: seq<Request>, total: nat, page: nat)
    requires page > 0 && total > 0 && forall r :: r in rs && r.Allocate? ==> r.size < WORD
    ensures var heap := [Extent(0, total, true)];
            AllWellFormed(heap, rs, total, page) <==> AllHarmless(heap, rs, page)
  {
    RunsAreWellFormed([Extent(0, total, true)], rs, total, page);
  }

  lemma {:induction false} RunsAreWellFormed(c: seq<Extent>, rs: seq<Request>, total: nat, page: nat)
    requires page > 0 && WellFormed(c, total, page) && forall r :: r in rs && r.Allocate? ==> r.size < WORD
    ensures AllWellFormed(c, rs, total, page) <==> AllHarmless(c, rs, page)
    decreases |rs|
  {
    if rs != [] {
      ServeKeepsWellFormed(c, rs[0], total, page);
      if Harmless(c, rs[0], page) { RunsAreWellFormed(Serve(c, rs[0], page), rs[1..], total, page); }
    }
  }

  lemma ServeKeepsWellFormed(c: seq<Extent>, r: Request, total: nat, page: nat)
    requires page > 0 && WellFormed(c, total, page) && (r.Allocate? ==> r.size < WORD)
    ensures WellFormed(Serve(c, r, page), total, page) <==> Harmless(c, r, page)
  {
    match r
    case Allocate(size) =>
      AllocKeepsWellFormed(c, total, size, page);
      if Wraps(size) { WrappedRequest(c, total, size, page); }
    case Deallocate(offset) => DeallocReleases(c, total, offset, page);
  }

  /** Requests that do not wrap keep every reachable list well formed. */
  lemma {:induction false} SmallRequestsAreHarmless(c: seq<Extent>, rs: seq<Request>, page: nat)
    requires page > 0 && forall r :: r in rs && r.Allocate? ==> !Wraps(r.size)
    ensures AllHarmless(c, rs, page)
    decreases |rs|
  {
    if rs != [] { SmallRequestsAreHarmless(Serve(c, rs[0], page), rs[1..], page); }
  }
}
