/** PmemUserspaceAllocator as a value: the chunk list below it, the buffers its clients hold,
    the buffers whose unmapping failed, and the ranges lost because their offset looked like an
    error.  Every call into the device is an argument, so a
    run ranges over all ways opening, connecting, mapping and unmapping can turn out.  Only the
    operations on the chunk list are locked; the steps of different callers interleave in
    between. */
module PmemPool {
  import opened Arithmetic
  import opened Extents
  import opened HeapSpec

  const NO_FD: int := -1

  datatype Buffer = Buffer(offset: nat, size: nat, fd: int)

  /** Results of open, connectPmem and mapPmem, and the errno left by the one that failed. */
  datatype SubHeap = SubHeap(fd: int, connectErr: int, mapErr: int, errno: int) {
    /** The error after the chain in which each call runs only if the one before returned 0. */
    function Err(): int {
      var e0 := if fd < 0 then fd else 0;
      var e1 := if e0 == 0 then connectErr else e0;
      if e1 == 0 then mapErr else e1
    }
  }

  /** claimed are the ranges that a call in progress has taken from the chunk list and not yet
      handed out, or unmapped and not yet given back; leaked are those that nobody knows of any
      more. */
  datatype Pool = Pool(chunks: seq<Extent>, claimed: set<Buffer>, held: set<Buffer>, stranded: set<Buffer>,
                       leaked: set<Buffer>) {
    ghost function Mapped(): set<Buffer> { held + stranded }
    ghost function Kept(): set<Buffer> { claimed + Mapped() }
    ghost function Owned(): set<Buffer> { Kept() + leaked }
  }

  function Footprint(b: Buffer): Extent { Extent(b.offset / UNIT, Units(b.size), false) }

  // ---------- The steps ----------

  /** alloc_pmem_buffer's call of allocate: a negative result is an error, and if it was an offset
      nobody gives the chunk back. */
  function Claim(p: Pool, size: nat, page: nat): (Pool, Option<Buffer>)
    requires page > 0
  {
    var (c, g) := Alloc(p.chunks, size, page);
    match g
    case OutOfMemory => (p, None)
    case Granted(offset) =>
      var b := Buffer(offset, size, NO_FD);
      if Lost(g) then (p.(chunks := c, leaked := p.leaked + {b}), None)
      else (p.(chunks := c, claimed := p.claimed + {b}), Some(b))
  }

  /** The grant that allocate turns into its result. */
  function GrantOf(p: Pool, size: nat, page: nat): Grant
    requires page > 0
  {
    Alloc(p.chunks, size, page).1
  }

  /** The sub-heap is open, connected and mapped: the buffer is its client's. */
  function Hand(p: Pool, b: Buffer, fd: int): Pool {
    p.(claimed := p.claimed - {b}, held := p.held + {b.(fd := fd)})
  }

  /** A call of deallocate, after a failure or after unmapping. */
  function Return(p: Pool, b: Buffer): Pool {
    p.(chunks := Dealloc(p.chunks, b.offset), claimed := p.claimed - {b})
  }

  /** free_pmem_buffer's call of unmapPmem: only if it succeeds may the range be given back. */
  function Unmap(p: Pool, b: Buffer, unmapErr: int): Pool {
    if unmapErr == 0 then p.(held := p.held - {b}, claimed := p.claimed + {b.(fd := NO_FD)})
    else p.(held := p.held - {b}, stranded := p.stranded + {b})
  }

  // ---------- The calls, one at a time ----------

  datatype Answer = NoMemory | Failed(err: int) | Handed(err: int, buffer: Buffer)

  /** alloc_pmem_buffer once the area is initialised. */
  function AllocStep(p: Pool, size: nat, s: SubHeap, page: nat): (Pool, Answer)
    requires page > 0
  {
    var (q, claim) := Claim(p, size, page);
    match claim
    case None => (q, NoMemory)
    case Some(b) =>
      if s.Err() < 0 then (Return(q, b), Failed(-s.errno))
      else (Hand(q, b, s.fd), Handed(s.Err(), b.(fd := s.fd)))
  }

  /** Every call into the device succeeded. */
  predicate Connected(s: SubHeap) { s.fd >= 0 && s.connectErr == 0 && s.mapErr == 0 }

  /** Some call returned a negative, after all before it had returned 0. */
  predicate Broken(s: SubHeap) { s.fd < 0 || s.connectErr < 0 || (s.connectErr == 0 && s.mapErr < 0) }

  /** Which outcomes of the device hand a granted range out and which give it back: it is handed out
      with result 0 exactly if the sub-heap was opened, connected and mapped, and given back with
      -errno exactly if the first call that did not return 0 returned a negative. */
  lemma HandedExactly(p: Pool, size: nat, s: SubHeap, page: nat)
    requires page > 0 && Claim(p, size, page).1.Some?
    ensures var (c, b) := (Claim(p, size, page).0, Claim(p, size, page).1.value);
            var (q, a) := AllocStep(p, size, s, page);
            && (a.Handed? && a.err == 0 <==> Connected(s))
            && (a.Failed? <==> Broken(s))
            && (Broken(s) ==> a == Failed(-s.errno) && q == Return(c, b))
            && (!Broken(s) ==>
                  && a == Handed(if s.connectErr == 0 then s.mapErr else s.connectErr, b.(fd := s.fd)) && a.err >= 0
                  && s.fd >= 0 && q == Hand(c, b, s.fd))
  {
  }

  /** free_pmem_buffer */
  function FreeStep(p: Pool, b: Buffer, unmapErr: int): Pool {
    if b.fd < 0 then p
    else if unmapErr == 0 then Return(Unmap(p, b, unmapErr), b.(fd := NO_FD))
    else Unmap(p, b, unmapErr)
  }

  // ---------- The invariant ----------

  /** The live chunks are exactly the footprints of the ranges that are owned or lost, and
      different ranges have different chunks. */
  ghost predicate Ranges(p: Pool, total: nat, page: nat)
    requires page > 0
  {
    && UNIT * total < WORD
    && (if p.chunks == [] then p.Owned() == {} else WellFormed(p.chunks, total, page))
    && Live(p.chunks) == (set b | b in p.Owned() :: Footprint(b))
    && (forall b :: b in p.Owned() ==> b.offset % (UNIT * page) == 0 && b.size > 0 && !Wraps(b.size))
    && (forall b, d :: b in p.Owned() && d in p.Owned() && b.offset == d.offset ==> b == d)
  }

  /** Lost ranges are those from 2^31 up, and a buffer has its descriptor while it is mapped. */
  ghost predicate Owners(p: Pool) {
    && p.held !! p.stranded
    && (forall b :: b in p.Mapped() ==> b.fd >= 0)
    && (forall b :: b in p.claimed ==> b.fd == NO_FD)
    && (forall b :: b in p.Kept() ==> b.offset < SIGN)
    && (forall b :: b in p.leaked ==> b.offset >= SIGN)
  }

  ghost predicate Inv(p: Pool, total: nat, page: nat)
    requires page > 0
  {
    Ranges(p, total, page) && Owners(p)
  }

  ghost predicate Disjoint(b: Buffer, d: Buffer) {
    b.offset + b.size <= d.offset || d.offset + d.size <= b.offset
  }

  ghost predicate Has(b: Buffer, x: int) { b.offset <= x < b.offset + b.size }

  /** Disjoint buffers are those that have no byte in common. */
  lemma DisjointExactly(b: Buffer, d: Buffer)
    requires b.size > 0 && d.size > 0
    ensures Disjoint(b, d) <==> !exists x :: Has(b, x) && Has(d, x)
  {
    var x := if b.offset < d.offset then d.offset else b.offset;
    assert Disjoint(b, d) || (Has(b, x) && Has(d, x));
  }

  lemma OffsetsAreUnits(offset: nat, page: nat)
    requires page > 0 && offset % (UNIT * page) == 0
    ensures offset == UNIT * (offset / UNIT)
  {
    var q := offset / (UNIT * page);
    assert offset == (UNIT * page) * q;
    assert offset == UNIT * (page * q);
  }

  lemma FarApart(b: Buffer, d: Buffer, page: nat)
    requires page > 0 && b.offset % (UNIT * page) == 0 && d.offset % (UNIT * page) == 0
    requires b.size > 0 && d.size > 0
    requires Footprint(b).End() <= Footprint(d).start
    ensures b.offset + b.size <= d.offset
  {
    OffsetsAreUnits(b.offset, page);
    OffsetsAreUnits(d.offset, page);
  }

  /** No two buffers overlap, whether a client holds them, their unmapping failed, or a call is
      still at work on them. */
  lemma OwnedAreDisjoint(p: Pool, total: nat, page: nat, b: Buffer, d: Buffer)
    requires page > 0 && Ranges(p, total, page) && b in p.Owned() && d in p.Owned() && b != d
    ensures Disjoint(b, d)
  {
    assert Footprint(b) in Live(p.chunks) && Footprint(d) in Live(p.chunks);
    var i :| 0 <= i < |p.chunks| && !p.chunks[i].free && p.chunks[i] == Footprint(b);
    var j :| 0 <= j < |p.chunks| && !p.chunks[j].free && p.chunks[j] == Footprint(d);
    OffsetsAreUnits(b.offset, page);
    OffsetsAreUnits(d.offset, page);
    LiveDisjoint(p.chunks, total, page, i, j);
    if p.chunks[i].End() <= p.chunks[j].start { FarApart(b, d, page); } else { FarApart(d, b, page); }
  }

  // ---------- Each step ----------

  lemma NewFootprint(p: Pool, q: Pool, b: Buffer)
    requires Live(p.chunks) == (set d | d in p.Owned() :: Footprint(d))
    requires Live(q.chunks) == Live(p.chunks) + {Footprint(b)} && q.Owned() == p.Owned() + {b}
    ensures Live(q.chunks) == set d | d in q.Owned() :: Footprint(d)
  {
  }

  lemma NewOffset(p: Pool, b: Buffer)
    requires Live(p.chunks) == (set d | d in p.Owned() :: Footprint(d)) && Units(b.size) > 0
    requires forall f :: f in Live(p.chunks) ==> Footprint(b).End() <= f.start || f.End() <= Footprint(b).start
    requires forall d :: d in p.Owned() ==> d.size > 0
    ensures forall d :: d in p.Owned() ==> d.offset != b.offset
  {
    forall d | d in p.Owned()
      ensures d.offset != b.offset
    {
      assert Footprint(d) in Live(p.chunks);
    }
  }

  lemma NewRange(p: Pool, q: Pool, b: Buffer, total: nat, page: nat)
    requires page > 0 && Ranges(p, total, page) && WellFormed(q.chunks, total, page)
    requires b.offset % (UNIT * page) == 0 && b.size > 0 && !Wraps(b.size)
    requires Live(q.chunks) == Live(p.chunks) + {Footprint(b)} && q.Owned() == p.Owned() + {b}
    requires forall f :: f in Live(p.chunks) ==> Footprint(b).End() <= f.start || f.End() <= Footprint(b).start
    ensures Ranges(q, total, page) && b !in p.Owned()
  {
    NewFootprint(p, q, b);
    NewOffset(p, b);
  }

  lemma ClaimOwns(p: Pool, size: nat, page: nat)
    requires page > 0 && GrantOf(p, size, page).Granted?
    ensures Claim(p, size, page).0.Owned() == p.Owned() + {Buffer(GrantOf(p, size, page).offset, size, NO_FD)}
  {
  }

  /** A grant of a size that does not wrap is a new range, claimed below 2^31 and lost from there. */
  lemma GrantKeepsInv(p: Pool, size: nat, total: nat, page: nat)
    requires page > 0 && 0 < size && !Wraps(size) && Inv(p, total, page) && p.chunks != []
    requires GrantOf(p, size, page).Granted?
    ensures var q, b := Claim(p, size, page).0, Buffer(GrantOf(p, size, page).offset, size, NO_FD);
            && Inv(q, total, page) && b !in p.Owned() && b in q.Owned()
            && forall d :: d in p.Owned() ==> Disjoint(b, d)
  {
    AllocGrants(p.chunks, total, size, page);
    var b, q := Buffer(GrantOf(p, size, page).offset, size, NO_FD), Claim(p, size, page).0;
    ClaimOwns(p, size, page);
    NewRange(p, q, b, total, page);
    forall d | d in p.Owned()
      ensures Disjoint(b, d)
    {
      OwnedAreDisjoint(q, total, page, b, d);
    }
  }

  /** A size that wraps leaves an ill-formed list if it is granted. */
  lemma WrappedGrant(p: Pool, size: nat, total: nat, page: nat)
    requires page > 0 && size < WORD && Wraps(size) && Inv(p, total, page) && GrantOf(p, size, page).Granted?
    ensures p.chunks != [] && Claim(p, size, page).0.chunks != []
    ensures !WellFormed(Claim(p, size, page).0.chunks, total, page)
    ensures Buffer(GrantOf(p, size, page).offset, size, NO_FD) !in p.Owned()
  {
    WrappedRequest(p.chunks, total, size, page);
  }

  /** A claim is clear of everything owned.  A call of allocate leaves the pool as it was exactly if
      it is refused, keeps the invariant exactly if it is not granted a size that wraps, and claims
      nothing, but loses a chunk, exactly if the offset is 2^31 or more. */
  lemma ClaimKeepsInv(p: Pool, size: nat, total: nat, page: nat)
    requires page > 0 && 0 < size < WORD && Inv(p, total, page)
    ensures var (q, claim) := Claim(p, size, page);
            && (Inv(q, total, page) <==> !(Wraps(size) && GrantOf(p, size, page).Granted?))
            && (claim.None? <==> GrantOf(p, size, page).OutOfMemory? || Lost(GrantOf(p, size, page)))
            && (q == p <==> GrantOf(p, size, page).OutOfMemory?)
            && (claim.Some? ==> claim.value !in p.Owned() && claim.value.size == size)
            && (claim.Some? && !Wraps(size) ==> forall d :: d in p.Owned() ==> Disjoint(claim.value, d))
  {
    var g := GrantOf(p, size, page);
    if g.Granted? {
      assert p.chunks != [];
      if Wraps(size) { WrappedGrant(p, size, total, page); } else { GrantKeepsInv(p, size, total, page); }
    } else if p.chunks != [] {
      RefusalChangesNothing(p.chunks, size, page);
    }
  }

  lemma RefusalChangesNothing(c: seq<Extent>, size: nat, page: nat)
    requires page > 0 && Alloc(c, size, page).1.OutOfMemory?
    ensures Alloc(c, size, page).0 == c
  {
  }

  /** b is replaced by d, which is the same range. */
  lemma SameRanges(p: Pool, q: Pool, b: Buffer, d: Buffer, total: nat, page: nat)
    requires page > 0 && Ranges(p, total, page) && q.chunks == p.chunks
    requires b in p.Owned() && d.offset == b.offset && d.size == b.size
    requires q.Owned() == p.Owned() - {b} + {d}
    ensures Ranges(q, total, page)
  {
    assert Footprint(d) == Footprint(b);
    assert Footprint(b) in Live(p.chunks);
    forall e | e in Live(p.chunks)
      ensures exists f :: f in q.Owned() && Footprint(f) == e
    {
      var f :| f in p.Owned() && Footprint(f) == e;
      assert f == b || f in q.Owned();
      assert d in q.Owned();
    }
  }

  lemma HandKeepsInv(p: Pool, b: Buffer, fd: int, total: nat, page: nat)
    requires page > 0 && Inv(p, total, page) && b in p.claimed && fd >= 0
    ensures Inv(Hand(p, b, fd), total, page) && b.(fd := fd) !in p.Mapped()
  {
    var d := b.(fd := fd);
    assert d !in p.Owned();
    assert Hand(p, b, fd).Owned() == p.Owned() - {b} + {d};
    SameRanges(p, Hand(p, b, fd), b, d, total, page);
  }

  lemma UnmapKeepsInv(p: Pool, b: Buffer, unmapErr: int, total: nat, page: nat)
    requires page > 0 && Inv(p, total, page) && b in p.held
    ensures Inv(Unmap(p, b, unmapErr), total, page)
    ensures b.(fd := NO_FD) !in p.claimed
  {
    var d := if unmapErr == 0 then b.(fd := NO_FD) else b;
    assert b.(fd := NO_FD) !in p.Owned();
    assert Unmap(p, b, unmapErr).Owned() == p.Owned() - {b} + {d};
    SameRanges(p, Unmap(p, b, unmapErr), b, d, total, page);
  }

  lemma ReturnKeepsRanges(p: Pool, q: Pool, b: Buffer, total: nat, page: nat)
    requires page > 0 && Ranges(p, total, page) && b in p.Owned()
    requires q.chunks == Dealloc(p.chunks, b.offset) && q.Owned() == p.Owned() - {b}
    ensures Ranges(q, total, page)
  {
    DeallocReleases(p.chunks, total, b.offset, page);
    OffsetsAreUnits(b.offset, page);
    forall d | d in q.Owned()
      ensures Footprint(d).start != b.offset / UNIT
    {
      OffsetsAreUnits(d.offset, page);
    }
    forall e | e in Live(q.chunks)
      ensures exists d :: d in q.Owned() && Footprint(d) == e
    {
      var d :| d in p.Owned() && Footprint(d) == e;
      assert d in q.Owned();
    }
    assert WellFormed(q.chunks, total, page) && q.chunks != [];
  }

  lemma ReturnKeepsInv(p: Pool, b: Buffer, total: nat, page: nat)
    requires page > 0 && Inv(p, total, page) && b in p.claimed
    ensures Inv(Return(p, b), total, page)
  {
    assert Return(p, b).Owned() == p.Owned() - {b};
    ReturnKeepsRanges(p, Return(p, b), b, total, page);
  }

  // ---------- Each call ----------

  /** A call that hands out nothing leaves the pool exactly as it was, wherever it failed, unless it
      was granted an offset of 2^31 or more: then a chunk is gone, and a call that has a chunk like
      that never hands it out. */
  lemma FailureRestores(p: Pool, size: nat, s: SubHeap, total: nat, page: nat)
    requires page > 0 && 0 < size < WORD && Inv(p, total, page)
    ensures var (q, a) := AllocStep(p, size, s, page);
            && (!a.Handed? ==> (q == p <==> !Lost(GrantOf(p, size, page))))
            && (Lost(GrantOf(p, size, page)) ==> a == NoMemory && q == Claim(p, size, page).0)
  {
    ClaimKeepsInv(p, size, total, page);
    var (q, claim) := Claim(p, size, page);
    if claim.Some? {
      assert q.claimed - {claim.value} == p.claimed;
      AllocThenDealloc(p.chunks, total, size, page);
    }
  }

  /** Giving back offset 0 frees the first chunk of the heap. */
  lemma EmptyReturn(c: seq<Extent>, total: nat, page: nat)
    requires page > 0 && WellFormed(c, total, page)
    ensures Dealloc(c, 0) == c <==> c[0].free
    ensures Live(Dealloc(c, 0)) == Live(c) - {c[0]}
  {
    assert Find(c, 0) == Some(0);
    DeallocReleases(c, total, 0, page);
    if c[0].free {
      ReleaseFreeIsNoop(c, total, 0);
    } else {
      assert c[0] in Live(c);
    }
    forall e | e in Live(c)
      ensures e.start == 0 <==> e == c[0]
    {
      var j :| 0 <= j < |c| && !c[j].free && c[j] == e;
      if e.start == 0 { SameStartSameChunk(c, total, 0, j); }
    }
  }

  /** A request for 0 bytes takes no chunk, so that rolling it back frees whatever chunk is at the
      start of the heap: the pool is as before exactly if that one is free. */
  lemma EmptyFailure(p: Pool, s: SubHeap, total: nat, page: nat)
    requires page > 0 && Inv(p, total, page) && p.chunks != [] && s.Err() < 0
    ensures AllocStep(p, 0, s, page).0 == p <==> p.chunks[0].free
  {
    var b := Buffer(0, 0, NO_FD);
    assert b !in p.Owned();
    assert p.claimed + {b} - {b} == p.claimed;
    EmptyReturn(p.chunks, total, page);
  }

  /** The same when a buffer of 0 bytes was handed out: freeing it later frees that chunk, whoever
      has it. */
  lemma EmptyBuffer(p: Pool, s: SubHeap, total: nat, page: nat)
    requires page > 0 && Inv(p, total, page) && p.chunks != [] && s.Err() >= 0
    ensures var (q, a) := AllocStep(p, 0, s, page);
            && a == Handed(s.Err(), Buffer(0, 0, s.fd)) && q == p.(held := p.held + {a.buffer})
            && (FreeStep(q, a.buffer, 0) == p <==> p.chunks[0].free)
            && Live(FreeStep(q, a.buffer, 0).chunks) == Live(p.chunks) - {p.chunks[0]}
  {
    var b, d := Buffer(0, 0, NO_FD), Buffer(0, 0, s.fd);
    assert b !in p.Owned() && d !in p.Owned();
    assert p.claimed + {b} - {b} == p.claimed && p.held + {d} - {d} == p.held;
    EmptyReturn(p.chunks, total, page);
  }

  /** What a call that hands out a buffer changes besides the chunks. */
  lemma HandedChanges(p: Pool, size: nat, s: SubHeap, total: nat, page: nat)
    requires page > 0 && 0 < size < WORD && Inv(p, total, page) && AllocStep(p, size, s, page).1.Handed?
    ensures var (q, a) := AllocStep(p, size, s, page);
            && q.stranded == p.stranded && q.claimed == p.claimed && q.leaked == p.leaked
            && q.held == p.held + {a.buffer} && a.buffer.size == size && a.buffer.fd == s.fd
            && q.chunks == Alloc(p.chunks, size, page).0
            && GrantOf(p, size, page) == Granted(a.buffer.offset) && a.buffer.offset < SIGN
  {
    ClaimKeepsInv(p, size, total, page);
    var (q, claim) := Claim(p, size, page);
    assert q.claimed - {claim.value} == p.claimed;
  }

  /** When a request that wraps is handed out, the list is no longer well formed. */
  lemma WrappedHandout(p: Pool, size: nat, s: SubHeap, total: nat, page: nat)
    requires page > 0 && size < WORD && Wraps(size) && Inv(p, total, page) && AllocStep(p, size, s, page).1.Handed?
    ensures !Inv(AllocStep(p, size, s, page).0, total, page)
  {
    HandedChanges(p, size, s, total, page);
    WrappedGrant(p, size, total, page);
  }

  lemma HandedIsClear(p: Pool, size: nat, s: SubHeap, total: nat, page: nat)
    requires page > 0 && 0 < size && !Wraps(size) && Inv(p, total, page) && AllocStep(p, size, s, page).1.Handed?
    ensures var (q, a) := AllocStep(p, size, s, page);
            && Inv(q, total, page) && a.buffer !in p.Mapped()
            && forall d :: d in p.Owned() ==> Disjoint(a.buffer, d)
  {
    ClaimKeepsInv(p, size, total, page);
    var (q, claim) := Claim(p, size, page);
    HandKeepsInv(q, claim.value, s.fd, total, page);
  }

  /** A call either hands out one new buffer, clear of every other, or leaves the pool exactly as
      it was, unless it loses a chunk at 2^31 or above, whatever the size and wherever it fails.
      The invariant is lost exactly if a request that wraps is handed out, or granted there. */
  lemma AllocKeepsInv(p: Pool, size: nat, s: SubHeap, total: nat, page: nat)
    requires page > 0 && 0 < size < WORD && Inv(p, total, page)
    ensures var (q, a) := AllocStep(p, size, s, page);
            && (Inv(q, total, page) <==> !(Wraps(size) && (a.Handed? || Lost(GrantOf(p, size, page)))))
            && (!a.Handed? ==> (q == p <==> !Lost(GrantOf(p, size, page))))
            && (!a.Handed? ==> q.held == p.held && q.claimed == p.claimed && q.stranded == p.stranded)
            && (a.Handed? ==>
                  && q.stranded == p.stranded && q.claimed == p.claimed && q.leaked == p.leaked
                  && q.held == p.held + {a.buffer} && a.buffer.size == size && a.buffer.fd == s.fd)
            && (a.Handed? && !Wraps(size) ==>
                  a.buffer !in p.Mapped() && forall d :: d in p.Owned() ==> Disjoint(a.buffer, d))
  {
    FailureRestores(p, size, s, total, page);
    if !AllocStep(p, size, s, page).1.Handed? {
      ClaimKeepsInv(p, size, total, page);
    } else {
      HandedChanges(p, size, s, total, page);
      if Wraps(size) {
        WrappedHandout(p, size, s, total, page);
      } else {
        HandedIsClear(p, size, s, total, page);
      }
    }
  }

  /** Freeing a held buffer takes it, and only it, away from its client; if the unmapping
      failed its units stay allocated. */
  lemma FreeKeepsInv(p: Pool, b: Buffer, unmapErr: int, total: nat, page: nat)
    requires page > 0 && Inv(p, total, page) && b in p.held
    ensures var q := FreeStep(p, b, unmapErr);
            && Inv(q, total, page) && q.claimed == p.claimed && q.held == p.held - {b}
            && q.stranded == (if unmapErr == 0 then p.stranded else p.stranded + {b})
            && q.chunks == (if unmapErr == 0 then Dealloc(p.chunks, b.offset) else p.chunks)
  {
    UnmapKeepsInv(p, b, unmapErr, total, page);
    if unmapErr == 0 {
      ReturnKeepsInv(Unmap(p, b, unmapErr), b.(fd := NO_FD), total, page);
      assert p.claimed + {b.(fd := NO_FD)} - {b.(fd := NO_FD)} == p.claimed;
    }
  }

  // ---------- Runs ----------

  datatype Event =
    | Claiming(size: nat)
    | Handing(buffer: Buffer, fd: int)
    | Returning(buffer: Buffer)
    | Unmapping(buffer: Buffer, unmapErr: int)

  /** Sizes are positive, and one that wraps is refused; a call goes on with a range it claimed,
      and a client gives back only a buffer it holds, so each only once. */
  ghost predicate Legal(p: Pool, e: Event, page: nat)
    requires page > 0
  {
    match e
    case Claiming(size) => 0 < size < WORD && (Wraps(size) ==> GrantOf(p, size, page).OutOfMemory?)
    case Handing(b, fd) => b in p.claimed && fd >= 0
    case Returning(b) => b in p.claimed
    case Unmapping(b, _) => b in p.held
  }

  function Do(p: Pool, e: Event, page: nat): Pool
    requires page > 0
  {
    match e
    case Claiming(size) => Claim(p, size, page).0
    case Handing(b, fd) => Hand(p, b, fd)
    case Returning(b) => Return(p, b)
    case Unmapping(b, unmapErr) => Unmap(p, b, unmapErr)
  }

  lemma EventKeepsInv(p: Pool, e: Event, total: nat, page: nat)
    requires page > 0 && Inv(p, total, page) && Legal(p, e, page)
    ensures Inv(Do(p, e, page), total, page)
  {
    match e
    case Claiming(size) => ClaimKeepsInv(p, size, total, page);
    case Handing(b, fd) => HandKeepsInv(p, b, fd, total, page);
    case Returning(b) => ReturnKeepsInv(p, b, total, page);
    case Unmapping(b, unmapErr) => UnmapKeepsInv(p, b, unmapErr, total, page);
  }

  ghost predicate LegalRun(p: Pool, es: seq<Event>, page: nat)
    requires page > 0
    decreases |es|
  {
    es == [] || (Legal(p, es[0], page) && LegalRun(Do(p, es[0], page), es[1..], page))
  }

  function DoAll(p: Pool, es: seq<Event>, page: nat): Pool
    requires page > 0
    decreases |es|
  {
    if es == [] then p else DoAll(Do(p, es[0], page), es[1..], page)
  }

  /** Over every interleaving of any number of calls: the invariant holds throughout, so that no
      two buffers overlap, and a buffer whose unmapping failed stays mapped, and a range that was
      lost stays lost, for ever, so that no later buffer overlaps it. */
  lemma {:induction false} StrandedNeverReused(p: Pool, es: seq<Event>, total: nat, page: nat)
    requires page > 0 && Inv(p, total, page) && LegalRun(p, es, page)
    ensures var q := DoAll(p, es, page);
            && Inv(q, total, page) && p.stranded <= q.stranded && p.leaked <= q.leaked
            && (forall b, d :: b in q.Owned() && d in q.Owned() && b != d ==> Disjoint(b, d))
            && (forall b, d :: b in p.stranded + p.leaked && d in q.held ==> Disjoint(b, d))
    decreases |es|
  {
    if es == [] {
      forall b, d | b in p.Owned() && d in p.Owned() && b != d
        ensures Disjoint(b, d)
      {
        OwnedAreDisjoint(p, total, page, b, d);
      }
    } else {
      EventKeepsInv(p, es[0], total, page);
      StrandedNeverReused(Do(p, es[0], page), es[1..], total, page);
    }
  }

  // ---------- Lost chunks ----------

  /** The units of the lower 2 GiB. */
  const HALF: nat := 0x400_0000

  /** With the lower 2 GiB taken, anything that fits above them is granted at 2^31. */
  lemma GrantedAtHalf(rest: nat, size: nat, page: nat)
    requires page > 0 && HALF % page == 0 && 0 < size && !Wraps(size) && Units(size) <= rest
    ensures var low, high := Extent(0, HALF, false), Extent(HALF, rest, true);
            Alloc([low, high], size, page) == ([low] + Cut(high, Units(size), page), Granted(SIGN))
  {
    var low, high := Extent(0, HALF, false), Extent(HALF, rest, true);
    var c := [low, high];
    assert Extra(HALF, page) == 0;
    RoundingIsExact(size);
    assert BestFit(c, Units(size), page) == Some(1);
    assert c[..1] == [low] && c[2..] == [];
    assert Carve(c, 1, Units(size), page) == [low] + Cut(high, Units(size), page);
  }

  /** A heap of 3 GiB whose lower 2 GiB a client holds: a request for one page, in which every
      call into the device succeeds, fails and takes a chunk away for good. */
  lemma LostExample()
    ensures var c := [Extent(0, HALF, false), Extent(HALF, 0x200_0000, true)];
            var p := Pool(c, {}, {Buffer(0, SIGN, 3)}, {}, {});
            var (q, a) := AllocStep(p, 4096, SubHeap(5, 0, 0, 0), 128);
            && a == NoMemory
            && q.chunks == [c[0], Extent(HALF, 128, false), Extent(HALF + 128, 0x1FF_FF80, true)]
            && q.held == p.held && q.leaked == {Buffer(SIGN, 4096, NO_FD)} && Inv(p, 0x600_0000, 128)
  {
    assert Extra(HALF, 128) == 0;
    GrantedAtHalf(0x200_0000, 4096, 128);
    HalfIsHeld(0x200_0000, 128);
  }

  lemma HalfIsHeld(rest: nat, page: nat)
    requires page > 0 && rest > 0 && UNIT * (HALF + rest) < WORD
    ensures var c := [Extent(0, HALF, false), Extent(HALF, rest, true)];
            Inv(Pool(c, {}, {Buffer(0, SIGN, 3)}, {}, {}), HALF + rest, page)
  {
    var c := [Extent(0, HALF, false), Extent(HALF, rest, true)];
    var b := Buffer(0, SIGN, 3);
    var p := Pool(c, {}, {b}, {}, {});
    assert p.Owned() == {b} && Footprint(b) == c[0];
    assert Live(c) == {c[0]};
  }

  function FreshPool(total: nat): Pool { Pool([Extent(0, total, true)], {}, {}, {}, {}) }

  ghost predicate NeverLeaks(p: Pool, page: nat)
    requires page > 0
  {
    forall es :: LegalRun(p, es, page) ==> DoAll(p, es, page).leaked == {}
  }

  lemma {:induction false} SmallHeapLeaksNothing(p: Pool, es: seq<Event>, total: nat, page: nat)
    requires page > 0 && Inv(p, total, page) && LegalRun(p, es, page) && UNIT * total <= SIGN
    ensures DoAll(p, es, page).leaked == p.leaked
    decreases |es|
  {
    if es != [] {
      EventKeepsInv(p, es[0], total, page);
      if es[0].Claiming? && p.chunks != [] && !Wraps(es[0].size) {
        SmallHeapLosesNothing(p.chunks, total, es[0].size, page);
      }
      SmallHeapLeaksNothing(Do(p, es[0], page), es[1..], total, page);
    }
  }

  /** The lower 2 GiB of a larger heap can be had in one piece. */
  lemma HalfIsGranted(total: nat, page: nat)
    requires page > 0 && total > HALF
    ensures var c := [Extent(0, HALF, false), Extent(HALF, total - HALF, true)];
            Alloc([Extent(0, total, true)], SIGN, page) == (c, Granted(0))
  {
    var e := Extent(0, total, true);
    assert Extra(0, page) == 0;
    RoundingIsExact(SIGN);
    assert BestFit([e], HALF, page) == Some(0);
    assert Carve([e], 0, HALF, page) == Cut(e, HALF, page);
    assert Cut(e, HALF, page) == [Extent(0, HALF, false), Extent(HALF, total - HALF, true)];
  }

  lemma TwoSteps(p: Pool, d: Event, e: Event, q: Pool, page: nat)
    requires page > 0 && Legal(p, d, page) && q == Do(p, d, page) && Legal(q, e, page)
    ensures LegalRun(p, [d, e], page) && DoAll(p, [d, e], page) == Do(q, e, page)
  {
    assert [d, e][1..] == [e];
    assert [e][1..] == [] && DoAll(Do(q, e, page), [], page) == Do(q, e, page);
    assert DoAll(q, [e], page) == Do(q, e, page);
  }

  /** Two requests lose a chunk of any larger heap. */
  lemma LargeHeapLeaks(total: nat, page: nat) returns (es: seq<Event>)
    requires page > 0 && HALF % page == 0 && UNIT * total > SIGN
    ensures LegalRun(FreshPool(total), es, page) && DoAll(FreshPool(total), es, page).leaked != {}
  {
    var d, e := Claiming(SIGN), Claiming(1);
    HalfIsGranted(total, page);
    var q := Do(FreshPool(total), d, page);
    GrantedAtHalf(total - HALF, 1, page);
    TwoSteps(FreshPool(total), d, e, q, page);
    assert Buffer(SIGN, 1, NO_FD) in Do(q, e, page).leaked;
    es := [d, e];
  }

  /** Whether some run can lose a chunk depends on the size of the heap alone: only heaps of more
      than 2^31 bytes do. */
  lemma NeverLeaksExactly(total: nat, page: nat)
    requires page > 0 && HALF % page == 0 && 0 < UNIT * total < WORD
    ensures NeverLeaks(FreshPool(total), page) <==> UNIT * total <= SIGN
  {
    var p := FreshPool(total);
    if UNIT * total <= SIGN {
      assert p.Owned() == {} && Live(p.chunks) == {};
      forall es | LegalRun(p, es, page)
        ensures DoAll(p, es, page).leaked == {}
      {
        SmallHeapLeaksNothing(p, es, total, page);
      }
    } else {
      var es := LargeHeapLeaks(total, page);
      assert LegalRun(p, es, page) && DoAll(p, es, page).leaked != {};
    }
  }
}
