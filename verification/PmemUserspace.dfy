/** PmemUserspaceAllocator over the linked best-fit allocator. */
module PmemUserspace {
  import opened Arithmetic
  import opened Extents
  import opened HeapSpec
  import opened BestFitAllocator
  import opened PmemPool

  const MASTER_FD_INIT: int := -1
  const LIMP_SIZE: nat := 0x80_0000

  datatype Mapping = MapFailed | MappedAt(base: int)

  /** Results of open, getPmemTotalSize and mmap on the device, and errno. */
  datatype Device = Device(fd: int, sizeErr: int, size: nat, mapping: Mapping, errno: int) {
    /** The size the heap is given: the reported one, or 8 MiB if the query failed. */
    function HeapSize(): nat { if sizeErr < 0 then LIMP_SIZE else size }

    function InitErr(): int {
      if fd < 0 || mapping.MapFailed? then -errno else sizeErr
    }
  }

  /** The allocator's whole state. */
  datatype Area = Area(pool: Pool, heapSize: nat, masterFd: int, masterBase: int)

  // ---------- The calls on values ----------

  /** init_pmem_area_locked: the heap is given its size once, whatever happens after. */
  function InitLocked(a: Area, d: Device, page: nat): Area
    requires page > 0
  {
    if d.fd < 0 then a else
    var b := if a.heapSize != 0 then a else
             var h := PageRound(d.HeapSize(), page);
             a.(heapSize := h, pool := a.pool.(chunks := [Extent(0, h / UNIT, true)] + a.pool.chunks));
    if d.mapping.MappedAt? then b.(masterFd := d.fd, masterBase := d.mapping.base) else b
  }

  /** init_pmem_area, with its result: an error is remembered in masterFd. */
  function Init(a: Area, d: Device, page: nat): (Area, int)
    requires page > 0
  {
    if a.masterFd != MASTER_FD_INIT then (a, if a.masterFd < 0 then a.masterFd else 0)
    else if d.InitErr() == 0 then (InitLocked(a, d, page), 0)
    else (InitLocked(a, d, page).(masterFd := d.InitErr()), d.InitErr())
  }

  /** alloc_pmem_buffer: the new state, the result, and the buffer if there is one. */
  function AllocBuffer(a: Area, size: nat, d: Device, s: SubHeap, page: nat): (Area, int, Option<Buffer>)
    requires page > 0
  {
    var (b, err) := Init(a, d, page);
    if err != 0 then (b, err, None)
    else if b.heapSize == 0 then (b, -ENOMEM, None)
    else
      var (q, answer) := AllocStep(b.pool, size, s, page);
      match answer
      case NoMemory => (b.(pool := q), -ENOMEM, None)
      case Failed(e) => (b.(pool := q), e, None)
      case Handed(e, buffer) => (b.(pool := q), e, Some(buffer))
  }

  /** The chunks are those of the heap, and the buffers those of the chunks. */
  ghost predicate Safe(a: Area, page: nat)
    requires page > 0
  {
    (a.heapSize == 0 ==> a.pool.chunks == []) && Inv(a.pool, a.heapSize / UNIT, page)
  }

  /** Setting up the heap keeps the area safe unless the device reports a size that is 0 or wraps
      when it is rounded to pages. */
  predicate InitFits(a: Area, d: Device, page: nat) {
    a.masterFd == MASTER_FD_INIT && a.heapSize == 0 && d.fd >= 0 ==> HeapFits(d.HeapSize(), page)
  }

  lemma InitKeepsSafe(a: Area, d: Device, page: nat)
    requires page > 0 && WORD % (UNIT * page) == 0 && d.size < WORD && Safe(a, page)
    ensures var b := Init(a, d, page).0;
            && (Safe(b, page) <==> InitFits(a, d, page))
            && (!InitFits(a, d, page) ==> b.heapSize == 0)
            && (a.heapSize != 0 ==> b.pool == a.pool && b.heapSize == a.heapSize)
            && b.pool == a.pool.(chunks := b.pool.chunks)
  {
    if a.masterFd == MASTER_FD_INIT && a.heapSize == 0 && d.fd >= 0 {
      HeapRounding(d.HeapSize(), page);
      assert a.pool.Owned() == {};
      var b := InitLocked(a, d, page);
      assert b.pool.Owned() == {};
      assert b.pool.chunks == [Extent(0, b.heapSize / UNIT, true)];
    }
  }

  /** What allocate decides once the area is set up. */
  function GrantIn(a: Area, size: nat, d: Device, page: nat): Grant
    requires page > 0
  {
    GrantOf(Init(a, d, page).0.pool, size, page)
  }

  /** A call hands out one new buffer, clear of every other, or leaves the buffers and, unless it is
      granted an offset of 2^31 or more, the chunks of the heap that was set up as they were.  The
      area is safe afterwards exactly if the heap fitted and no request that wraps was handed out
      or granted there. */
  lemma AllocKeepsSafe(a: Area, size: nat, d: Device, s: SubHeap, page: nat)
    requires page > 0 && WORD % (UNIT * page) == 0 && d.size < WORD && 0 < size < WORD && Safe(a, page)
    ensures var (b, err, buffer) := AllocBuffer(a, size, d, s, page);
            && var lost := Init(a, d, page).1 == 0 && Lost(GrantIn(a, size, d, page));
            && (InitFits(a, d, page) ==> (Safe(b, page) <==> !(Wraps(size) && (buffer.Some? || lost))))
            && (InitFits(a, d, page) && buffer.None? ==> (b.pool == Init(a, d, page).0.pool <==> !lost))
            && (!InitFits(a, d, page) ==> !Safe(b, page) && buffer.None? && b.pool == Init(a, d, page).0.pool)
            && (buffer.None? ==> b.pool == a.pool.(chunks := b.pool.chunks, leaked := b.pool.leaked))
            && (buffer.Some? ==> b.pool == a.pool.(chunks := b.pool.chunks, held := a.pool.held + {buffer.value}))
            && (buffer.Some? && !Wraps(size) ==> forall o :: o in a.pool.Owned() ==> Disjoint(buffer.value, o))
  {
    InitKeepsSafe(a, d, page);
    var b := Init(a, d, page).0;
    if InitFits(a, d, page) {
      AllocKeepsInv(b.pool, size, s, b.heapSize / UNIT, page);
    }
  }

  /** Trying the device: the error is that of opening or mapping, or else of asking for the size; a
      heap that has no size yet is given the one reported, or 8 MiB if asking failed, and the area is
      the mapped one if there is one. */
  lemma FirstInit(a: Area, d: Device, page: nat)
    requires page > 0 && a.masterFd == -1
    ensures var (b, err) := Init(a, d, page);
            && err == (if d.fd < 0 || d.mapping.MapFailed? then -d.errno else d.sizeErr)
            && b.heapSize == (if a.heapSize != 0 || d.fd < 0 then a.heapSize
                              else PageRound(if d.sizeErr < 0 then 0x80_0000 else d.size, page))
            && (err == 0 && d.fd >= 0 && d.mapping.MappedAt? ==> b.masterFd == d.fd && b.masterBase == d.mapping.base)
            && (err != 0 ==> b.masterFd == err)
  {
  }

  /** What is known after a first try is final, whatever the device would say later: a success, and
      an error other than -1, which is remembered; an error above 0 is taken for a descriptor. */
  lemma InitIsFinal(a: Area, d: Device, later: Device, page: nat)
    requires page > 0 && a.masterFd == -1
    ensures var (b, err) := Init(a, d, page);
            && (err < -1 ==> Init(b, later, page) == (b, err))
            && (err > 0 ==> Init(b, later, page) == (b, 0))
            && (err == 0 && d.fd >= 0 && d.mapping.MappedAt? ==> Init(b, later, page) == (b, 0))
            && (err == -1 ==> b.masterFd == -1)
  {
  }

  /** What a call returns, in terms of the first try, the grant and the sub-heap. */
  lemma AllocOutcome(a: Area, size: nat, d: Device, s: SubHeap, page: nat)
    requires page > 0
    ensures var (i, e) := Init(a, d, page);
            var (b, err, buffer) := AllocBuffer(a, size, d, s, page);
            if e != 0 then (b, err, buffer) == (i, e, None)
            else if i.heapSize == 0 then (b, err, buffer) == (i, -12, None)
            else
              && b == i.(pool := AllocStep(i.pool, size, s, page).0)
              && var g := GrantOf(i.pool, size, page);
              if g.OutOfMemory? || Lost(g) then err == -12 && buffer.None?
              else if Broken(s) then err == -s.errno && buffer.None?
              else
                && buffer == Some(Buffer(g.offset, size, s.fd)) && (err == 0 <==> Connected(s))
                && err >= 0
  {
    var i := Init(a, d, page).0;
    if Claim(i.pool, size, page).1.Some? { HandedExactly(i.pool, size, s, page); }
  }

  /** A call that finds no other one in progress. */
  lemma AloneStep(p: Pool, size: nat, s: SubHeap, page: nat)
    requires page > 0 && p.claimed == {}
    ensures var (c, g) := Alloc(p.chunks, size, page);
            && (g.OutOfMemory? ==> c == p.chunks)
            && AllocStep(p, size, s, page) ==
               if g.OutOfMemory? then (p, NoMemory)
               else if Lost(g) then (p.(chunks := c, leaked := p.leaked + {Buffer(g.offset, size, NO_FD)}), NoMemory)
               else if s.Err() < 0 then (p.(chunks := Dealloc(c, g.offset)), Failed(-s.errno))
               else
                 var b := Buffer(g.offset, size, s.fd);
                 (p.(chunks := c, held := p.held + {b}), Handed(s.Err(), b))
  {
    var (c, g) := Alloc(p.chunks, size, page);
    if g.Granted? {
      var b := Buffer(g.offset, size, NO_FD);
      assert p.claimed + {b} - {b} == {};
    }
  }

  // ---------- The class ----------

  class PmemUserspaceAllocator {
    const allocator: SimpleBestFitAllocator
    var masterFd: int
    var masterBase: int
    ghost var held: set<Buffer>
    ghost var stranded: set<Buffer>
    ghost var leaked: set<Buffer>

    /** Between calls no range is claimed. */
    ghost function Now(): Area
      reads this, allocator
    {
      Area(Pool(allocator.chunks, {}, held, stranded, leaked), allocator.heapSize, masterFd, masterBase)
    }

    constructor (allocator: SimpleBestFitAllocator)
      requires allocator.Valid() && allocator.heapSize == 0
      ensures Now() == Area(Pool([], {}, {}, {}, {}), 0, MASTER_FD_INIT, 0) && Safe(Now(), allocator.page)
      ensures this.allocator == allocator
    {
      this.allocator := allocator;
      masterFd, masterBase, held, stranded, leaked := MASTER_FD_INIT, 0, {}, {}, {};
    }

    method InitPmemAreaLocked(d: Device) returns (err: int)
      requires allocator.Linked() && d.size < WORD
      modifies this`masterFd, this`masterBase, allocator, allocator.list, allocator.list.repr
      ensures allocator.Linked() && err == d.InitErr()
      ensures Now() == InitLocked(old(Now()), d, allocator.page)
      ensures if d.fd >= 0 && d.mapping.MappedAt? then masterFd == d.fd && masterBase == d.mapping.base
              else masterFd == old(masterFd) && masterBase == old(masterBase)
      ensures fresh(allocator.list.repr - old(allocator.list.repr))
    {
      err := 0;
      if d.fd >= 0 {
        var size := d.size;
        err := d.sizeErr;
        if err < 0 {
          size := LIMP_SIZE;
        }
        var r := allocator.SetSize(size);
        match d.mapping {
          case MapFailed =>
            err := -d.errno;
          case MappedAt(base) =>
            masterFd, masterBase := d.fd, base;
        }
      } else {
        err := -d.errno;
      }
    }

    /** Tries the device while masterFd is still MASTER_FD_INIT; an error is remembered in
        masterFd, so it is final unless it happens to equal MASTER_FD_INIT. */
    method InitPmemArea(d: Device) returns (err: int)
      requires allocator.Linked() && d.size < WORD
      modifies this`masterFd, this`masterBase, allocator, allocator.list, allocator.list.repr
      ensures allocator.Linked() && (Now(), err) == Init(old(Now()), d, allocator.page)
      ensures old(masterFd) != -1 ==> Now() == old(Now()) && err == if old(masterFd) < 0 then old(masterFd) else 0
      ensures old(masterFd) == -1 ==> err == if d.fd < 0 || d.mapping.MapFailed? then -d.errno else d.sizeErr
      ensures fresh(allocator.list.repr - old(allocator.list.repr))
    {
      err := masterFd;
      if err == MASTER_FD_INIT {
        err := InitPmemAreaLocked(d);
        if err != 0 {
          masterFd := err;
        }
      } else if err < 0 {
      } else {
        err := 0;
      }
    }

    method AllocPmemBuffer(size: nat, d: Device, s: SubHeap) returns (err: int, base: int, buffer: Option<Buffer>)
      requires allocator.Linked() && size < WORD && d.size < WORD
      modifies this, allocator, allocator.list, allocator.list.repr
      ensures allocator.Linked()
      ensures (Now(), err, buffer) == AllocBuffer(old(Now()), size, d, s, allocator.page)
      ensures buffer.Some? ==> base == masterBase
    {
      err := InitPmemArea(d);
      if err == 0 {
        err, base, buffer := TakeSubHeap(size, s);
      } else {
        base, buffer := 0, None;
      }
    }

    /** Opens, connects and maps the sub-heap. */
    method OpenSubHeap(s: SubHeap) returns (err: int)
      ensures err == s.Err() && (err == 0 <==> Connected(s)) && (err < 0 <==> Broken(s))
    {
      err := if s.fd < 0 then s.fd else 0;
      if err == 0 {
        err := s.connectErr;
      }
      if err == 0 {
        err := s.mapErr;
      }
    }

    /** What alloc_pmem_buffer does once the area is initialised. */
    method TakeSubHeap(size: nat, s: SubHeap) returns (err: int, base: int, buffer: Option<Buffer>)
      requires allocator.Linked() && size < WORD
      modifies this`held, this`leaked, allocator`chunks, allocator.list, allocator.list.repr
      ensures allocator.Linked()
      ensures old(allocator.heapSize) == 0 ==> Now() == old(Now()) && err == -ENOMEM && buffer == None
      ensures old(allocator.heapSize) != 0 ==>
                var (q, answer) := AllocStep(old(Now()).pool, size, s, allocator.page);
                && Now() == old(Now()).(pool := q)
                && match answer
                   case NoMemory => err == -ENOMEM && buffer == None
                   case Failed(e) => err == e && buffer == None
                   case Handed(e, b) => err == e && buffer == Some(b)
      ensures buffer.Some? ==> base == masterBase
      ensures old(allocator.heapSize) != 0 && Claim(old(Now()).pool, size, allocator.page).1.Some? ==>
                && (buffer.Some? && err == 0 <==> Connected(s))
                && (buffer.None? <==> Broken(s)) && (Broken(s) ==> err == -s.errno)
    {
      base, buffer := 0, None;
      ghost var p, g := Now().pool, Alloc(allocator.chunks, size, allocator.page).1;
      var offset := allocator.Allocate(size);
      if offset < 0 {
        if allocator.heapSize != 0 {
          AloneStep(p, size, s, allocator.page);
          if Lost(g) { leaked := leaked + {Buffer(g.offset, size, NO_FD)}; }
        }
        return -ENOMEM, base, buffer;
      }
      AloneStep(p, size, s, allocator.page);
      err := OpenSubHeap(s);
      if err < 0 {
        err := -s.errno;
        var r := allocator.Deallocate(offset);
      } else {
        base, buffer := masterBase, Some(Buffer(offset, size, s.fd));
        held := held + {buffer.value};
      }
    }

    method FreePmemBuffer(size: nat, offset: nat, fd: int, unmapErr: int) returns (err: int)
      requires allocator.Linked() && allocator.heapSize != 0 && Buffer(offset, size, fd) in held
      modifies this, allocator, allocator.list, allocator.list.repr
      ensures allocator.Linked() && err == 0 && (old(Safe(Now(), allocator.page)) ==> Safe(Now(), allocator.page))
      ensures Now() == old(Now()).(pool := FreeStep(old(Now()).pool, Buffer(offset, size, fd), unmapErr))
    {
      err := 0;
      ghost var b, pool := Buffer(offset, size, fd), Now().pool;
      if Safe(Now(), allocator.page) {
        FreeKeepsInv(pool, b, unmapErr, allocator.heapSize / UNIT, allocator.page);
      }
      if fd >= 0 {
        held := held - {b};
        if unmapErr == 0 {
          var r := allocator.Deallocate(offset);
        } else {
          stranded := stranded + {b};
        }
      }
    }
  }
}
