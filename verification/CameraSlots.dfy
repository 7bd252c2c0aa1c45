/** The camera's allocator: a mapped region cut into equal buffers, one per slot. */
module CameraSlots {
  import opened Arithmetic

  const MAX_SLOT: nat := 64
  const ALIGN: nat := 4096

  // ---------- Slots as values ----------

  /** The number of slots in use. */
  function Count(slots: seq<bool>): nat {
    if slots == [] then 0 else Count(slots[..|slots| - 1]) + if slots[|slots| - 1] then 1 else 0
  }

  /** Every slot in use is one of the first n. */
  ghost predicate Below(slots: seq<bool>, n: nat) {
    forall k :: n <= k < |slots| ==> !slots[k]
  }

  /** k is the first free slot, or the number of slots if none is free. */
  ghost predicate FirstFree(slots: seq<bool>, k: nat) {
    && k <= |slots| && (k < |slots| ==> !slots[k])
    && forall j :: 0 <= j < k ==> slots[j]
  }

  lemma {:induction false} CountBounds(slots: seq<bool>)
    ensures Count(slots) <= |slots|
    ensures Count(slots) == |slots| <==> forall j :: 0 <= j < |slots| ==> slots[j]
  {
    if slots != [] {
      var n := |slots| - 1;
      CountBounds(slots[..n]);
      assert forall j :: 0 <= j < n ==> slots[j] == slots[..n][j];
    }
  }

  lemma {:induction false} CountBelow(slots: seq<bool>, n: nat)
    requires n <= |slots| && Below(slots, n)
    ensures Count(slots) == Count(slots[..n])
  {
    if n == |slots| {
      assert slots[..n] == slots;
    } else {
      var m := |slots| - 1;
      CountBelow(slots[..m], n);
      assert slots[..m][..n] == slots[..n];
    }
  }

  /** Although the search runs over all slots, the one it finds is among the first n exactly
      while fewer than n are in use. */
  lemma FirstFreeInside(slots: seq<bool>, n: nat, k: nat)
    requires n <= |slots| && Below(slots, n) && FirstFree(slots, k)
    ensures k < n <==> Count(slots) < n
  {
    CountBelow(slots, n);
    CountBounds(slots[..n]);
    if k >= n {
      assert forall j :: 0 <= j < n ==> slots[..n][j];
    } else {
      assert !slots[..n][k];
    }
  }

  // ---------- Addresses ----------

  function Address(base: nat, size: int, k: nat): int { base + k * size }

  /** What deAllocate's unsigned subtraction and division make of an address. */
  function SlotOf(base: nat, size: int, address: int): (r: nat)
    requires size % WORD != 0
  {
    QuotientIsNat((address - base) % WORD, size % WORD);
    (address - base) % WORD / (size % WORD)
  }

  lemma QuotientIsNat(a: nat, b: nat)
    requires b > 0
    ensures a / b >= 0
  {
  }

  /** The division recovers the slot from any address in its buffer. */
  lemma DivisionRecoversSlot(base: nat, size: nat, k: nat, offset: nat)
    requires 0 < size < WORD && offset < size && Address(base, size, k) + offset < base + WORD
    ensures SlotOf(base, size, Address(base, size, k) + offset) == k
  {
    var d := k * size + offset;
    assert (Address(base, size, k) + offset - base) % WORD == d;
    var q := d / size - k;
    assert size * q == offset - d % size;
    Multiple(size, q);
  }

  /** The buffers of different slots do not overlap. */
  lemma BuffersAreDisjoint(base: nat, size: nat, j: nat, k: nat)
    requires j < k
    ensures Address(base, size, j) + size <= Address(base, size, k)
  {
    assert (j + 1) * size == j * size + size;
    TimesMonotone(j + 1, k, size);
  }

  /** A buffer lies in a region of n buffers exactly if its slot is one of the first n. */
  lemma InsideRegion(base: nat, size: nat, n: nat, k: nat)
    requires size > 0
    ensures Address(base, size, k) + size <= base + n * size <==> k < n
  {
    assert (k + 1) * size == k * size + size;
    if k < n {
      TimesMonotone(k + 1, n, size);
    } else {
      TimesMonotone(n, k, size);
    }
  }

  // ---------- The allocator ----------

  /** mTotalSize: the product of two ints, in 32 bits. */
  function TotalSize(count: int, size: int): nat { count * size % WORD }

  /** mBufSize: an int rounded up to whole pages, which may overflow. */
  function Aligned(size: int): int {
    var a := (size + ALIGN - 1) / ALIGN * ALIGN;
    if a < SIGN then a else a - WORD
  }

  /** The rounded size is the least multiple of a page that is big enough, exactly if the size is
      positive and rounding does not overflow; otherwise it is 0 or negative. */
  lemma AlignedSize(size: int)
    requires -SIGN <= size < SIGN
    ensures Aligned(size) % ALIGN == 0 && -SIGN <= Aligned(size) < SIGN
    ensures if 0 < size && size + ALIGN - 1 < SIGN then size <= Aligned(size) < size + ALIGN else Aligned(size) <= 0
  {
  }

  /** The mapped region holds all the buffers exactly if their product does not wrap. */
  lemma RegionHoldsBuffers(count: nat, size: nat)
    ensures count * size <= TotalSize(count, size) <==> count * size < WORD
  {
  }

  /** Three buffers of 0x55556000 bytes pass for 8192 bytes, in which not even one of them fits. */
  lemma WrappedTotal(base: nat)
    ensures TotalSize(3, 0x5555_6000) == 8192 && 0x5555_6000 % ALIGN == 0
    ensures forall k: nat :: Address(base, 0x5555_6000, k) + 0x5555_6000 > base + 8192
  {
    forall k: nat
      ensures Address(base, 0x5555_6000, k) >= base
    {
    }
  }

  datatype DmaBuffer = DmaBuffer(virtStart: int, phyOffset: int, length: int)

  datatype Result = NoError(buffer: DmaBuffer) | BadParam

  class PmemAllocator {
    const bufCount: int
    const bufSize: int
    const virBase: nat
    const phyBase: nat
    const slotAllocated: array<bool>

    ghost predicate Valid() {
      slotAllocated.Length == MAX_SLOT && (virBase != 0 ==> bufSize % ALIGN == 0 && -SIGN <= bufSize < SIGN)
    }

    /** openOk, sizeOk and physOk are the outcomes of the device calls; regionLen is what the
        device has; a mapping at 0 stands for one that failed. */
    constructor (count: int, size: int, openOk: bool, sizeOk: bool, regionLen: nat,
                 mapping: nat, physOk: bool, phy: nat)
      requires -SIGN <= size < SIGN
      ensures Valid() && fresh(slotAllocated) && bufCount == count
      ensures 0 < size && size + ALIGN - 1 < SIGN ==> size <= bufSize < size + ALIGN
      ensures virBase != 0 ==> (bufSize > 0 <==> 0 < size && size + ALIGN - 1 < SIGN)
      ensures forall k :: 0 <= k < MAX_SLOT ==> !slotAllocated[k]
      ensures if virBase != 0 then virBase == mapping && phyBase == phy else phyBase == 0
      ensures virBase != 0 <==>
              openOk && sizeOk && TotalSize(count, bufSize) <= regionLen && count <= MAX_SLOT && mapping != 0 && physOk
    {
      bufCount := count;
      AlignedSize(size);
      var aligned := Aligned(size);
      var total := TotalSize(count, aligned);
      bufSize := if openOk && sizeOk then aligned else size;
      var usable := openOk && sizeOk && total <= regionLen && count <= MAX_SLOT && mapping != 0 && physOk;
      virBase := if usable then mapping else 0;
      phyBase := if usable then phy else 0;
      slotAllocated := new bool[MAX_SLOT](_ => false);
    }

    method Allocate(size: int) returns (r: Result)
      requires Valid()
      modifies slotAllocated
      ensures virBase == 0 || size > bufSize || (forall k :: 0 <= k < MAX_SLOT ==> old(slotAllocated[k])) ==>
                r == BadParam && slotAllocated[..] == old(slotAllocated[..])
      ensures virBase != 0 && size <= bufSize ==>
                forall k: nat :: k < MAX_SLOT && FirstFree(old(slotAllocated[..]), k) ==>
                  && r == NoError(DmaBuffer(Address(virBase, bufSize, k), Address(phyBase, bufSize, k), bufSize))
                  && slotAllocated[..] == old(slotAllocated[..])[k := true]
    {
      if virBase == 0 || size > bufSize { return BadParam; }
      var index := 0;
      ghost var was := slotAllocated[..];
      while index < MAX_SLOT
        invariant 0 <= index <= MAX_SLOT && slotAllocated[..] == was
        invariant forall j :: 0 <= j < index ==> was[j]
      {
        if !slotAllocated[index] {
          slotAllocated[index] := true;
          return NoError(DmaBuffer(virBase + index * bufSize, phyBase + index * bufSize, bufSize));
        }
        index := index + 1;
      }
      return BadParam;
    }

    method DeAllocate(virtStart: nat) returns (ok: bool)
      requires Valid() && (virBase != 0 ==> bufSize != 0)
      modifies slotAllocated
      ensures virBase == 0 ==> !ok && slotAllocated[..] == old(slotAllocated[..])
      ensures virBase != 0 ==>
              var k, was := SlotOf(virBase, bufSize, virtStart), old(slotAllocated[..]);
              && ok == (k < MAX_SLOT && was[k])
              && slotAllocated[..] == if ok then was[k := false] else was
    {
      if virBase == 0 { return false; }
      var slot := (virtStart - virBase) % WORD / (bufSize % WORD);
      assert slot == SlotOf(virBase, bufSize, virtStart);
      if slot < MAX_SLOT && slotAllocated[slot] {
        slotAllocated[slot] := false;
        return true;
      }
      return false;
    }
  }

  // ---------- Runs ----------

  datatype Op = Take(slot: nat) | Give(slot: nat)

  /** Buffers are taken by the search while fewer than n are outstanding, and given back once. */
  ghost predicate Legal(slots: seq<bool>, n: nat, op: Op) {
    match op
    case Take(k) => k < |slots| && FirstFree(slots, k) && Count(slots) < n
    case Give(k) => k < |slots| && slots[k]
  }

  function Next(slots: seq<bool>, op: Op): seq<bool>
    requires op.slot < |slots|
  {
    slots[op.slot := op.Take?]
  }

  ghost predicate LegalRun(slots: seq<bool>, n: nat, ops: seq<Op>)
    decreases |ops|
  {
    ops == [] || (Legal(slots, n, ops[0]) && LegalRun(Next(slots, ops[0]), n, ops[1..]))
  }

  /** The slots in use after a run. */
  ghost function After(slots: seq<bool>, n: nat, ops: seq<Op>): seq<bool>
    requires LegalRun(slots, n, ops)
    decreases |ops|
  {
    if ops == [] then slots else After(Next(slots, ops[0]), n, ops[1..])
  }

  /** Over every run, all slots in use, and the one the next search finds while fewer than n are
      in use, are among the first n, so that their buffers are inside the mapped region. */
  lemma {:induction false} EveryRunStaysInside(slots: seq<bool>, n: nat, ops: seq<Op>, k: nat)
    requires n <= |slots| && Below(slots, n) && LegalRun(slots, n, ops)
    requires FirstFree(After(slots, n, ops), k)
    ensures Below(After(slots, n, ops), n) && |After(slots, n, ops)| == |slots|
    ensures k < n <==> Count(After(slots, n, ops)) < n
    decreases |ops|
  {
    if ops == [] {
      FirstFreeInside(slots, n, k);
    } else {
      if ops[0].Take? { FirstFreeInside(slots, n, ops[0].slot); }
      EveryRunStaysInside(Next(slots, ops[0]), n, ops[1..], k);
    }
  }
}
