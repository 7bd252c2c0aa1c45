/** SimpleBestFitAllocator on its linked chunks, each operation proved equal to its
    description on sequences in HeapSpec. */
module BestFitAllocator {
  import opened Arithmetic
  import opened Extents
  import opened HeapSpec
  import opened ChunkList

  const EINVAL: int := 22
  const ENOENT: int := 2

  /** The nodes hold, in order, the chunks c. */
  ghost predicate Shows(nodes: seq<Chunk>, c: seq<Extent>)
    reads nodes`start, nodes`size, nodes`free
  {
    |c| == |nodes| &&
    forall i :: 0 <= i < |c| ==> c[i] == Extent(nodes[i].start, nodes[i].size, nodes[i].free)
  }

  /** One round of the scan: the best fit so far, or chunk k if that is better. */
  lemma BestFitStep(c: seq<Extent>, k: nat, units: nat, page: nat, best: Option<nat>)
    requires page > 0 && k < |c| && BestFit(c[..k], units, page) == best
    ensures best.Some? ==> best.value < k
    ensures BestFit(c[..k + 1], units, page)
            == if Fits(c[k], units, page) && (best.None? || c[k].size < c[best.value].size) then Some(k) else best
  {
    assert c[..k + 1][..k] == c[..k];
  }

  /** The first chunk that is an exact match is the best fit: stopping there loses nothing. */
  lemma ExactIsBest(c: seq<Extent>, k: nat, units: nat, page: nat, best: Option<nat>)
    requires page > 0 && k < |c| && Fits(c[k], units, page) && c[k].size == units
    requires BestFit(c[..k], units, page) == best && (best.Some? ==> c[best.value].size > units)
    ensures BestFit(c, units, page) == Some(k)
  {
    var r := BestFit(c, units, page);
    assert r.Some? && Fits(c[r.value], units, page) && c[r.value].size == units && r.value <= k;
  }

  lemma FindFails(c: seq<Extent>, s: nat)
    requires forall j :: 0 <= j < |c| ==> c[j].start != s
    ensures Find(c, s) == None
  {
  }

  lemma RoundedIsNat(a: nat, b: nat)
    requires b > 0
    ensures a / b >= 0 && a / b * b >= 0
  {
    var q := a / b;
    assert a == b * q + a % b;
    if q < 0 { Multiple(b, q); }
  }

  /** A heap size rounded up to whole pages in size_t arithmetic. */
  function PageRound(size: nat, page: nat): nat
    requires page > 0
  {
    RoundedIsNat((size + UNIT * page - 1) % WORD, UNIT * page);
    (size + UNIT * page - 1) % WORD / (UNIT * page) * (UNIT * page)
  }

  predicate HeapFits(size: nat, page: nat) { 0 < size && size + UNIT * page - 1 < WORD }

  /** Rounding up to a multiple of b in size_t arithmetic. */
  lemma PageRounding(size: nat, b: nat, q: nat)
    requires 0 < b <= WORD && size < WORD
    requires q == (size + b - 1) % WORD / b
    ensures 0 < size && size + b - 1 < WORD ==> size <= q * b < size + b
    ensures size == 0 || size + b - 1 >= WORD ==> q == 0
  {
    var m := (size + b - 1) % WORD;
    assert m == b * q + m % b;
    if size + b - 1 < WORD {
      assert m == size + b - 1;
    } else {
      assert m == size + b - 1 - WORD;
    }
  }

  /** The rounded size is whole pages; it is at least the size if that fits, and 0 if not. */
  lemma HeapRounding(size: nat, page: nat)
    requires page > 0 && WORD % (UNIT * page) == 0 && size < WORD
    ensures var h := PageRound(size, page);
            && h % UNIT == 0 && h % (UNIT * page) == 0 && h < WORD
            && (if HeapFits(size, page) then size <= h < size + UNIT * page else h == 0)
  {
    var b := UNIT * page;
    var m := (size + b - 1) % WORD;
    assert m == b * (m / b) + m % b;
    DivisorFits(b);
    PageRounding(size, b, m / b);
    WholeUnits(m / b, page);
    assert m / b * b == b * (m / b);
    Remainder(m / b * b, b, m / b, 0);
  }

  /** With pages of 4096 bytes, a heap of nearly 4 GiB is rounded to nothing, and a chunk without
      units is no heap. */
  lemma HeapExample()
    ensures !HeapFits(0xFFFF_FFFF, 128) && PageRound(0xFFFF_FFFF, 128) == 0 && PageRound(0, 128) == 0
    ensures HeapFits(0xFFFF_F000, 128) && PageRound(0xFFFF_F000, 128) == 0xFFFF_F000
    ensures !WellFormed([Extent(0, 0, true)], 0, 128)
  {
    assert [Extent(0, 0, true)][0].size == 0;
  }

  lemma WholeUnits(q: nat, page: nat)
    ensures (q * (UNIT * page)) % UNIT == 0
  {
    assert q * (UNIT * page) == UNIT * (q * page);
  }

  lemma DivisorFits(b: nat)
    requires b > 0 && WORD % b == 0
    ensures b <= WORD
  {
  }

  /** insertBefore of a fresh free chunk, seen on the chunks. */
  method PutBefore(list: LinkedList, node: Chunk, start: nat, size: nat, ghost k: nat, ghost c: seq<Extent>)
    returns (split: Chunk)
    requires list.Valid() && k < |list.nodes| && list.nodes[k] == node && Shows(list.nodes, c)
    modifies list, list.repr`prev, list.repr`next
    ensures list.Valid() && Shows(list.nodes, c[..k] + [Extent(start, size, true)] + c[k..])
    ensures fresh(split) && list.repr == old(list.repr) + {split}
    ensures list.nodes == old(list.nodes[..k]) + [split] + old(list.nodes[k..])
  {
    split := new Chunk(start, size);
    list.InsertBefore(node, split, k);
  }

  method PutAfter(list: LinkedList, node: Chunk, start: nat, size: nat, ghost k: nat, ghost c: seq<Extent>)
    returns (split: Chunk)
    requires list.Valid() && k < |list.nodes| && list.nodes[k] == node && Shows(list.nodes, c)
    modifies list, list.repr`prev, list.repr`next
    ensures list.Valid() && Shows(list.nodes, c[..k + 1] + [Extent(start, size, true)] + c[k + 1..])
    ensures fresh(split) && list.repr == old(list.repr) + {split}
    ensures list.nodes == old(list.nodes[..k + 1]) + [split] + old(list.nodes[k + 1..])
  {
    split := new Chunk(start, size);
    list.InsertAfter(node, split, k);
  }

  /** Chunk i moved up by `extra` units, with a free chunk put in front if there are any. */
  function Padding(c: seq<Extent>, i: nat, extra: nat): seq<Extent>
    requires i < |c|
  {
    c[..i] + Piece(c[i].start, extra) + [c[i].(start := c[i].start + extra)] + c[i + 1..]
  }

  /** A free chunk of `rest` units, if there are any, put behind chunk i. */
  function Trimming(c: seq<Extent>, i: nat, rest: nat): seq<Extent>
    requires i < |c|
  {
    c[..i + 1] + Piece(c[i].End(), rest) + c[i + 1..]
  }

  lemma CarvedInTwoCuts(c: seq<Extent>, i: nat, units: nat, page: nat)
    requires page > 0 && i < |c| && Fits(c[i], units, page)
    ensures var extra := Extra(c[i].start, page);
            var d := Padding(c[i := Extent(c[i].start, units, false)], i, extra);
            Trimming(d, i + Padded(c[i].start, page), c[i].size - (units + extra)) == Carve(c, i, units, page)
  {
    var extra := Extra(c[i].start, page);
    var at := Extent(c[i].start + extra, units, false);
    var d := Padding(c[i := Extent(c[i].start, units, false)], i, extra);
    var k := i + Padded(c[i].start, page);
    assert d == c[..i] + Piece(c[i].start, extra) + [at] + c[i + 1..];
    assert d[..k + 1] == c[..i] + Piece(c[i].start, extra) + [at] && d[k + 1..] == c[i + 1..];
  }

  lemma CarvedWhole(c: seq<Extent>, i: nat, page: nat)
    requires page > 0 && i < |c| && Fits(c[i], c[i].size, page)
    ensures Extra(c[i].start, page) == 0
    ensures Carve(c, i, c[i].size, page) == c[i := Extent(c[i].start, c[i].size, false)]
  {
  }

  lemma PaddedInFront(c: seq<Extent>, i: nat, extra: nat)
    requires i < |c| && extra > 0
    ensures var d := c[i := c[i].(start := c[i].start + extra)];
            d[..i] + [Extent(c[i].start, extra, true)] + d[i..] == Padding(c, i, extra)
  {
    var d := c[i := c[i].(start := c[i].start + extra)];
    assert d[..i] == c[..i] && d[i..] == [d[i]] + c[i + 1..];
  }

  /** Moves chunk i up. */
  method MoveUp(list: LinkedList, node: Chunk, extra: nat, ghost i: nat, ghost c: seq<Extent>)
    requires list.Valid() && i < |list.nodes| && list.nodes[i] == node && Shows(list.nodes, c)
    modifies node`start
    ensures list.Valid() && Shows(list.nodes, c[i := c[i].(start := c[i].start + extra)])
    ensures node.start == old(node.start) + extra
  {
    node.start := node.start + extra;
  }

  method Pad(list: LinkedList, node: Chunk, extra: nat, ghost i: nat, ghost c: seq<Extent>) returns (ghost k: nat)
    requires list.Valid() && i < |list.nodes| && list.nodes[i] == node && Shows(list.nodes, c)
    modifies list, list.repr
    ensures list.Valid() && Shows(list.nodes, Padding(c, i, extra))
    ensures k == (if extra > 0 then i + 1 else i) && k < |list.nodes| && list.nodes[k] == node
    ensures node.start == old(node.start) + extra
    ensures fresh(list.repr - old(list.repr))
  {
    k := i;
    if extra != 0 {
      MoveUp(list, node, extra, i, c);
      ghost var d := c[i := c[i].(start := c[i].start + extra)];
      var split := PutBefore(list, node, node.start - extra, extra, i, d);
      PaddedInFront(c, i, extra);
      k := i + 1;
    }
  }

  method Trim(list: LinkedList, node: Chunk, rest: nat, ghost i: nat, ghost c: seq<Extent>)
    requires list.Valid() && i < |list.nodes| && list.nodes[i] == node && Shows(list.nodes, c)
    modifies list, list.repr
    ensures list.Valid() && Shows(list.nodes, Trimming(c, i, rest)) && node.start == old(node.start)
    ensures fresh(list.repr - old(list.repr))
  {
    if rest > 0 {
      var split := PutAfter(list, node, node.start + node.size, rest, i, c);
    }
  }

  /** Splits what the allocation at chunk i does not need off a chunk that was bigger. */
  method SplitNode(list: LinkedList, node: Chunk, freeSize: nat, page: nat, ghost i: nat, ghost c: seq<Extent>)
    requires list.Valid() && i < |list.nodes| && list.nodes[i] == node
    requires page > 0 && i < |c| && Fits(c[i], node.size, page) && freeSize == c[i].size
    requires Shows(list.nodes, c[i := Extent(c[i].start, node.size, false)])
    modifies list, list.repr
    ensures list.Valid() && Shows(list.nodes, Carve(c, i, old(node.size), page))
    ensures fresh(list.repr - old(list.repr)) && node.start == old(node.start + Extra(node.start, page))
  {
    if freeSize > node.size {
      CarvedInTwoCuts(c, i, node.size, page);
      var extra := Extra(node.start, page);
      PadAndTrim(list, node, extra, freeSize - (node.size + extra), i,
                 c[i := Extent(c[i].start, node.size, false)], Carve(c, i, node.size, page));
    } else {
      CarvedWhole(c, i, page);
    }
  }

  /** Pads in front of chunk i and puts the rest of a split chunk behind it. */
  method PadAndTrim(list: LinkedList, node: Chunk, extra: nat, rest: nat,
                    ghost i: nat, ghost c: seq<Extent>, ghost goal: seq<Extent>)
    requires list.Valid() && i < |list.nodes| && list.nodes[i] == node && Shows(list.nodes, c)
    requires goal == Trimming(Padding(c, i, extra), if extra > 0 then i + 1 else i, rest)
    modifies list, list.repr
    ensures list.Valid() && Shows(list.nodes, goal) && fresh(list.repr - old(list.repr))
    ensures node.start == old(node.start) + extra
  {
    ghost var k := Pad(list, node, extra, i, c);
    assert node.start == old(node.start) + extra;
    Trim(list, node, rest, k, Padding(c, i, extra));
  }

  /** Overwrites size and free flag of chunk i. */
  method Mark(list: LinkedList, node: Chunk, size: nat, free: bool, ghost i: nat, ghost c: seq<Extent>)
    requires list.Valid() && i < |list.nodes| && list.nodes[i] == node && Shows(list.nodes, c)
    modifies node`size, node`free
    ensures list.Valid() && Shows(list.nodes, c[i := Extent(c[i].start, size, free)])
  {
    node.size, node.free := size, free;
  }

  /** One round of dealloc's merge loop at chunk j; n is the chunk the next round looks at. */
  method MergeRound(list: LinkedList, cur: Chunk, ghost j: nat, ghost c: seq<Extent>)
    returns (n: Chunk?, into: Chunk, ghost next: nat, ghost d: seq<Extent>)
    requires list.Valid() && j < |list.nodes| && list.nodes[j] == cur && Shows(list.nodes, c)
    modifies list, list.repr
    ensures list.Valid() && Shows(list.nodes, d) && list.repr == old(list.repr)
    ensures next <= |d| && n == (if next < |d| then list.nodes[next] else null)
    ensures MergeFrom(c, j) == if n != null && n.free then MergeFrom(d, next) else d
    ensures |d| - next < |c| - j
  {
    assert list.Linked(j);
    MergeOnce(c, j);
    var p := cur.prev;
    n := cur.next;
    into := cur;
    if p != null && (p.free || cur.size == 0) {
      into := p;
      FoldNode(list, cur, p, j, c);
      d, next := FoldLeft(c, j), j;
    } else {
      d, next := c, j + 1;
    }
  }

  /** Adds chunk k to its left neighbour and unlinks it. */
  method FoldNode(list: LinkedList, cur: Chunk, p: Chunk, ghost k: nat, ghost c: seq<Extent>)
    requires list.Valid() && 0 < k < |list.nodes| && list.nodes[k] == cur && list.nodes[k - 1] == p
    requires Shows(list.nodes, c)
    modifies list, list.repr
    ensures list.Valid() && list.nodes == old(list.nodes[..k] + list.nodes[k + 1..]) && list.repr == old(list.repr)
    ensures Shows(list.nodes, FoldLeft(c, k))
  {
    p.size := p.size + cur.size;
    list.Remove(cur, k);
  }

  class SimpleBestFitAllocator {
    /** getpagesize() in units. */
    const page: nat
    const list: LinkedList
    var heapSize: nat
    /** What the list holds. */
    ghost var chunks: seq<Extent>

    /** The nodes are linked as the list should be and hold the chunks; this much every
        operation keeps. */
    ghost predicate Linked()
      reads this, list, list.repr
    {
      && page > 0 && WORD % (UNIT * page) == 0
      && list.Valid() && Shows(list.nodes, chunks)
      && heapSize % UNIT == 0 && heapSize < WORD
    }

    ghost predicate Valid()
      reads this, list, list.repr
    {
      Linked() && if heapSize == 0 then chunks == [] else WellFormed(chunks, heapSize / UNIT, page)
    }

    constructor (page: nat)
      requires page > 0 && WORD % (UNIT * page) == 0
      ensures Valid() && heapSize == 0 && this.page == page && fresh(list) && list.repr == {}
    {
      this.page := page;
      list := new LinkedList();
      heapSize, chunks := 0, [];
    }

    /** The heap becomes one free chunk of `size` rounded up to pages; the result is well formed
        exactly when size is not zero and the rounding does not wrap. */
    method SetSize(size: nat) returns (r: int)
      requires Linked() && size < WORD
      modifies this, list, list.repr
      ensures Linked()
      ensures old(heapSize) != 0 ==> r == -EINVAL && heapSize == old(heapSize) && chunks == old(chunks)
      ensures old(heapSize) == 0 ==>
                && r == size && heapSize == PageRound(size, page)
                && chunks == [Extent(0, heapSize / UNIT, true)] + old(chunks)
      ensures old(Valid()) && old(heapSize) == 0 ==> (Valid() <==> HeapFits(size, page))
      ensures fresh(list.repr - old(list.repr))
    {
      if heapSize != 0 {
        return -EINVAL;
      }
      var bytes := UNIT * page;
      heapSize := (size + bytes - 1) % WORD / bytes * bytes;
      assert heapSize == PageRound(size, page);
      HeapRounding(size, page);
      AddHeap();
      r := size;
    }

    /** The heap is put in front of the list as one free chunk. */
    method AddHeap()
      requires list.Valid() && Shows(list.nodes, chunks)
      modifies `chunks, list, list.repr
      ensures list.Valid() && Shows(list.nodes, chunks)
      ensures chunks == [Extent(0, heapSize / UNIT, true)] + old(chunks)
      ensures fresh(list.repr - old(list.repr))
    {
      var node := new Chunk(0, heapSize / UNIT);
      list.InsertHead(node);
      chunks := [Extent(0, heapSize / UNIT, true)] + chunks;
    }

    /** The list stays well formed exactly if no request that wraps is granted. */
    method Allocate(size: nat) returns (r: int)
      requires Linked() && size < WORD
      modifies `chunks, list, list.repr
      ensures Linked()
      ensures heapSize == 0 ==> r == -EINVAL && chunks == old(chunks)
      ensures heapSize != 0 ==>
                var (c, g) := Alloc(old(chunks), size, page);
                chunks == c && r == Returned(g) && (r < 0 <==> g.OutOfMemory? || Lost(g))
      ensures old(Valid()) ==>
                (Valid() <==> !(heapSize != 0 && Wraps(size) && Alloc(old(chunks), size, page).1.Granted?))
      ensures fresh(list.repr - old(list.repr))
    {
      if heapSize == 0 {
        return -EINVAL;
      }
      r := DoAlloc(size);
      if old(Valid()) {
        AllocKeepsWellFormed(old(chunks), heapSize / UNIT, size, page);
      }
    }

    method Deallocate(offset: nat) returns (r: int)
      requires Linked()
      modifies `chunks, list, list.repr
      ensures Linked() && (old(Valid()) ==> Valid())
      ensures heapSize == 0 ==> r == -EINVAL && chunks == old(chunks)
      ensures heapSize != 0 ==> chunks == Dealloc(old(chunks), offset)
      ensures heapSize != 0 ==> r == if Find(old(chunks), offset / UNIT).Some? then 0 else -ENOENT
      ensures list.repr == old(list.repr)
    {
      if heapSize == 0 {
        return -EINVAL;
      }
      var freed := DoDealloc(offset);
      if old(Valid()) {
        DeallocReleases(old(chunks), heapSize / UNIT, offset, page);
      }
      r := if freed != null then 0 else -ENOENT;
    }

    method DoAlloc(size: nat) returns (r: int)
      requires page > 0 && list.Valid() && Shows(list.nodes, chunks) && size < WORD
      modifies `chunks, list, list.repr
      ensures list.Valid() && Shows(list.nodes, chunks)
      ensures var (c, g) := Alloc(old(chunks), size, page);
              chunks == c && r == Returned(g)
      ensures fresh(list.repr - old(list.repr))
    {
      if size == 0 {
        return 0;
      }
      var units := (size + UNIT - 1) % WORD / UNIT;
      var freeChunk: Chunk?;
      ghost var i: nat;
      freeChunk, i := Search(units);
      if freeChunk == null {
        return -ENOMEM;
      }
      ghost var at := chunks[i].start + Extra(chunks[i].start, page);
      CarveNode(freeChunk, units, i);
      assert freeChunk.start == at;
      r := Signed(UNIT * freeChunk.start % WORD);
    }

    /** The best-fit scan, stopping early on an exact size match. */
    method Search(units: nat) returns (freeChunk: Chunk?, ghost i: nat)
      requires page > 0 && list.Valid() && Shows(list.nodes, chunks)
      ensures freeChunk == null ==> BestFit(chunks, units, page) == None
      ensures freeChunk != null ==>
                BestFit(chunks, units, page) == Some(i) && i < |list.nodes| && list.nodes[i] == freeChunk
    {
      ghost var k, best: Option<nat> := 0, None;
      freeChunk, i := null, 0;
      var cur := list.mFirst;
      assert chunks[..0] == [];
      while cur != null
        invariant k <= |chunks| && cur == (if k == |chunks| then null else list.nodes[k])
        invariant BestFit(chunks[..k], units, page) == best && (freeChunk == null <==> best.None?)
        invariant best.Some? ==> best.value < k && list.nodes[best.value] == freeChunk
        invariant best.Some? ==> chunks[best.value].size > units
        decreases |chunks| - k
      {
        assert list.Linked(k);
        BestFitStep(chunks, k, units, page, best);
        ghost var was := best;
        var extra := Extra(cur.start, page);
        if cur.free && cur.size >= units + extra {
          if freeChunk == null || cur.size < freeChunk.size {
            freeChunk, best := cur, Some(k);
          }
          if cur.size == units {
            ExactIsBest(chunks, k, units, page, was);
            return freeChunk, k;
          }
        }
        cur := cur.next;
        k := k + 1;
      }
      assert chunks[..k] == chunks;
      if best.Some? { i := best.value; }
    }

    /** Takes the allocation out of the chosen chunk: padding before it, remainder after it. */
    method CarveNode(freeChunk: Chunk, units: nat, ghost i: nat)
      requires page > 0 && list.Valid() && Shows(list.nodes, chunks)
      requires i < |list.nodes| && list.nodes[i] == freeChunk && Fits(chunks[i], units, page)
      modifies `chunks, list, list.repr
      ensures list.Valid() && Shows(list.nodes, chunks) && chunks == Carve(old(chunks), i, units, page)
      ensures freeChunk.start == old(freeChunk.start + Extra(freeChunk.start, page))
      ensures fresh(list.repr - old(list.repr))
    {
      ghost var c := chunks;
      var freeSize := freeChunk.size;
      Mark(list, freeChunk, units, false, i, c);
      SplitNode(list, freeChunk, freeSize, page, i, c);
      chunks := Carve(c, i, units, page);
    }

    /** Finds the chunk, marks it free, and merges rightwards while the next chunk is free. */
    method DoDealloc(offset: nat) returns (freed: Chunk?)
      requires list.Valid() && Shows(list.nodes, chunks)
      modifies `chunks, list, list.repr
      ensures list.Valid() && Shows(list.nodes, chunks) && chunks == Dealloc(old(chunks), offset)
      ensures freed != null <==> Find(old(chunks), offset / UNIT).Some?
      ensures list.repr == old(list.repr)
    {
      var start := offset / UNIT;
      ghost var k := 0;
      var cur := list.mFirst;
      while cur != null
        invariant k <= |chunks| && cur == (if k == |chunks| then null else list.nodes[k])
        invariant forall j :: 0 <= j < k ==> chunks[j].start != start
        decreases |chunks| - k
      {
        assert list.Linked(k);
        if cur.start == start {
          FindIsFirst(chunks, start, k);
          freed := MergeNodes(cur, k);
          return;
        }
        cur := cur.next;
        k := k + 1;
      }
      FindFails(chunks, start);
      freed := null;
    }

    method MergeNodes(first: Chunk, ghost i: nat) returns (freed: Chunk)
      requires list.Valid() && Shows(list.nodes, chunks) && i < |list.nodes| && list.nodes[i] == first
      modifies `chunks, list, list.repr
      ensures list.Valid() && Shows(list.nodes, chunks) && chunks == Release(old(chunks), i)
      ensures list.repr == old(list.repr)
    {
      var cur: Chunk? := first;
      freed := first;
      ghost var goal: seq<Extent>, j: nat := Release(chunks, i), i;
      Mark(list, first, first.size, true, i, chunks);
      chunks := chunks[i := chunks[i].(free := true)];
      var more := true;
      while more
        invariant list.Valid() && Shows(list.nodes, chunks) && list.repr == old(list.repr)
        invariant if more then j < |chunks| && cur == list.nodes[j] && MergeFrom(chunks, j) == goal else chunks == goal
        decreases more, |chunks| - j
      {
        var n, into;
        n, into, j, chunks := MergeRound(list, cur, j, chunks);
        if into != cur {
          freed := into;
        }
        cur := n;
        more := cur != null && cur.free;
      }
    }
  }
}
