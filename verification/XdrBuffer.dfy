/** The message buffers of an XDR handle and the primitives that move its cursors. */
module XdrBuffer {
  import opened Arithmetic

  type uint8 = b: int | 0 <= b < 0x100

  /** RPCROUTER_MSGSIZE_MAX */
  const MAX: nat := 2048

  /** No object in memory is this large: mem_alloc gives none. */
  const LIMIT: nat := 0x7fff_f000

  // ---------- Words ----------

  /** The n low bytes of w, most significant first. */
  function BigEndian(w: nat, n: nat): (b: seq<uint8>)
    ensures |b| == n
  {
    if n == 0 then [] else BigEndian(w / 0x100, n - 1) + [w % 0x100]
  }

  /** The number that bytes stand for, most significant first. */
  function Value(b: seq<uint8>): nat {
    if b == [] then 0 else Value(b[..|b| - 1]) * 0x100 + b[|b| - 1]
  }

  function Power(n: nat): nat {
    if n == 0 then 1 else 0x100 * Power(n - 1)
  }

  lemma {:induction false} ValueBound(b: seq<uint8>)
    ensures Value(b) < Power(|b|)
  {
    if b != [] { ValueBound(b[..|b| - 1]); }
  }

  lemma {:induction false} BigEndianRoundTrip(w: nat, n: nat)
    requires w < Power(n)
    ensures Value(BigEndian(w, n)) == w
  {
    if n > 0 {
      BigEndianRoundTrip(w / 0x100, n - 1);
      assert BigEndian(w, n)[..n - 1] == BigEndian(w / 0x100, n - 1);
    }
  }

  lemma {:induction false} ValueRoundTrip(b: seq<uint8>)
    ensures BigEndian(Value(b), |b|) == b
  {
    if b != [] {
      var n := |b| - 1;
      ValueRoundTrip(b[..n]);
      assert Value(b) / 0x100 == Value(b[..n]) && Value(b) % 0x100 == b[n];
      assert b == b[..n] + [b[n]];
    }
  }

  /** The bytes of a number are those of its high part and those of its low part. */
  lemma {:induction false} BigEndianJoins(high: nat, low: nat, a: nat, b: nat)
    requires low < Power(b)
    ensures BigEndian(high * Power(b) + low, a + b) == BigEndian(high, a) + BigEndian(low, b)
  {
    if b > 0 {
      var k := high * Power(b - 1);
      assert high * Power(b) == 0x100 * k;
      BigEndianJoins(high, low / 0x100, a, b - 1);
      assert (0x100 * k + low) / 0x100 == k + low / 0x100 && (0x100 * k + low) % 0x100 == low % 0x100;
    }
  }

  lemma FourBytes()
    ensures Power(4) == 0x1_0000_0000
  {
    assert Power(2) == 0x1_0000;
  }

  /** The four bytes of a word (RFC 4506, section 4.2). */
  function Word(w: uint32): (b: seq<uint8>)
    ensures |b| == 4
  {
    BigEndian(w, 4)
  }

  function FromWord(b: seq<uint8>): uint32
    requires |b| == 4
  {
    FourBytes();
    ValueBound(b);
    Value(b)
  }

  lemma WordRoundTrip(w: uint32)
    ensures FromWord(Word(w)) == w
  {
    FourBytes();
    BigEndianRoundTrip(w, 4);
  }

  lemma WordIsBytes(b: seq<uint8>)
    requires |b| == 4
    ensures Word(FromWord(b)) == b
  {
    ValueRoundTrip(b);
  }

  /** Each of the four bytes, and what any four bytes stand for. */
  lemma BytesOfWord(w: uint32)
    ensures Word(w) == [w / 0x100_0000, w / 0x1_0000 % 0x100, w / 0x100 % 0x100, w % 0x100]
  {
    var w1, w2, w3 := w / 0x100, w / 0x100 / 0x100, w / 0x100 / 0x100 / 0x100;
    assert BigEndian(w3, 1) == [w3 % 0x100] by { assert BigEndian(w3 / 0x100, 0) == []; }
    assert BigEndian(w2, 2) == [w3 % 0x100, w2 % 0x100];
    assert BigEndian(w1, 3) == [w3 % 0x100, w2 % 0x100, w1 % 0x100];
  }

  lemma WordOfBytes(b: seq<uint8>)
    requires |b| == 4
    ensures FromWord(b) as int == 0x100_0000 * b[0] as int + 0x1_0000 * b[1] as int + 0x100 * b[2] as int + b[3] as int
  {
    assert b[..3][..2] == b[..2] && b[..2][..1] == b[..1] && b[..1][..0] == [];
    assert Value(b[..1]) == b[0];
    assert Value(b[..2]) == 0x100 * b[0] as int + b[1] as int;
    assert Value(b[..3]) == 0x1_0000 * b[0] as int + 0x100 * b[1] as int + b[2] as int;
  }

  function WordAt(msg: seq<uint8>, pos: nat): uint32
    requires pos + 4 <= |msg|
  {
    FromWord(msg[pos..pos + 4])
  }

  // ---------- Padding to whole words ----------

  function Zeros(n: nat): (z: seq<uint8>)
    ensures |z| == n
  {
    seq(n, _ => 0)
  }

  function RoundUp(x: int): (r: int)
    ensures r % 4 == 0 && x <= r < x + 4
  {
    (x + 3) / 4 * 4
  }

  /** Bytes followed by zeros up to a multiple of four (RFC 4506, section 3). */
  function Padded(b: seq<uint8>): (p: seq<uint8>)
    ensures |p| == RoundUp(|b|) && b <= p
  {
    b + Zeros(RoundUp(|b|) - |b|)
  }

  /** The padding is at most three bytes, all of them 0. */
  lemma PaddingIsZero(b: seq<uint8>, i: nat)
    requires |b| <= i < |Padded(b)|
    ensures Padded(b)[i] == 0 && i < |b| + 3
  {
  }

  /** Padding up to a whole word of the buffer is padding up to a whole word of the bytes. */
  lemma PaddingJoins(was: seq<uint8>, b: seq<uint8>)
    requires |was| % 4 == 0
    ensures RoundUp(|was| + |b|) == |was| + |Padded(b)|
    ensures was + b + Zeros(RoundUp(|was| + |b|) - (|was| + |b|)) == was + Padded(b)
  {
    assert was + b + Zeros(RoundUp(|b|) - |b|) == was + (b + Zeros(RoundUp(|b|) - |b|));
  }

  /** A cursor plus a length cast to int, in 32 bits. */
  function IntSum(a: int, w: uint32): int {
    var u := (a + w) % 0x1_0000_0000;
    if u < 0x8000_0000 then u else u - 0x1_0000_0000
  }

  /** It is the int that agrees with the sum modulo 2^32. */
  lemma IntSumAgrees(a: int, w: uint32)
    ensures -SIGN <= IntSum(a, w) < SIGN && (a + w - IntSum(a, w)) % WORD == 0
  {
  }

  lemma IntSumIsExact(a: int, w: uint32)
    requires 0 <= a <= MAX && w < LIMIT
    ensures IntSum(a, w) == a + w
  {
  }

  lemma Joined(a: seq<uint8>, b: seq<uint8>, c: seq<uint8>)
    ensures a + b + c == a + (b + c)
  {
  }

  /** msg has the bytes b at pos. */
  ghost predicate At(msg: seq<uint8>, pos: nat, b: seq<uint8>) {
    pos + |b| <= |msg| && msg[pos..pos + |b|] == b
  }

  lemma AtSplit(msg: seq<uint8>, pos: nat, a: seq<uint8>, b: seq<uint8>)
    requires At(msg, pos, a + b)
    ensures At(msg, pos, a) && At(msg, pos + |a|, b)
  {
    var c := msg[pos..pos + |a + b|];
    assert c[..|a|] == msg[pos..pos + |a|] == a;
    assert c[|a|..] == msg[pos + |a|..pos + |a| + |b|] == b;
  }

  lemma AtWord(msg: seq<uint8>, pos: nat, w: uint32)
    requires At(msg, pos, Word(w))
    ensures pos + 4 <= |msg| && WordAt(msg, pos) == w
  {
    WordRoundTrip(w);
  }

  lemma AtPadded(msg: seq<uint8>, pos: nat, b: seq<uint8>)
    requires At(msg, pos, Padded(b))
    ensures At(msg, pos, b)
  {
    AtSplit(msg, pos, b, Zeros(RoundUp(|b|) - |b|));
  }

  // ---------- Any sequence of sends ----------

  datatype Send = OfWord(w: uint32) | OfBytes(b: seq<uint8>)

  function Piece(s: Send): seq<uint8> { if s.OfWord? then Word(s.w) else Padded(s.b) }

  /** What has been written after one more send: all of its piece, or nothing if that does not fit. */
  function AfterSend(out: seq<uint8>, s: Send): seq<uint8> {
    if |out| + |Piece(s)| <= MAX then out + Piece(s) else out
  }

  function AfterSends(out: seq<uint8>, sends: seq<Send>): seq<uint8>
    decreases |sends|
  {
    if sends == [] then out else AfterSends(AfterSend(out, sends[0]), sends[1..])
  }

  /** Whatever is sent, failed sends included, the cursor stays a multiple of four and within the
      message, and nothing that was written is lost. */
  lemma {:induction false} SendsKeepCursor(out: seq<uint8>, sends: seq<Send>)
    requires |out| % 4 == 0 && |out| <= MAX
    ensures |AfterSends(out, sends)| % 4 == 0 && |AfterSends(out, sends)| <= MAX
    ensures out <= AfterSends(out, sends)
    decreases |sends|
  {
    if sends != [] { SendsKeepCursor(AfterSend(out, sends[0]), sends[1..]); }
  }

  // ---------- The handle ----------

  datatype Op = ENCODE | DECODE

  class Xdr {
    const outMsg: array<uint8>
    const inMsg: array<uint8>
    var op: Op
    var outNext: int
    var inNext: int
    var inLen: int
    var xid: uint32
    var prog: uint32
    var vers: uint32

    ghost predicate Valid()
      reads this`outNext, this`inNext, this`inLen
    {
      && outMsg != inMsg && outMsg.Length == MAX && inMsg.Length == MAX
      && 0 <= outNext <= MAX && outNext % 4 == 0
      && inNext % 4 == 0 && inNext <= MAX && inLen <= MAX
    }

    /** What has been written of the outgoing message. */
    ghost function Sent(): seq<uint8>
      requires Valid()
      reads this`outNext, this`inNext, this`inLen, outMsg
    {
      outMsg[..outNext]
    }

    /** The incoming message. */
    ghost function Received(): seq<uint8>
      requires Valid()
      reads this`outNext, this`inNext, this`inLen, inMsg
    {
      if inLen < 0 then [] else inMsg[..inLen]
    }

    constructor ()
      ensures Valid() && fresh(outMsg) && fresh(inMsg)
      ensures Sent() == [] && Received() == []
    {
      outMsg := new uint8[MAX];
      inMsg := new uint8[MAX];
      op, outNext, inNext, inLen, xid, prog, vers := ENCODE, 0, 0, 0, 0, 0, 0;
    }

    /** xdr_std_send_uint32, and the narrower sends, which widen their argument first. */
    method SendWord(w: uint32) returns (ok: bool)
      requires Valid()
      modifies this`outNext, outMsg
      ensures Valid()
      ensures ok <==> old(outNext) + 4 <= MAX
      ensures ok ==> Sent() == old(Sent()) + Word(w)
      ensures Sent() == AfterSend(old(Sent()), OfWord(w))
    {
      if outNext >= MAX - 3 { return false; }
      var b := Word(w);
      outMsg[outNext], outMsg[outNext + 1] := b[0], b[1];
      outMsg[outNext + 2], outMsg[outNext + 3] := b[2], b[3];
      outNext := outNext + 4;
      return true;
    }

    /** xdr_std_send_bytes */
    method SendBytes(buf: seq<uint8>) returns (ok: bool)
      requires Valid() && |buf| < LIMIT
      modifies this`outNext, outMsg
      ensures Valid()
      ensures ok <==> old(outNext) + |Padded(buf)| <= MAX
      ensures ok ==> Sent() == old(Sent()) + Padded(buf)
      ensures Sent() == AfterSend(old(Sent()), OfBytes(buf))
    {
      if outNext + |buf| > MAX { return false; }
      ghost var was := Sent();
      CopyBytes(buf);
      PadWithZeros();
      PaddingJoins(was, buf);
      return true;
    }

    /** The first loop of xdr_std_send_bytes. */
    method CopyBytes(buf: seq<uint8>)
      requires 0 <= outNext && outNext + |buf| <= MAX && outMsg.Length == MAX
      modifies this`outNext, outMsg
      ensures outNext == old(outNext) + |buf|
      ensures outMsg[..outNext] == old(outMsg[..outNext]) + buf
    {
      ghost var was := outMsg[..outNext];
      var i := 0;
      while i < |buf|
        invariant 0 <= i <= |buf| && outNext == |was| + i
        invariant outMsg[..outNext] == was + buf[..i]
      {
        outMsg[outNext] := buf[i];
        outNext, i := outNext + 1, i + 1;
      }
    }

    /** The second loop of xdr_std_send_bytes. */
    method PadWithZeros()
      requires 0 <= outNext <= MAX && outMsg.Length == MAX
      modifies this`outNext, outMsg
      ensures outNext == RoundUp(old(outNext)) <= MAX
      ensures outMsg[..outNext] == old(outMsg[..outNext]) + Zeros(outNext - old(outNext))
    {
      ghost var was := outMsg[..outNext];
      while outNext % 4 != 0
        invariant |was| <= outNext <= RoundUp(|was|)
        invariant outMsg[..outNext] == was + Zeros(outNext - |was|)
        decreases RoundUp(|was|) - outNext
      {
        outMsg[outNext] := 0;
        outNext := outNext + 1;
      }
    }

    /** xdr_std_recv_uint32 */
    method RecvWord() returns (ok: bool, w: uint32)
      requires Valid() && inNext >= 0
      modifies this`inNext
      ensures Valid() && inNext >= 0
      ensures ok <==> old(inNext) + 4 <= inLen
      ensures ok ==> inNext == old(inNext) + 4 && w == WordAt(Received(), old(inNext))
      ensures !ok ==> inNext == old(inNext)
    {
      if inNext + 4 > inLen { return false, 0; }
      w := FromWord(inMsg[inNext..inNext + 4]);
      assert inMsg[inNext..inNext + 4] == Received()[inNext..inNext + 4];
      inNext := inNext + 4;
      return true, w;
    }

    /** xdr_std_recv_bytes.  The test is a signed one: a length of about 2^31 or more passes it and
        moves the cursor back; what is copied then is not said. */
    method RecvBytes(len: uint32) returns (ok: bool, buf: seq<uint8>)
      requires Valid() && inNext >= 0
      modifies this`inNext
      ensures Valid()
      ensures ok <==> IntSum(old(inNext), len) <= inLen
      ensures inNext == if ok then RoundUp(IntSum(old(inNext), len)) else old(inNext)
      ensures ok && old(inNext) + len <= inLen ==> buf == Received()[old(inNext)..old(inNext) + len]
    {
      var next := IntSum(inNext, len);
      if next > inLen { return false, []; }
      buf := [];
      if inNext + len <= inLen {
        buf := inMsg[inNext..inNext + len];
        assert buf == Received()[inNext..inNext + len];
      }
      inNext := RoundUp(next);
      return true, buf;
    }

    /** xdr_std_msg_start: the transaction number and the message type; type is 0 for a call and
        1 for a reply, and only a call takes a new number. */
    method MsgStart(msgType: uint32)
      requires Valid()
      modifies this`outNext, this`xid, outMsg
      ensures Valid() && xid == if msgType == 0 then (old(xid) + 1) % 0x1_0000_0000 else old(xid)
      ensures Sent() == Word(xid) + Word(msgType)
    {
      if msgType == 0 { xid := (xid + 1) % 0x1_0000_0000; }
      outNext := 0;
      var _ := SendWord(xid);
      var _ := SendWord(msgType);
    }

    /** xdr_std_read; failed is an error of the device.  A packet of less than two words is an
        error too. */
    method Read(packet: seq<uint8>, failed: bool) returns (ok: bool)
      requires Valid() && |packet| <= MAX
      modifies this`inNext, this`inLen, inMsg
      ensures Valid()
      ensures ok <==> !failed && |packet| >= 8
      ensures ok ==> Received() == packet && inNext == 8
      ensures !ok ==> inLen == -1
    {
      inLen := -1;
      if failed { return false; }
      forall i | 0 <= i < |packet| {
        inMsg[i] := packet[i];
      }
      if |packet| < 8 { return false; }
      inLen := |packet|;
      inNext := 8;
      assert inMsg[..inLen] == packet;
      return true;
    }
  }
}
