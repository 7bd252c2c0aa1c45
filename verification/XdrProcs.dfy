/** The codecs themselves: each is one procedure that writes to or reads from an XDR handle, as
    the handle's op says. */
module XdrProcs {
  import opened Arithmetic
  import opened XdrBuffer
  import opened XdrCodec

  /** The fixed lengths in a type are those of objects in memory. */
  predicate Storable(ty: Ty) {
    match ty
    case Opaque(len) => len < LIMIT
    case Vector(_, e) => Storable(e)
    case Array(_, e) => Storable(e)
    case Struct(a, b) => Storable(a) && Storable(b)
    case _ => true
  }

  ghost predicate AllStorable(env: Env) {
    forall k :: Storable(env(k))
  }

  /** What a codec did when encoding: it succeeded exactly if the value was admissible and its
      encoding fitted the buffer; what was written before stays in any case. */
  ghost predicate Put(ok: bool, admissible: bool, before: seq<uint8>, after: seq<uint8>, enc: seq<uint8>) {
    && ok == (admissible && |before| + |enc| <= MAX)
    && before <= after
    && (ok ==> after == before + enc)
  }

  /** What a codec did when decoding: exactly what d says. */
  ghost predicate Took<T>(ok: bool, value: T, next: int, d: Result<T>) {
    ok == d.Got? && (ok ==> value == d.value && next == d.next)
  }

  /** Two codecs in a row, the second run only if the first succeeded. */
  lemma PutBoth(ok: bool, a: bool, b: bool, s0: seq<uint8>, s1: seq<uint8>, s2: seq<uint8>,
                x: seq<uint8>, y: seq<uint8>)
    requires Put(true, a, s0, s1, x) && Put(ok, b, s1, s2, y)
    ensures Put(ok, a && b, s0, s2, x + y)
  {
    assert s0 + x + y == s0 + (x + y);
  }

  /** The state a codec needs and keeps. */
  ghost predicate Ready(xdr: Xdr)
    reads xdr`outNext, xdr`inNext, xdr`inLen
  {
    xdr.Valid() && xdr.inNext >= 0
  }

  /** xdr_u_int, xdr_int, xdr_long, xdr_enum and the like. */
  method XdrUInt(xdr: Xdr, w: uint32) returns (ok: bool, r: uint32)
    requires Ready(xdr)
    modifies xdr`outNext, xdr`inNext, xdr.outMsg
    ensures Ready(xdr)
    ensures xdr.op == ENCODE ==> r == w && xdr.inNext == old(xdr.inNext)
    ensures xdr.op == ENCODE ==> Put(ok, true, old(xdr.Sent()), xdr.Sent(), Word(w))
    ensures xdr.op == DECODE ==> xdr.Sent() == old(xdr.Sent())
    ensures xdr.op == DECODE ==> Took(ok, r, xdr.inNext, TakeWord(xdr.Received(), old(xdr.inNext)))
  {
    match xdr.op
    case ENCODE =>
      r := w;
      ok := xdr.SendWord(w);
    case DECODE =>
      ok, r := xdr.RecvWord();
  }

  /** The codecs of all integers of at most 32 bits. */
  method XdrScalar(xdr: Xdr, width: Width, signed: bool, n: int) returns (ok: bool, r: int)
    requires Ready(xdr)
    modifies xdr`outNext, xdr`inNext, xdr.outMsg
    ensures Ready(xdr)
    ensures xdr.op == ENCODE ==> xdr.inNext == old(xdr.inNext)
    ensures xdr.op == ENCODE ==> Put(ok, true, old(xdr.Sent()), xdr.Sent(), Word(Widen(n)))
    ensures xdr.op == DECODE ==> xdr.Sent() == old(xdr.Sent())
    ensures xdr.op == DECODE ==>
              Took(ok, Num(r), xdr.inNext,
                   AsNum(TakeWord(xdr.Received(), old(xdr.inNext)), Modulus(width), signed))
  {
    var w;
    ok, w := XdrUInt(xdr, Widen(n));
    r := Narrow(w, Modulus(width), signed);
  }

  method XdrHyper(xdr: Xdr, signed: bool, n: int) returns (ok: bool, r: int)
    requires Ready(xdr)
    modifies xdr`outNext, xdr`inNext, xdr.outMsg
    ensures Ready(xdr)
    ensures xdr.op == ENCODE ==> xdr.inNext == old(xdr.inNext)
    ensures xdr.op == ENCODE ==> Put(ok, true, old(xdr.Sent()), xdr.Sent(), Word(High(n)) + Word(Widen(n)))
    ensures xdr.op == DECODE ==> xdr.Sent() == old(xdr.Sent())
    ensures xdr.op == DECODE ==>
              Took(ok, Num(r), xdr.inNext, TakeHyper(xdr.Received(), old(xdr.inNext), signed))
  {
    var t1, t2;
    ok, t1 := XdrUInt(xdr, High(n));
    if !ok { return false, 0; }
    ok, t2 := XdrUInt(xdr, Widen(n));
    var high: int, low: int := t1, t2;
    r := Narrow(high * 0x1_0000_0000 + low, HYPER, signed);
  }

  method XdrBool(xdr: Xdr, b: int) returns (ok: bool, r: int)
    requires Ready(xdr)
    modifies xdr`outNext, xdr`inNext, xdr.outMsg
    ensures Ready(xdr)
    ensures xdr.op == ENCODE ==> xdr.inNext == old(xdr.inNext)
    ensures xdr.op == ENCODE ==> Put(ok, true, old(xdr.Sent()), xdr.Sent(), Word(Flag(b != 0)))
    ensures xdr.op == DECODE ==> xdr.Sent() == old(xdr.Sent())
    ensures xdr.op == DECODE ==>
              var d := TakeWord(xdr.Received(), old(xdr.inNext));
              ok == d.Got? && (ok ==> r == Flag(d.value != 0) && xdr.inNext == d.next)
    ensures xdr.op == ENCODE ==> r == b
  {
    var lb;
    ok, lb := XdrUInt(xdr, Flag(b != 0));
    r := if xdr.op == ENCODE then b else Flag(lb != 0);
  }

  method XdrOpaque(xdr: Xdr, data: seq<uint8>, len: nat) returns (ok: bool, r: seq<uint8>)
    requires Ready(xdr) && len < LIMIT
    requires xdr.op == ENCODE ==> |data| == len
    modifies xdr`outNext, xdr`inNext, xdr.outMsg
    ensures Ready(xdr)
    ensures xdr.op == ENCODE ==> xdr.inNext == old(xdr.inNext)
    ensures xdr.op == ENCODE ==> Put(ok, true, old(xdr.Sent()), xdr.Sent(), Padded(data))
    ensures xdr.op == DECODE ==> xdr.Sent() == old(xdr.Sent())
    ensures xdr.op == DECODE ==>
              Took(ok, r, xdr.inNext,
                   if len == 0 then Got([], old(xdr.inNext)) else TakeBytes(xdr.Received(), old(xdr.inNext), len))
  {
    if len == 0 { return true, []; }
    match xdr.op
    case ENCODE =>
      r := data;
      ok := xdr.SendBytes(data);
    case DECODE =>
      IntSumIsExact(xdr.inNext, len);
      ok, r := xdr.RecvBytes(len);
  }

  /** The length is on the wire before it is compared with the maximum; no memory is given for a
      length of LIMIT or more. */
  method XdrBytes(xdr: Xdr, data: seq<uint8>, max: nat) returns (ok: bool, r: seq<uint8>)
    requires Ready(xdr) && |data| < LIMIT
    modifies xdr`outNext, xdr`inNext, xdr.outMsg
    ensures Ready(xdr)
    ensures xdr.op == ENCODE ==> xdr.inNext == old(xdr.inNext)
    ensures xdr.op == ENCODE ==> Put(ok, |data| <= max, old(xdr.Sent()), xdr.Sent(), Counted(data))
    ensures xdr.op == DECODE ==> xdr.Sent() == old(xdr.Sent())
    ensures xdr.op == DECODE ==>
              Took(ok, r, xdr.inNext, TakeCounted(xdr.Received(), old(xdr.inNext), max))
  {
    match xdr.op
    case ENCODE =>
      r := data;
      ok := xdr.SendWord(|data|);
      ghost var s1 := xdr.Sent();
      if !ok || |data| > max { return false, data; }
      ok := xdr.SendBytes(data);
      PutBoth(ok, true, true, old(xdr.Sent()), s1, xdr.Sent(), Word(|data|), Padded(data));
    case DECODE =>
      var size;
      ok, size := xdr.RecvWord();
      if !ok || size > max { return false, []; }
      if size == 0 { return true, []; }
      if size >= LIMIT { return false, []; }
      IntSumIsExact(xdr.inNext, size);
      ok, r := xdr.RecvBytes(size);
  }

  /** xdr_string; a null pointer cannot be encoded. */
  method XdrString(xdr: Xdr, text: Val, max: nat) returns (ok: bool, r: Val)
    requires Ready(xdr)
    requires xdr.op == ENCODE ==> text.Null? || (text.Data? && |text.bytes| + 1 < LIMIT)
    modifies xdr`outNext, xdr`inNext, xdr.outMsg
    ensures Ready(xdr)
    ensures xdr.op == ENCODE ==> xdr.inNext == old(xdr.inNext)
    ensures xdr.op == ENCODE ==>
              Put(ok, text.Data? && |text.bytes| <= max, old(xdr.Sent()), xdr.Sent(),
                  if text.Data? then Counted(text.bytes) else [])
    ensures xdr.op == DECODE ==> xdr.Sent() == old(xdr.Sent())
    ensures xdr.op == DECODE ==> Took(ok, r, xdr.inNext, TakeText(xdr.Received(), old(xdr.inNext), max))
  {
    if xdr.op == ENCODE && text.Null? { return false, Null; }
    var data := if xdr.op == ENCODE then text.bytes else [];
    var size;
    ok, size := XdrUInt(xdr, |data|);
    ghost var s1 := xdr.Sent();
    if !ok || size > max { return false, Null; }
    var nodeSize := (size + 1) % 0x1_0000_0000;
    if xdr.op == DECODE {
      if nodeSize == 0 { return true, Null; }
      if nodeSize >= LIMIT { return false, Null; }
    }
    ok, data := XdrOpaque(xdr, data, size);
    if xdr.op == ENCODE { PutBoth(ok, true, true, old(xdr.Sent()), s1, xdr.Sent(), Word(size), Padded(text.bytes)); }
    r := Data(data);
  }

  // ---------- Compound codecs ----------

  lemma PutFirstFailed(a: bool, b: bool, s0: seq<uint8>, s1: seq<uint8>, x: seq<uint8>, y: seq<uint8>)
    requires Put(false, a, s0, s1, x)
    ensures Put(false, a && b, s0, s1, x + y)
  {
  }

  /** What every codec promises, for a value v of type ty. */
  twostate predicate Coded(xdr: Xdr, env: Env, ty: Ty, v: Val, ok: bool, r: Val)
    requires old(Ready(xdr)) && Ready(xdr) && (xdr.op == ENCODE ==> HasType(env, ty, v))
    reads xdr, xdr.outMsg, xdr.inMsg
  {
    match xdr.op
    case ENCODE =>
      && xdr.inNext == old(xdr.inNext)
      && Put(ok, Within(env, ty, v), old(xdr.Sent()), xdr.Sent(), Enc(env, ty, v))
    case DECODE =>
      && xdr.Sent() == old(xdr.Sent())
      && Took(ok, r, xdr.inNext, Dec(env, ty, xdr.Received(), old(xdr.inNext)))
  }

  /** A codec procedure for each type. */
  method Code(xdr: Xdr, env: Env, ty: Ty, v: Val) returns (ok: bool, r: Val)
    requires Ready(xdr) && Storable(ty) && AllStorable(env)
    requires xdr.op == ENCODE ==> HasType(env, ty, v)
    modifies xdr`outNext, xdr`inNext, xdr.outMsg
    ensures Ready(xdr) && Coded(xdr, env, ty, v, ok, r)
    decreases if xdr.op == ENCODE then v else Unit, Left(xdr.Received(), xdr.inNext), ty, 1
  {
    match ty
    case Void => return true, Unit;
    case Scalar(w, signed) =>
      var n;
      ok, n := XdrScalar(xdr, w, signed, if xdr.op == ENCODE then v.n else 0);
      r := Num(n);
    case Hyper(signed) =>
      var n;
      ok, n := XdrHyper(xdr, signed, if xdr.op == ENCODE then v.n else 0);
      r := Num(n);
    case Bool =>
      var n;
      ok, n := XdrBool(xdr, if xdr.op == ENCODE then v.n else 0);
      r := Num(n);
    case Opaque(len) =>
      var b;
      ok, b := XdrOpaque(xdr, if xdr.op == ENCODE then v.bytes else [], len);
      r := Data(b);
    case Bytes(max) =>
      var b;
      ok, b := XdrBytes(xdr, if xdr.op == ENCODE then v.bytes else [], max);
      r := Data(b);
    case String(max) => ok, r := XdrString(xdr, v, max);
    case Vector(len, e) => ok, r := XdrVector(xdr, env, len, e, v);
    case Array(max, e) => ok, r := XdrArray(xdr, env, max, e, v);
    case Struct(a, b) => ok, r := XdrStruct(xdr, env, a, b, v);
    case Pointer(k) => ok, r := XdrPointer(xdr, env, k, v);
  }

  lemma PutHalf(env: Env, a: Ty, b: Ty, v: Val, s0: seq<uint8>, s1: seq<uint8>)
    requires HasType(env, Struct(a, b), v)
    requires Put(false, Within(env, a, v.first), s0, s1, Enc(env, a, v.first))
    ensures Put(false, Within(env, Struct(a, b), v), s0, s1, Enc(env, Struct(a, b), v))
  {
    PutFirstFailed(Within(env, a, v.first), Within(env, b, v.second), s0, s1,
                   Enc(env, a, v.first), Enc(env, b, v.second));
  }

  lemma PutPair(env: Env, a: Ty, b: Ty, v: Val, ok: bool, s0: seq<uint8>, s1: seq<uint8>, s2: seq<uint8>)
    requires HasType(env, Struct(a, b), v)
    requires Put(true, Within(env, a, v.first), s0, s1, Enc(env, a, v.first))
    requires Put(ok, Within(env, b, v.second), s1, s2, Enc(env, b, v.second))
    ensures Put(ok, Within(env, Struct(a, b), v), s0, s2, Enc(env, Struct(a, b), v))
  {
    PutBoth(ok, Within(env, a, v.first), Within(env, b, v.second), s0, s1, s2,
            Enc(env, a, v.first), Enc(env, b, v.second));
  }

  lemma DecHalf(env: Env, a: Ty, b: Ty, msg: seq<uint8>, pos: nat)
    requires Dec(env, a, msg, pos) == Fail
    ensures Dec(env, Struct(a, b), msg, pos) == Fail
  {
  }

  lemma DecPair(env: Env, a: Ty, b: Ty, msg: seq<uint8>, pos: nat, x: Val, p: nat)
    requires Dec(env, a, msg, pos) == Got(x, p)
    ensures Dec(env, Struct(a, b), msg, pos) ==
            match Dec(env, b, msg, p)
            case Fail => Fail
            case Got(y, q) => Got(Pair(x, y), q)
  {
  }

  /** Generated structure codecs call the codecs of the parts until one fails. */
  method XdrStruct(xdr: Xdr, env: Env, a: Ty, b: Ty, v: Val) returns (ok: bool, r: Val)
    requires Ready(xdr) && Storable(a) && Storable(b) && AllStorable(env)
    requires xdr.op == ENCODE ==> HasType(env, Struct(a, b), v)
    modifies xdr`outNext, xdr`inNext, xdr.outMsg
    ensures Ready(xdr) && Coded(xdr, env, Struct(a, b), v, ok, r)
    decreases if xdr.op == ENCODE then v else Unit, Left(xdr.Received(), xdr.inNext), Struct(a, b), 0
  {
    var x, y;
    ghost var s0, pos: nat := xdr.Sent(), xdr.inNext;
    ok, x := Code(xdr, env, a, if xdr.op == ENCODE then v.first else Unit);
    ghost var s1 := xdr.Sent();
    if !ok {
      if xdr.op == ENCODE {
        PutHalf(env, a, b, v, s0, s1);
      } else {
        DecHalf(env, a, b, xdr.Received(), pos);
      }
      return false, Unit;
    }
    if xdr.op == DECODE { DecPair(env, a, b, xdr.Received(), pos, x, xdr.inNext); }
    ok, y := Code(xdr, env, b, if xdr.op == ENCODE then v.second else Unit);
    if xdr.op == ENCODE { PutPair(env, a, b, v, ok, s0, s1, xdr.Sent()); }
    r := Pair(x, y);
  }

  lemma PutTarget(env: Env, k: nat, v: Val, ok: bool, s0: seq<uint8>, s1: seq<uint8>, s2: seq<uint8>)
    requires HasType(env, Pointer(k), v) && v.Ref?
    requires Put(true, true, s0, s1, Word(1))
    requires Put(ok, Within(env, env(k), v.target), s1, s2, Enc(env, env(k), v.target))
    ensures Put(ok, Within(env, Pointer(k), v), s0, s2, Enc(env, Pointer(k), v))
  {
    PutBoth(ok, true, Within(env, env(k), v.target), s0, s1, s2, Word(1), Enc(env, env(k), v.target));
  }

  lemma PutFlag(env: Env, k: nat, v: Val, ok: bool, s0: seq<uint8>, s1: seq<uint8>)
    requires HasType(env, Pointer(k), v) && (v.Ref? ==> !ok)
    requires Put(ok, true, s0, s1, Word(Flag(v.Ref?)))
    ensures Put(ok, Within(env, Pointer(k), v), s0, s1, Enc(env, Pointer(k), v))
  {
    var rest := if v.Ref? then Enc(env, env(k), v.target) else [];
    assert Enc(env, Pointer(k), v) == Word(Flag(v.Ref?)) + rest;
    assert v.Null? ==> Word(0) + rest == Word(0);
  }

  /** What decoding a pointer makes of its flag. */
  lemma DecFlag(env: Env, k: nat, msg: seq<uint8>, pos: nat)
    ensures Dec(env, Pointer(k), msg, pos) ==
            match TakeWord(msg, pos)
            case Fail => Fail
            case Got(w, p) =>
              if w == 0 then Got(Null, p) else
              match Dec(env, env(k), msg, p)
              case Fail => Fail
              case Got(x, q) => Got(Ref(x), q)
  {
  }

  method XdrPointer(xdr: Xdr, env: Env, k: nat, v: Val) returns (ok: bool, r: Val)
    requires Ready(xdr) && AllStorable(env)
    requires xdr.op == ENCODE ==> HasType(env, Pointer(k), v)
    modifies xdr`outNext, xdr`inNext, xdr.outMsg
    ensures Ready(xdr) && Coded(xdr, env, Pointer(k), v, ok, r)
    decreases if xdr.op == ENCODE then v else Unit, Left(xdr.Received(), xdr.inNext), Pointer(k), 0
  {
    ghost var s0 := xdr.Sent();
    if xdr.op == DECODE { DecFlag(env, k, xdr.Received(), xdr.inNext); }
    var more := Flag(xdr.op == ENCODE && v.Ref?);
    ok, more := XdrBool(xdr, more);
    ghost var s1 := xdr.Sent();
    if !ok || more == 0 {
      if xdr.op == ENCODE { PutFlag(env, k, v, ok, s0, s1); }
      return ok, Null;
    }
    var x;
    ok, x := Code(xdr, env, env(k), if xdr.op == ENCODE then v.target else Unit);
    if xdr.op == ENCODE { PutTarget(env, k, v, ok, s0, s1, xdr.Sent()); }
    r := Ref(x);
  }

  method XdrVector(xdr: Xdr, env: Env, len: nat, e: Ty, v: Val) returns (ok: bool, r: Val)
    requires Ready(xdr) && Storable(e) && AllStorable(env)
    requires xdr.op == ENCODE ==> HasType(env, Vector(len, e), v)
    modifies xdr`outNext, xdr`inNext, xdr.outMsg
    ensures Ready(xdr) && Coded(xdr, env, Vector(len, e), v, ok, r)
    decreases if xdr.op == ENCODE then v else Unit, Left(xdr.Received(), xdr.inNext), Vector(len, e), 0
  {
    match xdr.op
    case ENCODE =>
      ok := PutElems(xdr, env, e, v);
      r := v;
    case DECODE =>
      var items;
      ok, items := TakeElems(xdr, env, e, len);
      r := Many(items);
  }

  method XdrArray(xdr: Xdr, env: Env, max: nat, e: Ty, v: Val) returns (ok: bool, r: Val)
    requires Ready(xdr) && Storable(e) && AllStorable(env)
    requires xdr.op == ENCODE ==> HasType(env, Array(max, e), v)
    modifies xdr`outNext, xdr`inNext, xdr.outMsg
    ensures Ready(xdr) && Coded(xdr, env, Array(max, e), v, ok, r)
    decreases if xdr.op == ENCODE then v else Unit, Left(xdr.Received(), xdr.inNext), Array(max, e), 0
  {
    var c;
    ok, c := XdrUInt(xdr, if xdr.op == ENCODE then |v.items| else 0);
    if !ok || c > max { return false, Unit; }
    match xdr.op
    case ENCODE =>
      ghost var s1 := xdr.Sent();
      ok := PutElems(xdr, env, e, v);
      PutBoth(ok, true, AllWithin(env, e, v.items), old(xdr.Sent()), s1, xdr.Sent(),
              Word(|v.items|), EncAll(env, e, v.items));
      r := v;
    case DECODE =>
      var items;
      ok, items := TakeElems(xdr, env, e, c);
      r := Many(items);
  }

  ghost predicate AllWithin(env: Env, e: Ty, items: seq<Val>)
    requires forall x | x in items :: HasType(env, e, x)
  {
    forall x | x in items :: Within(env, e, x)
  }

  lemma NextElem(env: Env, e: Ty, items: seq<Val>, i: nat)
    requires i < |items| && forall x | x in items :: HasType(env, e, x)
    ensures EncAll(env, e, items[i..]) == Enc(env, e, items[i]) + EncAll(env, e, items[i + 1..])
  {
    assert items[i..][1..] == items[i + 1..];
  }

  lemma WithinSplit(env: Env, e: Ty, items: seq<Val>, i: nat)
    requires i < |items| && forall x | x in items :: HasType(env, e, x)
    ensures AllWithin(env, e, items[..i + 1]) == (AllWithin(env, e, items[..i]) && Within(env, e, items[i]))
    ensures AllWithin(env, e, items) == (AllWithin(env, e, items[..i + 1]) && AllWithin(env, e, items[i + 1..]))
  {
    assert items[..i + 1] == items[..i] + [items[i]];
    assert items == items[..i + 1] + items[i + 1..];
  }

  lemma PutNext(ok: bool, a: bool, b: bool, c: bool, s0: seq<uint8>, s1: seq<uint8>, s2: seq<uint8>,
                done: seq<uint8>, enc: seq<uint8>, rest: seq<uint8>)
    requires Put(true, a, s0, s1, done) && Put(ok, b, s1, s2, enc)
    ensures done + enc + rest == done + (enc + rest)
    ensures ok ==> Put(true, a && b, s0, s2, done + enc)
    ensures !ok ==> Put(false, a && b && c, s0, s2, done + (enc + rest))
  {
    PutBoth(ok, a, b, s0, s1, s2, done, enc);
    if !ok { PutFirstFailed(a && b, c, s0, s2, done + enc, rest); }
    assert done + enc + rest == done + (enc + rest);
  }

  /** One round of the loop below: element i is encoded after the ones before it. */
  lemma PutElem(env: Env, e: Ty, items: seq<Val>, i: nat, ok: bool,
                s0: seq<uint8>, s1: seq<uint8>, s2: seq<uint8>, done: seq<uint8>)
    requires i < |items| && forall x | x in items :: HasType(env, e, x)
    requires done + EncAll(env, e, items[i..]) == EncAll(env, e, items)
    requires Put(true, AllWithin(env, e, items[..i]), s0, s1, done)
    requires Put(ok, Within(env, e, items[i]), s1, s2, Enc(env, e, items[i]))
    ensures ok ==> Put(true, AllWithin(env, e, items[..i + 1]), s0, s2, done + Enc(env, e, items[i]))
    ensures done + Enc(env, e, items[i]) + EncAll(env, e, items[i + 1..]) == EncAll(env, e, items)
    ensures !ok ==> Put(false, AllWithin(env, e, items), s0, s2, EncAll(env, e, items))
  {
    var enc, rest := Enc(env, e, items[i]), EncAll(env, e, items[i + 1..]);
    NextElem(env, e, items, i);
    WithinSplit(env, e, items, i);
    PutNext(ok, AllWithin(env, e, items[..i]), Within(env, e, items[i]), AllWithin(env, e, items[i + 1..]),
            s0, s1, s2, done, enc, rest);
  }

  /** The loop over the elements of an array or vector, encoding. */
  method PutElems(xdr: Xdr, env: Env, e: Ty, v: Val) returns (ok: bool)
    requires Ready(xdr) && Storable(e) && AllStorable(env)
    requires xdr.op == ENCODE && v.Many? && forall x | x in v.items :: HasType(env, e, x)
    modifies xdr`outNext, xdr`inNext, xdr.outMsg
    ensures Ready(xdr) && xdr.inNext == old(xdr.inNext)
    ensures Put(ok, AllWithin(env, e, v.items), old(xdr.Sent()), xdr.Sent(), EncAll(env, e, v.items))
    decreases v, Left(xdr.Received(), xdr.inNext), e, 2
  {
    var i := 0;
    ghost var s0, done := xdr.Sent(), [];
    while i < |v.items|
      invariant 0 <= i <= |v.items| && Ready(xdr) && xdr.inNext == old(xdr.inNext)
      invariant done + EncAll(env, e, v.items[i..]) == EncAll(env, e, v.items)
      invariant Put(true, AllWithin(env, e, v.items[..i]), s0, xdr.Sent(), done)
    {
      ghost var s1 := xdr.Sent();
      var x;
      ok, x := Code(xdr, env, e, v.items[i]);
      PutElem(env, e, v.items, i, ok, s0, s1, xdr.Sent(), done);
      if !ok { return; }
      done, i := done + Enc(env, e, v.items[i]), i + 1;
    }
    assert v.items[..i] == v.items;
    return true;
  }

  function Prepend(items: seq<Val>, r: Result<seq<Val>>): Result<seq<Val>> {
    match r
    case Fail => Fail
    case Got(more, p) => Got(items + more, p)
  }

  lemma PrependNothing(r: Result<seq<Val>>)
    ensures Prepend([], r) == r
  {
    if r.Got? { assert [] + r.value == r.value; }
  }

  lemma PrependCons(items: seq<Val>, x: Val, r: Result<seq<Val>>)
    ensures Prepend(items, Cons(x, r)) == Prepend(items + [x], r)
  {
    if r.Got? { assert items + ([x] + r.value) == items + [x] + r.value; }
  }

  /** The loop over the elements of an array or vector, decoding. */
  method TakeElems(xdr: Xdr, env: Env, e: Ty, n: nat) returns (ok: bool, items: seq<Val>)
    requires Ready(xdr) && Storable(e) && AllStorable(env) && xdr.op == DECODE
    modifies xdr`outNext, xdr`inNext, xdr.outMsg
    ensures Ready(xdr) && xdr.Sent() == old(xdr.Sent())
    ensures Took(ok, items, xdr.inNext, DecAll(env, e, n, xdr.Received(), old(xdr.inNext)))
    decreases Unit, Left(xdr.Received(), xdr.inNext), e, 2
  {
    items := [];
    var i := 0;
    ghost var msg, start := xdr.Received(), xdr.inNext;
    PrependNothing(DecAll(env, e, n, msg, start));
    while i < n
      invariant 0 <= i <= n && Ready(xdr) && xdr.Received() == msg && xdr.inNext >= start
      invariant xdr.Sent() == old(xdr.Sent())
      invariant Prepend(items, DecAll(env, e, n - i, msg, xdr.inNext)) == DecAll(env, e, n, msg, start)
    {
      ghost var pos := xdr.inNext;
      var x;
      ok, x := Code(xdr, env, e, Unit);
      if !ok { return; }
      PrependCons(items, x, DecAll(env, e, n - i - 1, msg, xdr.inNext));
      items, i := items + [x], i + 1;
    }
    assert items + [] == items;
    return true, items;
  }
}
