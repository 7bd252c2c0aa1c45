/** What the XDR codecs write and read (RFC 4506, section 4), as functions of a type, a value
    and a message, with the round trip between them. */
module XdrCodec {
  import opened Arithmetic
  import opened XdrBuffer

  datatype Width = W8 | W16 | W32

  /** The types the codecs can be combined into.  A recursive type refers to itself through
      Pointer, by a name that an environment gives a meaning. */
  datatype Ty =
    | Void
    | Scalar(width: Width, signed: bool)
    | Hyper(signed: bool)
    | Bool
    | Opaque(len: nat)
    | Bytes(max: nat)
    | String(max: nat)
    | Vector(len: nat, elem: Ty)
    | Array(max: nat, elem: Ty)
    | Struct(first: Ty, second: Ty)
    | Pointer(name: nat)

  type Env = nat -> Ty

  /** Values in memory.  Null is a null pointer, Ref a pointer to a value. */
  datatype Val =
    | Unit
    | Num(n: int)
    | Data(bytes: seq<uint8>)
    | Null
    | Ref(target: Val)
    | Many(items: seq<Val>)
    | Pair(first: Val, second: Val)

  // ---------- Machine integers ----------

  function Modulus(w: Width): int {
    match w
    case W8 => 0x100
    case W16 => 0x1_0000
    case W32 => 0x1_0000_0000
  }

  predicate InWidth(n: int, modulus: int, signed: bool) {
    if signed then -modulus <= 2 * n < modulus else 0 <= n < modulus
  }

  /** The number a truncated word stands for. */
  function Narrow(w: int, modulus: int, signed: bool): int
    requires modulus > 0
  {
    var u := w % modulus;
    if signed && 2 * u >= modulus then u - modulus else u
  }

  function Widen(n: int): uint32 { n % 0x1_0000_0000 }

  lemma ScalarRoundTrip(n: int, w: Width, signed: bool)
    requires InWidth(n, Modulus(w), signed)
    ensures Narrow(Widen(n), Modulus(w), signed) == n
  {
    match w
    case W8 => Remainder(Widen(n), 0x100, if n < 0 then 0xFF_FFFF else 0, if n < 0 then n + 0x100 else n);
    case W16 => Remainder(Widen(n), 0x1_0000, if n < 0 then 0xFFFF else 0, if n < 0 then n + 0x1_0000 else n);
    case W32 => Remainder(Widen(n), 0x1_0000_0000, 0, Widen(n));
  }

  function High(n: int): uint32 { n / 0x1_0000_0000 % 0x1_0000_0000 }

  const HYPER: int := 0x1_0000_0000_0000_0000

  lemma HyperRoundTrip(n: int, signed: bool)
    requires InWidth(n, HYPER, signed)
    ensures Narrow(High(n) * 0x1_0000_0000 + Widen(n), HYPER, signed) == n
  {
  }

  // ---------- Typing ----------

  /** v is a value of the C type that ty describes. */
  predicate HasType(env: Env, ty: Ty, v: Val)
    decreases v
  {
    match (ty, v)
    case (Void, Unit) => true
    case (Scalar(w, signed), Num(n)) => InWidth(n, Modulus(w), signed)
    case (Hyper(signed), Num(n)) => InWidth(n, HYPER, signed)
    case (Bool, Num(n)) => InWidth(n, Modulus(W32), true)
    case (Opaque(len), Data(b)) => |b| == len
    case (Bytes(_), Data(b)) => |b| < LIMIT
    case (String(_), Data(b)) => |b| + 1 < LIMIT && 0 !in b
    case (String(_), Null) => true
    case (Vector(len, e), Many(items)) => |items| == len && forall x | x in items :: HasType(env, e, x)
    case (Array(_, e), Many(items)) => |items| < 0x1_0000_0000 && forall x | x in items :: HasType(env, e, x)
    case (Struct(a, b), Pair(x, y)) => HasType(env, a, x) && HasType(env, b, y)
    case (Pointer(_), Null) => true
    case (Pointer(k), Ref(x)) => HasType(env, env(k), x)
    case _ => false
  }

  /** The counted parts of v are within the maxima of its type, and no string is null. */
  predicate Within(env: Env, ty: Ty, v: Val)
    decreases v
  {
    match (ty, v)
    case (Bytes(max), Data(b)) => |b| <= max
    case (String(max), Data(b)) => |b| <= max
    case (String(_), Null) => false
    case (Vector(_, e), Many(items)) => forall x | x in items :: Within(env, e, x)
    case (Array(max, e), Many(items)) => |items| <= max && forall x | x in items :: Within(env, e, x)
    case (Struct(a, b), Pair(x, y)) => Within(env, a, x) && Within(env, b, y)
    case (Pointer(k), Ref(x)) => Within(env, env(k), x)
    case _ => true
  }

  // ---------- Encoding ----------

  /** A length as a u_int; no value in memory is longer. */
  function Count(n: nat): uint32 { if n < 0x1_0000_0000 then n else 0 }

  function Counted(b: seq<uint8>): seq<uint8> { Word(Count(|b|)) + Padded(b) }

  function Flag(b: bool): uint32 { if b then 1 else 0 }

  /** What is written for v; nothing for a value that is not of the type. */
  function Enc(env: Env, ty: Ty, v: Val): seq<uint8>
    decreases v
  {
    match (ty, v)
    case (Scalar(_, _), Num(n)) => Word(Widen(n))
    case (Hyper(_), Num(n)) => Word(High(n)) + Word(Widen(n))
    case (Bool, Num(n)) => Word(Flag(n != 0))
    case (Opaque(_), Data(b)) => Padded(b)
    case (Bytes(_), Data(b)) => Counted(b)
    case (String(_), Data(b)) => Counted(b)
    case (Vector(_, e), Many(items)) => EncAll(env, e, items)
    case (Array(_, e), Many(items)) => Word(Count(|items|)) + EncAll(env, e, items)
    case (Struct(a, b), Pair(x, y)) => Enc(env, a, x) + Enc(env, b, y)
    case (Pointer(_), Null) => Word(0)
    case (Pointer(k), Ref(x)) => Word(1) + Enc(env, env(k), x)
    case _ => []
  }

  function EncAll(env: Env, e: Ty, items: seq<Val>): seq<uint8>
    decreases items
  {
    if items == [] then [] else Enc(env, e, items[0]) + EncAll(env, e, items[1..])
  }

  ghost predicate Whole(b: seq<uint8>) { |b| % 4 == 0 }

  lemma WholeSum(a: seq<uint8>, b: seq<uint8>)
    requires Whole(a) && Whole(b)
    ensures Whole(a + b)
  {
  }

  /** A hyper is its eight bytes in two's complement, most significant first (RFC 4506,
      section 4.5). */
  lemma HyperIsBigEndian(env: Env, n: int, signed: bool)
    ensures Enc(env, Hyper(signed), Num(n)) == BigEndian(n % HYPER, 8)
  {
    FourBytes();
    assert n % HYPER == High(n) * 0x1_0000_0000 + Widen(n);
    BigEndianJoins(High(n), Widen(n), 4, 4);
  }

  /** Every encoding is whole words (RFC 4506, section 3). */
  lemma {:induction false} WholeWords(env: Env, ty: Ty, v: Val)
    ensures Whole(Enc(env, ty, v))
    decreases v
  {
    match (ty, v)
    case (Vector(_, e), Many(items)) => AllWholeWords(env, e, items);
    case (Array(_, e), Many(items)) =>
      AllWholeWords(env, e, items);
      WholeSum(Word(Count(|items|)), EncAll(env, e, items));
    case (Struct(a, b), Pair(x, y)) =>
      WholeWords(env, a, x);
      WholeWords(env, b, y);
      WholeSum(Enc(env, a, x), Enc(env, b, y));
    case (Pointer(k), Ref(x)) =>
      WholeWords(env, env(k), x);
      WholeSum(Word(1), Enc(env, env(k), x));
    case _ => WholeLeaf(env, ty, v);
  }

  lemma WholeLeaf(env: Env, ty: Ty, v: Val)
    requires !(v.Many? || v.Pair? || v.Ref?) || Enc(env, ty, v) == []
    ensures Whole(Enc(env, ty, v))
  {
  }

  lemma {:induction false} AllWholeWords(env: Env, e: Ty, items: seq<Val>)
    ensures Whole(EncAll(env, e, items))
    decreases items
  {
    if items != [] {
      WholeWords(env, e, items[0]);
      AllWholeWords(env, e, items[1..]);
      WholeSum(Enc(env, e, items[0]), EncAll(env, e, items[1..]));
    }
  }

  // ---------- Decoding ----------

  datatype Result<T> = Fail | Got(value: T, next: nat)

  /** Bytes the message has from pos on. */
  function Left(msg: seq<uint8>, pos: nat): nat { if pos <= |msg| then |msg| - pos else 0 }

  function TakeWord(msg: seq<uint8>, pos: nat): (r: Result<uint32>)
    ensures r.Got? ==> Left(msg, r.next) < Left(msg, pos)
  {
    if pos + 4 > |msg| then Fail else Got(WordAt(msg, pos), pos + 4)
  }

  function TakeBytes(msg: seq<uint8>, pos: nat, len: nat): (r: Result<seq<uint8>>)
    ensures r.Got? ==> pos <= r.next
  {
    if pos + len > |msg| then Fail else Got(msg[pos..pos + len], RoundUp(pos + len))
  }

  /** A length of at most max and as many bytes; no bytes are asked for if the length is 0. */
  function TakeCounted(msg: seq<uint8>, pos: nat, max: nat): (r: Result<seq<uint8>>)
    ensures r.Got? ==> pos <= r.next
  {
    match TakeWord(msg, pos)
    case Fail => Fail
    case Got(len, p) => if len > max then Fail else if len == 0 then Got([], p) else TakeBytes(msg, p, len)
  }

  /** The same for a string, whose memory has one byte more: if adding it wraps to 0, nothing is
      read and the pointer stays null. */
  function TakeText(msg: seq<uint8>, pos: nat, max: nat): (r: Result<Val>)
    ensures r.Got? ==> pos <= r.next
  {
    match TakeWord(msg, pos)
    case Fail => Fail
    case Got(len, p) => if len <= max && len == 0xFFFF_FFFF then Got(Null, p) else AsData(TakeCounted(msg, pos, max))
  }

  function AsNum(r: Result<uint32>, modulus: int, signed: bool): Result<Val>
    requires modulus > 0
  {
    match r
    case Fail => Fail
    case Got(w, p) => Got(Num(Narrow(w, modulus, signed)), p)
  }

  function AsData(r: Result<seq<uint8>>): Result<Val> {
    match r
    case Fail => Fail
    case Got(b, p) => Got(Data(b), p)
  }

  function AsMany(r: Result<seq<Val>>): Result<Val> {
    match r
    case Fail => Fail
    case Got(items, p) => Got(Many(items), p)
  }

  function Cons(v: Val, r: Result<seq<Val>>): Result<seq<Val>> {
    match r
    case Fail => Fail
    case Got(items, p) => Got([v] + items, p)
  }

  function TakeHyper(msg: seq<uint8>, pos: nat, signed: bool): Result<Val> {
    match TakeWord(msg, pos)
    case Fail => Fail
    case Got(high, p) =>
      match TakeWord(msg, p)
      case Fail => Fail
      case Got(low, q) => Got(Num(Narrow(high * 0x1_0000_0000 + low, HYPER, signed)), q)
  }

  function Dec(env: Env, ty: Ty, msg: seq<uint8>, pos: nat): (r: Result<Val>)
    ensures r.Got? ==> pos <= r.next
    decreases Left(msg, pos), ty, 0
  {
    match ty
    case Void => Got(Unit, pos)
    case Scalar(w, signed) => AsNum(TakeWord(msg, pos), Modulus(w), signed)
    case Hyper(signed) => TakeHyper(msg, pos, signed)
    case Bool => (match TakeWord(msg, pos)
                  case Fail => Fail
                  case Got(w, p) => Got(Num(Flag(w != 0)), p))
    case Opaque(len) => if len == 0 then Got(Data([]), pos) else AsData(TakeBytes(msg, pos, len))
    case Bytes(max) => AsData(TakeCounted(msg, pos, max))
    case String(max) => TakeText(msg, pos, max)
    case Vector(len, e) => AsMany(DecAll(env, e, len, msg, pos))
    case Array(max, e) => (match TakeWord(msg, pos)
                           case Fail => Fail
                           case Got(len, p) => if len > max then Fail else AsMany(DecAll(env, e, len, msg, p)))
    case Struct(a, b) => (match Dec(env, a, msg, pos)
                          case Fail => Fail
                          case Got(x, p) =>
                            match Dec(env, b, msg, p)
                            case Fail => Fail
                            case Got(y, q) => Got(Pair(x, y), q))
    case Pointer(k) => (match TakeWord(msg, pos)
                        case Fail => Fail
                        case Got(w, p) =>
                          if w == 0 then Got(Null, p) else
                          match Dec(env, env(k), msg, p)
                          case Fail => Fail
                          case Got(x, q) => Got(Ref(x), q))
  }

  function DecAll(env: Env, e: Ty, n: nat, msg: seq<uint8>, pos: nat): (r: Result<seq<Val>>)
    ensures r.Got? ==> pos <= r.next
    decreases Left(msg, pos), e, n + 1
  {
    if n == 0 then Got([], pos) else
    match Dec(env, e, msg, pos)
    case Fail => Fail
    case Got(x, p) => Cons(x, DecAll(env, e, n - 1, msg, p))
  }

  // ---------- The round trip ----------

  /** v with every boolean made 0 or 1, which is all that xdr_bool keeps of it. */
  function Norm(env: Env, ty: Ty, v: Val): Val
    decreases v
  {
    match (ty, v)
    case (Bool, Num(n)) => Num(Flag(n != 0))
    case (Vector(_, e), Many(items)) => Many(NormAll(env, e, items))
    case (Array(_, e), Many(items)) => Many(NormAll(env, e, items))
    case (Struct(a, b), Pair(x, y)) => Pair(Norm(env, a, x), Norm(env, b, y))
    case (Pointer(k), Ref(x)) => Ref(Norm(env, env(k), x))
    case _ => v
  }

  function NormAll(env: Env, e: Ty, items: seq<Val>): seq<Val>
    decreases items
  {
    if items == [] then [] else [Norm(env, e, items[0])] + NormAll(env, e, items[1..])
  }

  /** Every boolean in v is 0 or 1. */
  predicate Canonical(env: Env, ty: Ty, v: Val)
    decreases v
  {
    match (ty, v)
    case (Bool, Num(n)) => n == 0 || n == 1
    case (Vector(_, e), Many(items)) => forall x | x in items :: Canonical(env, e, x)
    case (Array(_, e), Many(items)) => forall x | x in items :: Canonical(env, e, x)
    case (Struct(a, b), Pair(x, y)) => Canonical(env, a, x) && Canonical(env, b, y)
    case (Pointer(k), Ref(x)) => Canonical(env, env(k), x)
    case _ => true
  }

  lemma {:induction false} NormIsIdentity(env: Env, ty: Ty, v: Val)
    ensures Norm(env, ty, v) == v <==> Canonical(env, ty, v)
    decreases v
  {
    match (ty, v)
    case (Vector(_, e), Many(items)) => NormAllIsIdentity(env, e, items);
    case (Array(_, e), Many(items)) => NormAllIsIdentity(env, e, items);
    case (Struct(a, b), Pair(x, y)) =>
      NormIsIdentity(env, a, x);
      NormIsIdentity(env, b, y);
    case (Pointer(k), Ref(x)) => NormIsIdentity(env, env(k), x);
    case _ =>
  }

  lemma {:induction false} NormAllIsIdentity(env: Env, e: Ty, items: seq<Val>)
    ensures NormAll(env, e, items) == items <==> forall x | x in items :: Canonical(env, e, x)
    decreases items
  {
    if items != [] {
      NormIsIdentity(env, e, items[0]);
      NormAllIsIdentity(env, e, items[1..]);
      assert items == [items[0]] + items[1..];
    }
  }

  ghost predicate OnWord(pos: nat) { pos % 4 == 0 }

  lemma OnNextWord(pos: nat, b: seq<uint8>)
    requires OnWord(pos) && Whole(b)
    ensures OnWord(pos + |b|)
  {
  }

  lemma Aligned(pos: nat, len: nat)
    requires OnWord(pos)
    ensures RoundUp(pos + len) == pos + RoundUp(len)
  {
  }

  lemma TakesWord(msg: seq<uint8>, pos: nat, w: uint32, rest: seq<uint8>)
    requires At(msg, pos, Word(w) + rest)
    ensures TakeWord(msg, pos) == Got(w, pos + 4) && At(msg, pos + 4, rest)
  {
    AtSplit(msg, pos, Word(w), rest);
    AtWord(msg, pos, w);
  }

  lemma TakesPadded(msg: seq<uint8>, pos: nat, b: seq<uint8>)
    requires OnWord(pos) && At(msg, pos, Padded(b))
    ensures TakeBytes(msg, pos, |b|) == Got(b, pos + |Padded(b)|)
  {
    AtPadded(msg, pos, b);
    Aligned(pos, |b|);
  }

  lemma TakesCounted(msg: seq<uint8>, pos: nat, max: nat, b: seq<uint8>)
    requires |b| <= max && |b| < 0x1_0000_0000 && OnWord(pos) && At(msg, pos, Counted(b))
    ensures TakeCounted(msg, pos, max) == Got(b, pos + |Counted(b)|)
  {
    TakesWord(msg, pos, |b|, Padded(b));
    TakesPadded(msg, pos + 4, b);
  }

  lemma TakesText(msg: seq<uint8>, pos: nat, max: nat, b: seq<uint8>)
    requires |b| <= max && |b| < LIMIT && OnWord(pos) && At(msg, pos, Counted(b))
    ensures TakeText(msg, pos, max) == Got(Data(b), pos + |Counted(b)|)
  {
    TakesWord(msg, pos, |b|, Padded(b));
    TakesCounted(msg, pos, max, b);
  }

  predicate Number(ty: Ty) { ty.Scalar? || ty.Hyper? || ty.Bool? }

  lemma NumberRoundTrip(env: Env, ty: Ty, v: Val, msg: seq<uint8>, pos: nat)
    requires Number(ty) && HasType(env, ty, v) && At(msg, pos, Enc(env, ty, v))
    ensures Dec(env, ty, msg, pos) == Got(Norm(env, ty, v), pos + |Enc(env, ty, v)|)
  {
    match ty
    case Scalar(w, signed) => TakesScalar(msg, pos, v.n, w, signed);
    case Hyper(signed) => TakesHyper(msg, pos, v.n, signed);
    case Bool => AtWord(msg, pos, Flag(v.n != 0));
  }

  lemma TakesScalar(msg: seq<uint8>, pos: nat, n: int, w: Width, signed: bool)
    requires InWidth(n, Modulus(w), signed) && At(msg, pos, Word(Widen(n)))
    ensures AsNum(TakeWord(msg, pos), Modulus(w), signed) == Got(Num(n), pos + 4)
  {
    AtWord(msg, pos, Widen(n));
    ScalarRoundTrip(n, w, signed);
  }

  lemma TakesHyper(msg: seq<uint8>, pos: nat, n: int, signed: bool)
    requires InWidth(n, HYPER, signed) && At(msg, pos, Word(High(n)) + Word(Widen(n)))
    ensures TakeHyper(msg, pos, signed) == Got(Num(n), pos + 8)
  {
    TakesWord(msg, pos, High(n), Word(Widen(n)));
    AtWord(msg, pos + 4, Widen(n));
    HyperRoundTrip(n, signed);
  }

  predicate Plain(ty: Ty) { ty.Void? || ty.Opaque? || ty.Bytes? || ty.String? }

  lemma BytesRoundTrip(env: Env, ty: Ty, v: Val, msg: seq<uint8>, pos: nat)
    requires Plain(ty) && HasType(env, ty, v) && Within(env, ty, v)
    requires OnWord(pos) && At(msg, pos, Enc(env, ty, v))
    ensures Dec(env, ty, msg, pos) == Got(Norm(env, ty, v), pos + |Enc(env, ty, v)|)
  {
    match ty
    case Void =>
    case Opaque(_) => TakesPadded(msg, pos, v.bytes);
    case Bytes(max) => TakesCounted(msg, pos, max, v.bytes);
    case String(max) => TakesText(msg, pos, max, v.bytes);
  }

  /** Wherever the encoding of v stands in a message, decoding yields v and consumes exactly
      those bytes. */
  lemma {:induction false} RoundTrip(env: Env, ty: Ty, v: Val, msg: seq<uint8>, pos: nat)
    requires HasType(env, ty, v) && Within(env, ty, v)
    requires OnWord(pos) && At(msg, pos, Enc(env, ty, v))
    ensures Dec(env, ty, msg, pos) == Got(Norm(env, ty, v), pos + |Enc(env, ty, v)|)
    decreases v
  {
    if Number(ty) {
      NumberRoundTrip(env, ty, v, msg, pos);
    } else if Plain(ty) {
      BytesRoundTrip(env, ty, v, msg, pos);
    } else if ty.Struct? {
      StructRoundTrip(env, ty.first, ty.second, v, msg, pos);
    } else if ty.Pointer? {
      PointerRoundTrip(env, ty.name, v, msg, pos);
    } else if ty.Vector? {
      RoundTripAll(env, ty.elem, v.items, msg, pos);
    } else {
      ArrayRoundTrip(env, ty.max, ty.elem, v, msg, pos);
    }
  }

  lemma {:induction false} StructRoundTrip(env: Env, a: Ty, b: Ty, v: Val, msg: seq<uint8>, pos: nat)
    requires HasType(env, Struct(a, b), v) && Within(env, Struct(a, b), v)
    requires OnWord(pos) && At(msg, pos, Enc(env, Struct(a, b), v))
    ensures Dec(env, Struct(a, b), msg, pos) ==
            Got(Norm(env, Struct(a, b), v), pos + |Enc(env, Struct(a, b), v)|)
    decreases v, 0
  {
    var x, y := Enc(env, a, v.first), Enc(env, b, v.second);
    assert At(msg, pos, x) && At(msg, pos + |x|, y) by { AtSplit(msg, pos, x, y); }
    assert OnWord(pos + |x|) by {
      WholeWords(env, a, v.first);
      OnNextWord(pos, x);
    }
    RoundTrip(env, a, v.first, msg, pos);
    RoundTrip(env, b, v.second, msg, pos + |x|);
  }

  lemma {:induction false} ArrayRoundTrip(env: Env, max: nat, e: Ty, v: Val, msg: seq<uint8>, pos: nat)
    requires HasType(env, Array(max, e), v) && Within(env, Array(max, e), v)
    requires OnWord(pos) && At(msg, pos, Enc(env, Array(max, e), v))
    ensures Dec(env, Array(max, e), msg, pos) ==
            Got(Norm(env, Array(max, e), v), pos + |Enc(env, Array(max, e), v)|)
    decreases v, 0
  {
    var all := EncAll(env, e, v.items);
    assert Enc(env, Array(max, e), v) == Word(|v.items|) + all;
    TakesWord(msg, pos, |v.items|, all);
    OnNextWord(pos, Word(|v.items|));
    RoundTripAll(env, e, v.items, msg, pos + 4);
  }

  lemma {:induction false} PointerRoundTrip(env: Env, k: nat, v: Val, msg: seq<uint8>, pos: nat)
    requires HasType(env, Pointer(k), v) && Within(env, Pointer(k), v)
    requires OnWord(pos) && At(msg, pos, Enc(env, Pointer(k), v))
    ensures Dec(env, Pointer(k), msg, pos) ==
            Got(Norm(env, Pointer(k), v), pos + |Enc(env, Pointer(k), v)|)
    decreases v, 0
  {
    var rest := if v.Ref? then Enc(env, env(k), v.target) else [];
    assert Enc(env, Pointer(k), v) == Word(Flag(v.Ref?)) + rest;
    TakesWord(msg, pos, Flag(v.Ref?), rest);
    OnNextWord(pos, Word(Flag(v.Ref?)));
    if v.Ref? { RoundTrip(env, env(k), v.target, msg, pos + 4); }
  }

  lemma {:induction false} RoundTripAll(env: Env, e: Ty, items: seq<Val>, msg: seq<uint8>, pos: nat)
    requires forall x | x in items :: HasType(env, e, x) && Within(env, e, x)
    requires OnWord(pos) && At(msg, pos, EncAll(env, e, items))
    ensures DecAll(env, e, |items|, msg, pos) == Got(NormAll(env, e, items), pos + |EncAll(env, e, items)|)
    decreases items
  {
    if items != [] {
      var x, rest := items[0], items[1..];
      var p := pos + |Enc(env, e, x)|;
      EncAllStep(env, e, items);
      assert At(msg, pos, Enc(env, e, x)) && At(msg, p, EncAll(env, e, rest)) by {
        AtSplit(msg, pos, Enc(env, e, x), EncAll(env, e, rest));
      }
      assert OnWord(p) by {
        WholeWords(env, e, x);
        OnNextWord(pos, Enc(env, e, x));
      }
      RoundTrip(env, e, x, msg, pos);
      RoundTripAll(env, e, rest, msg, p);
      DecAllStep(env, e, |items|, msg, pos, Norm(env, e, x), p);
    }
  }

  lemma EncAllStep(env: Env, e: Ty, items: seq<Val>)
    requires items != []
    ensures EncAll(env, e, items) == Enc(env, e, items[0]) + EncAll(env, e, items[1..])
    ensures NormAll(env, e, items) == [Norm(env, e, items[0])] + NormAll(env, e, items[1..])
  {
  }

  lemma DecAllStep(env: Env, e: Ty, n: nat, msg: seq<uint8>, pos: nat, x: Val, p: nat)
    requires n > 0 && Dec(env, e, msg, pos) == Got(x, p)
    ensures DecAll(env, e, n, msg, pos) == Cons(x, DecAll(env, e, n - 1, msg, p))
  {
  }

  // ---------- Any message ----------

  /** What decoding a message of at most `bound` bytes can yield: strings may have zero bytes in
      them, or be null if the maximum allows a length of 2^32 - 1; otherwise a value of the type,
      within its maxima, with booleans 0 or 1. */
  predicate Decodable(env: Env, ty: Ty, v: Val, bound: nat)
    decreases v
  {
    match (ty, v)
    case (Void, Unit) => true
    case (Scalar(w, signed), Num(n)) => InWidth(n, Modulus(w), signed)
    case (Hyper(signed), Num(n)) => InWidth(n, HYPER, signed)
    case (Bool, Num(n)) => n == 0 || n == 1
    case (Opaque(len), Data(b)) => |b| == len
    case (Bytes(max), Data(b)) => |b| <= max && |b| <= bound
    case (String(max), Data(b)) => |b| <= max && |b| <= bound
    case (String(max), Null) => max >= 0xFFFF_FFFF
    case (Vector(len, e), Many(items)) => |items| == len && forall x | x in items :: Decodable(env, e, x, bound)
    case (Array(max, e), Many(items)) =>
      |items| <= max && |items| < WORD && forall x | x in items :: Decodable(env, e, x, bound)
    case (Struct(a, b), Pair(x, y)) => Decodable(env, a, x, bound) && Decodable(env, b, y, bound)
    case (Pointer(_), Null) => true
    case (Pointer(k), Ref(x)) => Decodable(env, env(k), x, bound)
    case _ => false
  }

  /** No string in v is null or has a zero byte in it. */
  predicate PlainTexts(env: Env, ty: Ty, v: Val)
    decreases v
  {
    match (ty, v)
    case (String(_), Data(b)) => 0 !in b
    case (String(_), Null) => false
    case (Vector(_, e), Many(items)) => forall x | x in items :: PlainTexts(env, e, x)
    case (Array(_, e), Many(items)) => forall x | x in items :: PlainTexts(env, e, x)
    case (Struct(a, b), Pair(x, y)) => PlainTexts(env, a, x) && PlainTexts(env, b, y)
    case (Pointer(k), Ref(x)) => PlainTexts(env, env(k), x)
    case _ => true
  }

  lemma {:induction false} DecodableIsTyped(env: Env, ty: Ty, v: Val, bound: nat)
    requires Decodable(env, ty, v, bound) && PlainTexts(env, ty, v) && bound + 1 < LIMIT
    ensures HasType(env, ty, v) && Within(env, ty, v) && Canonical(env, ty, v)
    decreases v
  {
    match (ty, v)
    case (Vector(_, e), Many(items)) =>
      forall x | x in items
        ensures HasType(env, e, x) && Within(env, e, x) && Canonical(env, e, x)
      {
        DecodableIsTyped(env, e, x, bound);
      }
    case (Array(_, e), Many(items)) =>
      forall x | x in items
        ensures HasType(env, e, x) && Within(env, e, x) && Canonical(env, e, x)
      {
        DecodableIsTyped(env, e, x, bound);
      }
    case (Struct(a, b), Pair(x, y)) =>
      DecodableIsTyped(env, a, x, bound);
      DecodableIsTyped(env, b, y, bound);
    case (Pointer(k), Ref(x)) => DecodableIsTyped(env, env(k), x, bound);
    case _ =>
  }

  lemma DecodedNumber(env: Env, ty: Ty, msg: seq<uint8>, pos: nat)
    requires Number(ty)
    ensures var r := Dec(env, ty, msg, pos); r.Got? ==> Decodable(env, ty, r.value, |msg|)
  {
  }

  lemma DecodedPlain(env: Env, ty: Ty, msg: seq<uint8>, pos: nat)
    requires Plain(ty)
    ensures var r := Dec(env, ty, msg, pos); r.Got? ==> Decodable(env, ty, r.value, |msg|)
  {
  }

  lemma {:induction false} DecodedIsDecodable(env: Env, ty: Ty, msg: seq<uint8>, pos: nat)
    ensures var r := Dec(env, ty, msg, pos); r.Got? ==> Decodable(env, ty, r.value, |msg|)
    decreases Left(msg, pos), ty, 0
  {
    if Number(ty) {
      DecodedNumber(env, ty, msg, pos);
    } else if Plain(ty) {
      DecodedPlain(env, ty, msg, pos);
    } else {
      match ty
      case Vector(len, e) => AllDecodable(env, e, len, msg, pos);
      case Array(max, e) =>
        var d := TakeWord(msg, pos);
        if d.Got? && d.value <= max { AllDecodable(env, e, d.value, msg, d.next); }
      case Struct(a, b) =>
        DecodedIsDecodable(env, a, msg, pos);
        var d := Dec(env, a, msg, pos);
        if d.Got? { DecodedIsDecodable(env, b, msg, d.next); }
      case Pointer(k) =>
        var d := TakeWord(msg, pos);
        if d.Got? && d.value != 0 { DecodedIsDecodable(env, env(k), msg, d.next); }
      case _ =>
    }
  }

  lemma {:induction false} AllDecodable(env: Env, e: Ty, n: nat, msg: seq<uint8>, pos: nat)
    ensures var r := DecAll(env, e, n, msg, pos);
            r.Got? ==> |r.value| == n && forall x | x in r.value :: Decodable(env, e, x, |msg|)
    decreases Left(msg, pos), e, n + 1
  {
    if n > 0 {
      DecodedIsDecodable(env, e, msg, pos);
      var d := Dec(env, e, msg, pos);
      if d.Got? { AllDecodable(env, e, n - 1, msg, d.next); }
    }
  }

  /** Whatever message is decoded, at whatever position: what comes out is of the type and within
      its maxima, with booleans 0 or 1, zero bytes in strings and the null string set apart. */
  lemma DecodedIsTyped(env: Env, ty: Ty, msg: seq<uint8>, pos: nat)
    requires |msg| + 1 < LIMIT && Dec(env, ty, msg, pos).Got?
    ensures var v := Dec(env, ty, msg, pos).value;
            && Decodable(env, ty, v, |msg|)
            && (PlainTexts(env, ty, v) ==> HasType(env, ty, v) && Within(env, ty, v) && Canonical(env, ty, v))
  {
    DecodedIsDecodable(env, ty, msg, pos);
    var v := Dec(env, ty, msg, pos).value;
    if PlainTexts(env, ty, v) { DecodableIsTyped(env, ty, v, |msg|); }
  }

  lemma NumberLength(env: Env, ty: Ty, n: int)
    requires Number(ty)
    ensures |Enc(env, ty, Num(n))| == if ty.Hyper? then 8 else 4
  {
  }

  lemma NumberConsumes(env: Env, ty: Ty, msg: seq<uint8>, pos: nat)
    requires Number(ty) && OnWord(pos)
    ensures var r := Dec(env, ty, msg, pos);
            r.Got? ==> r.next == pos + |Enc(env, ty, r.value)| && OnWord(r.next)
  {
    var r := Dec(env, ty, msg, pos);
    if r.Got? { NumberLength(env, ty, r.value.n); }
  }

  lemma CountedConsumes(msg: seq<uint8>, pos: nat, max: nat)
    requires OnWord(pos) && |msg| < LIMIT
    ensures var r := TakeCounted(msg, pos, max);
            r.Got? ==> r.next == pos + |Counted(r.value)| && OnWord(r.next) && |r.value| < LIMIT
  {
    var d := TakeWord(msg, pos);
    if d.Got? { Aligned(d.next, d.value); }
  }

  lemma PlainConsumes(env: Env, ty: Ty, msg: seq<uint8>, pos: nat)
    requires Plain(ty) && OnWord(pos) && |msg| < LIMIT
    ensures var r := Dec(env, ty, msg, pos);
            r.Got? && PlainTexts(env, ty, r.value) ==> r.next == pos + |Enc(env, ty, r.value)| && OnWord(r.next)
  {
    match ty
    case Void =>
    case Opaque(len) => Aligned(pos, len);
    case Bytes(max) => CountedConsumes(msg, pos, max);
    case String(max) => CountedConsumes(msg, pos, max);
  }

  /** Decoding consumes as many bytes as encoding what came out would write. */
  lemma {:induction false} DecodedConsumes(env: Env, ty: Ty, msg: seq<uint8>, pos: nat)
    requires OnWord(pos) && |msg| < LIMIT
    ensures var r := Dec(env, ty, msg, pos);
            r.Got? && PlainTexts(env, ty, r.value) ==> r.next == pos + |Enc(env, ty, r.value)| && OnWord(r.next)
    decreases Left(msg, pos), ty, 0
  {
    if Number(ty) {
      NumberConsumes(env, ty, msg, pos);
    } else if Plain(ty) {
      PlainConsumes(env, ty, msg, pos);
    } else {
      match ty
      case Vector(len, e) => AllConsumes(env, e, len, msg, pos);
      case Array(max, e) =>
        var d := TakeWord(msg, pos);
        if d.Got? && d.value <= max {
          AllConsumes(env, e, d.value, msg, d.next);
          AllDecodable(env, e, d.value, msg, d.next);
        }
      case Struct(a, b) =>
        DecodedConsumes(env, a, msg, pos);
        var d := Dec(env, a, msg, pos);
        if d.Got? && PlainTexts(env, a, d.value) { DecodedConsumes(env, b, msg, d.next); }
      case Pointer(k) =>
        var d := TakeWord(msg, pos);
        if d.Got? && d.value != 0 { DecodedConsumes(env, env(k), msg, d.next); }
      case _ =>
    }
  }

  lemma {:induction false} AllConsumes(env: Env, e: Ty, n: nat, msg: seq<uint8>, pos: nat)
    requires OnWord(pos) && |msg| < LIMIT
    ensures var r := DecAll(env, e, n, msg, pos);
            r.Got? && (forall x | x in r.value :: PlainTexts(env, e, x)) ==>
              r.next == pos + |EncAll(env, e, r.value)| && OnWord(r.next)
    decreases Left(msg, pos), e, n + 1
  {
    if n > 0 {
      DecodedConsumes(env, e, msg, pos);
      var d := Dec(env, e, msg, pos);
      if d.Got? && PlainTexts(env, e, d.value) {
        AllConsumes(env, e, n - 1, msg, d.next);
        DecAllStep(env, e, n, msg, pos, d.value, d.next);
      }
    }
  }

  // ---------- What any word means ----------

  /** Any word at all as a number, a boolean or a pointer flag: a number is the one of its width that
      agrees with the word, any word but 0 is true, and any word but 0 announces a target. */
  lemma AnyWord(env: Env, width: Width, signed: bool, k: nat, msg: seq<uint8>, pos: nat)
    ensures pos + 4 > |msg| ==> Dec(env, Scalar(width, signed), msg, pos) == Fail
    ensures pos + 4 > |msg| ==> Dec(env, Bool, msg, pos) == Fail && Dec(env, Pointer(k), msg, pos) == Fail
    ensures pos + 4 <= |msg| ==>
              var w: int, n := WordAt(msg, pos), Dec(env, Scalar(width, signed), msg, pos);
              && n.Got? && n.next == pos + 4 && n.value.Num?
              && InWidth(n.value.n, Modulus(width), signed) && (w - n.value.n) % Modulus(width) == 0
              && Dec(env, Bool, msg, pos) == Got(Num(if w == 0 then 0 else 1), pos + 4)
              && Dec(env, Pointer(k), msg, pos) ==
                 if w == 0 then Got(Null, pos + 4)
                 else
                   match Dec(env, env(k), msg, pos + 4)
                   case Fail => Fail
                   case Got(x, q) => Got(Ref(x), q)
  {
    if pos + 4 <= |msg| {
      var w: int := WordAt(msg, pos);
      var m := Modulus(width);
      NarrowAgrees(w, m, signed);
    }
  }

  lemma NarrowAgrees(w: int, m: nat, signed: bool)
    requires m > 0 && m % 2 == 0
    ensures InWidth(Narrow(w, m, signed), m, signed) && (w - Narrow(w, m, signed)) % m == 0
  {
    var q := w / m;
    assert w == m * q + w % m;
    var n := Narrow(w, m, signed);
    if n == w % m {
      Remainder(w - n, m, q, 0);
    } else {
      Remainder(w - n, m, q + 1, 0);
    }
  }

  /** The two words of a hyper are its value in 64 bits. */
  lemma AnyHyper(env: Env, signed: bool, msg: seq<uint8>, pos: nat)
    ensures pos + 8 > |msg| ==> Dec(env, Hyper(signed), msg, pos) == Fail
    ensures pos + 8 <= |msg| ==>
              var high: int, low: int, n := WordAt(msg, pos), WordAt(msg, pos + 4), Dec(env, Hyper(signed), msg, pos);
              && n.Got? && n.next == pos + 8 && n.value.Num?
              && InWidth(n.value.n, HYPER, signed) && (high * WORD + low - n.value.n) % HYPER == 0
  {
    if pos + 8 <= |msg| {
      var high: int, low: int := WordAt(msg, pos), WordAt(msg, pos + 4);
      NarrowAgrees(high * WORD + low, HYPER, signed);
    }
  }

  /** Bytes with a length in front are decoded exactly if the length is within the maximum and that
      many bytes are there; they are the bytes after the length, and the cursor goes to the next
      word. */
  lemma AnyBytes(env: Env, max: nat, msg: seq<uint8>, pos: nat)
    requires OnWord(pos)
    ensures var r := Dec(env, Bytes(max), msg, pos);
            && (r.Got? <==> pos + 4 <= |msg| && WordAt(msg, pos) <= max
                            && (WordAt(msg, pos) == 0 || pos + 4 + WordAt(msg, pos) <= |msg|))
            && (r.Got? ==>
                  var len := WordAt(msg, pos);
                  && r.value == Data(msg[pos + 4..pos + 4 + len])
                  && OnWord(r.next) && pos + 4 + len <= r.next < pos + 8 + len)
  {
  }

  /** A string is decoded as bytes are, but for a length of 2^32 - 1 that the maximum allows. */
  lemma AnyString(env: Env, max: nat, msg: seq<uint8>, pos: nat)
    ensures Dec(env, String(max), msg, pos) ==
            if pos + 4 <= |msg| && max >= 0xFFFF_FFFF && WordAt(msg, pos) == 0xFFFF_FFFF then Got(Null, pos + 4)
            else Dec(env, Bytes(max), msg, pos)
  {
  }
}
