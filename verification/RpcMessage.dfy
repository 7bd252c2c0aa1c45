/** The headers of call and reply messages (RFC 5531, section 9). */
module RpcMessage {
  import opened Arithmetic
  import opened XdrBuffer
  import opened XdrCodec
  import opened XdrProcs

  const CALL: uint32 := 0
  const REPLY: uint32 := 1
  const RPC_VERSION: uint32 := 2
  const ACCEPTED: uint32 := 0
  const DENIED: uint32 := 1
  const SUCCESS: uint32 := 0
  const PROG_MISMATCH: uint32 := 2
  const PROG_LOCKED: uint32 := 6
  const RPC_MISMATCH: uint32 := 0
  const AUTH_ERROR: uint32 := 1

  // ---------- Authentication ----------

  datatype Auth = Auth(flavor: uint32, body: seq<uint8>)

  const NO_AUTH := Auth(0, [])

  function AuthBytes(a: Auth): seq<uint8>
    requires |a.body| < LIMIT
  {
    Word(a.flavor) + Counted(a.body)
  }

  method SendAuth(xdr: Xdr, a: Auth) returns (ok: bool)
    requires Ready(xdr) && |a.body| < LIMIT
    modifies xdr`outNext, xdr.outMsg
    ensures Ready(xdr)
    ensures Put(ok, true, old(xdr.Sent()), xdr.Sent(), AuthBytes(a))
  {
    ok := xdr.SendWord(a.flavor);
    if !ok { return; }
    ghost var s1 := xdr.Sent();
    ok := xdr.SendWord(|a.body|);
    if !ok { return; }
    ghost var s2 := xdr.Sent();
    if |a.body| != 0 { ok := xdr.SendBytes(a.body); }
    PutBoth(ok, true, true, s1, s2, xdr.Sent(), Word(|a.body|), Padded(a.body));
    PutBoth(ok, true, true, old(xdr.Sent()), s1, xdr.Sent(), Word(a.flavor), Counted(a.body));
  }

  /** xdr_recv_auth reads the flavour, and fails whenever there is a body. */
  function TakeAuth(msg: seq<uint8>, pos: nat): Result<Auth> {
    match TakeWord(msg, pos)
    case Fail => Fail
    case Got(flavor, p) =>
      match TakeWord(msg, p)
      case Fail => Fail
      case Got(len, q) => if len == 0 then Got(Auth(flavor, []), q) else Fail
  }

  method RecvAuth(xdr: Xdr) returns (ok: bool, a: Auth)
    requires Ready(xdr)
    modifies xdr`inNext
    ensures xdr.Valid()
    ensures Took(ok, a, xdr.inNext, TakeAuth(xdr.Received(), old(xdr.inNext)))
  {
    a := NO_AUTH;
    var flavor, len;
    ok, flavor := xdr.RecvWord();
    if !ok { return; }
    ok, len := xdr.RecvWord();
    if !ok { return; }
    if len != 0 {
      var body;
      ok, body := xdr.RecvBytes(len);
      return false, a;
    }
    return true, Auth(flavor, []);
  }

  // ---------- Calls ----------

  function CallHeader(xid: uint32, prog: uint32, vers: uint32, proc: uint32, cred: Auth, verf: Auth): seq<uint8>
    requires |cred.body| < LIMIT && |verf.body| < LIMIT
  {
    Word(xid) + (Word(CALL) + (Word(RPC_VERSION) + (Word(prog) + (Word(vers) + (Word(proc) +
      (AuthBytes(cred) + AuthBytes(verf)))))))
  }

  /** Where svc_dispatch looks for the program, version and procedure and for the arguments. */
  const PROG_AT: nat := 12
  const VERS_AT: nat := 16
  const PROC_AT: nat := 20
  const ARGS_AT: nat := 40

  /** A header written field by field has its fields at the fixed offsets. */
  lemma FixedOffsets(msg: seq<uint8>, xid: uint32, prog: uint32, vers: uint32, proc: uint32, cred: Auth, verf: Auth)
    requires |cred.body| < LIMIT && |verf.body| < LIMIT
    requires At(msg, 0, CallHeader(xid, prog, vers, proc, cred, verf))
    ensures |msg| >= ARGS_AT
    ensures WordAt(msg, 0) == xid && WordAt(msg, 4) == CALL && WordAt(msg, 8) == RPC_VERSION
    ensures WordAt(msg, PROG_AT) == prog && WordAt(msg, VERS_AT) == vers && WordAt(msg, PROC_AT) == proc
  {
    var r5 := AuthBytes(cred) + AuthBytes(verf);
    var r4 := Word(proc) + r5;
    var r3 := Word(vers) + r4;
    var r2 := Word(prog) + r3;
    var r1 := Word(RPC_VERSION) + r2;
    TakesWord(msg, 0, xid, Word(CALL) + r1);
    TakesWord(msg, 4, CALL, r1);
    TakesWord(msg, 8, RPC_VERSION, r2);
    TakesWord(msg, 12, prog, r3);
    TakesWord(msg, 16, vers, r4);
    TakesWord(msg, 20, proc, r5);
  }

  /** The arguments begin where svc_dispatch expects them exactly if the credential and the
      verifier are both empty. */
  lemma ArgsAtFixedOffset(xid: uint32, prog: uint32, vers: uint32, proc: uint32, cred: Auth, verf: Auth)
    requires |cred.body| < LIMIT && |verf.body| < LIMIT
    ensures |CallHeader(xid, prog, vers, proc, cred, verf)| == ARGS_AT <==> cred.body == [] && verf.body == []
  {
  }

  lemma JoinWords(s: seq<uint8>, a: seq<uint8>, b: seq<uint8>, c: seq<uint8>, d: seq<uint8>, rest: seq<uint8>)
    ensures s + a + b + c + d + rest == s + (a + (b + (c + (d + rest))))
  {
    Joined(s + a + b + c, d, rest);
    Joined(s + a + b, c, d + rest);
    Joined(s + a, b, c + (d + rest));
    Joined(s, a, b + (c + (d + rest)));
  }

  lemma HeaderJoins(xid: uint32, prog: uint32, vers: uint32, proc: uint32, cred: Auth, verf: Auth)
    requires |cred.body| < LIMIT && |verf.body| < LIMIT
    ensures Word(xid) + Word(CALL) + Word(RPC_VERSION) + Word(prog) + Word(vers) + Word(proc)
            + (AuthBytes(cred) + AuthBytes(verf)) == CallHeader(xid, prog, vers, proc, cred, verf)
  {
    var auths := AuthBytes(cred) + AuthBytes(verf);
    JoinWords(Word(xid) + Word(CALL), Word(RPC_VERSION), Word(prog), Word(vers), Word(proc), auths);
    Joined(Word(xid), Word(CALL), Word(RPC_VERSION) + (Word(prog) + (Word(vers) + (Word(proc) + auths))));
  }

  /** The six words before the authentication fields; they always fit. */
  method CallMsgWords(xdr: Xdr, prog: uint32, vers: uint32, proc: uint32)
    requires Ready(xdr)
    modifies xdr`prog, xdr`xid, xdr`outNext, xdr.outMsg
    ensures Ready(xdr) && xdr.prog == prog && xdr.xid == (old(xdr.xid) + 1) % 0x1_0000_0000
    ensures xdr.Sent() == Word(xdr.xid) + Word(CALL) + Word(RPC_VERSION) + Word(prog) + Word(vers) + Word(proc)
  {
    xdr.prog := prog;
    xdr.MsgStart(CALL);
    var _ := xdr.SendWord(RPC_VERSION);
    var _ := xdr.SendWord(prog);
    var _ := xdr.SendWord(vers);
    var _ := xdr.SendWord(proc);
  }

  method CallMsgStart(xdr: Xdr, prog: uint32, vers: uint32, proc: uint32, cred: Auth, verf: Auth) returns (ok: bool)
    requires Ready(xdr) && |cred.body| < LIMIT && |verf.body| < LIMIT
    modifies xdr`prog, xdr`xid, xdr`outNext, xdr.outMsg
    ensures Ready(xdr) && xdr.prog == prog && xdr.xid == (old(xdr.xid) + 1) % 0x1_0000_0000
    ensures Put(ok, true, [], xdr.Sent(), CallHeader(xdr.xid, prog, vers, proc, cred, verf))
  {
    CallMsgWords(xdr, prog, vers, proc);
    ghost var s := xdr.Sent();
    HeaderJoins(xdr.xid, prog, vers, proc, cred, verf);
    ok := SendAuth(xdr, cred);
    if !ok { return; }
    ghost var s1 := xdr.Sent();
    ok := SendAuth(xdr, verf);
    PutBoth(ok, true, true, s, s1, xdr.Sent(), AuthBytes(cred), AuthBytes(verf));
  }

  // ---------- Replies ----------

  datatype Accept = Stat(code: uint32) | ProgMismatch(low: uint32, high: uint32)
  datatype Reject = Mismatch(low: uint32, high: uint32) | AuthError(why: uint32) | OtherReject(code: uint32)
  datatype Reply = Accepted(verf: Auth, accept: Accept) | Denied(reject: Reject)

  /** The status codes belong to the constructors that carry the right fields. */
  predicate IsReply(r: Reply) {
    && (r.Accepted? ==> |r.verf.body| < LIMIT)
    && (r.Accepted? && r.accept.Stat? ==> r.accept.code != PROG_MISMATCH)
    && (r.Denied? && r.reject.OtherReject? ==> r.reject.code > AUTH_ERROR)
  }

  /** The codes the protocol knows. */
  predicate Legal(r: Reply) {
    && (r.Accepted? && r.accept.Stat? ==> r.accept.code <= PROG_LOCKED)
    && (r.Denied? ==> !r.reject.OtherReject?)
  }

  function AcceptBytes(a: Accept): seq<uint8> {
    match a
    case Stat(code) => Word(code)
    case ProgMismatch(low, high) => Word(PROG_MISMATCH) + (Word(low) + Word(high))
  }

  function RejectBytes(r: Reject): seq<uint8> {
    match r
    case Mismatch(low, high) => Word(RPC_MISMATCH) + (Word(low) + Word(high))
    case AuthError(why) => Word(AUTH_ERROR) + Word(why)
    case OtherReject(code) => Word(code)
  }

  function ReplyBytes(r: Reply): seq<uint8>
    requires IsReply(r)
  {
    match r
    case Accepted(verf, a) => Word(ACCEPTED) + (AuthBytes(verf) + AcceptBytes(a))
    case Denied(d) => Word(DENIED) + RejectBytes(d)
  }

  lemma AcceptOffsets(msg: seq<uint8>, pos: nat, a: Accept)
    requires At(msg, pos, AcceptBytes(a))
    ensures pos + 4 <= |msg|
    ensures match a
            case Stat(code) => WordAt(msg, pos) == code
            case ProgMismatch(low, high) =>
              && pos + 12 <= |msg| && WordAt(msg, pos) == 2
              && WordAt(msg, pos + 4) == low && WordAt(msg, pos + 8) == high
  {
    match a
    case Stat(code) => AtWord(msg, pos, code);
    case ProgMismatch(low, high) =>
      TakesWord(msg, pos, PROG_MISMATCH, Word(low) + Word(high));
      TakesWord(msg, pos + 4, low, Word(high));
      AtWord(msg, pos + 8, high);
  }

  lemma RejectOffsets(msg: seq<uint8>, pos: nat, r: Reject)
    requires At(msg, pos, RejectBytes(r))
    ensures pos + 4 <= |msg|
    ensures match r
            case Mismatch(low, high) =>
              && pos + 12 <= |msg| && WordAt(msg, pos) == 0
              && WordAt(msg, pos + 4) == low && WordAt(msg, pos + 8) == high
            case AuthError(why) => pos + 8 <= |msg| && WordAt(msg, pos) == 1 && WordAt(msg, pos + 4) == why
            case OtherReject(code) => WordAt(msg, pos) == code
  {
    match r
    case Mismatch(low, high) =>
      TakesWord(msg, pos, RPC_MISMATCH, Word(low) + Word(high));
      TakesWord(msg, pos + 4, low, Word(high));
      AtWord(msg, pos + 8, high);
    case AuthError(why) =>
      TakesWord(msg, pos, AUTH_ERROR, Word(why));
      AtWord(msg, pos + 4, why);
    case OtherReject(code) => AtWord(msg, pos, code);
  }

  lemma AcceptedOffsets(msg: seq<uint8>, pos: nat, verf: Auth, a: Accept)
    requires |verf.body| < LIMIT && At(msg, pos, Word(ACCEPTED) + (AuthBytes(verf) + AcceptBytes(a)))
    ensures pos + 12 <= |msg| && WordAt(msg, pos) == 0
    ensures WordAt(msg, pos + 4) == verf.flavor && WordAt(msg, pos + 8) == |verf.body|
    ensures At(msg, pos + 12 + |Padded(verf.body)|, AcceptBytes(a))
    ensures var s := pos + 12 + |Padded(verf.body)|;
            && s + 4 <= |msg|
            && match a
               case Stat(code) => WordAt(msg, s) == code
               case ProgMismatch(low, high) =>
                 s + 12 <= |msg| && WordAt(msg, s) == 2 && WordAt(msg, s + 4) == low && WordAt(msg, s + 8) == high
  {
    var x, y := AuthBytes(verf), AcceptBytes(a);
    TakesWord(msg, pos, ACCEPTED, x + y);
    AtSplit(msg, pos + 4, x, y);
    AuthOffsets(msg, pos + 4, verf);
    AcceptOffsets(msg, pos + 4 + |x|, a);
  }

  lemma AuthOffsets(msg: seq<uint8>, pos: nat, a: Auth)
    requires |a.body| < LIMIT && At(msg, pos, AuthBytes(a))
    ensures pos + 8 <= |msg| && WordAt(msg, pos) == a.flavor && WordAt(msg, pos + 4) == |a.body|
    ensures |AuthBytes(a)| == 8 + |Padded(a.body)|
  {
    TakesWord(msg, pos, a.flavor, Counted(a.body));
    TakesWord(msg, pos + 4, |a.body|, Padded(a.body));
  }

  /** A reply header has its fields at these offsets; after an empty verifier the status of an
      accepted one is its fourth word. */
  lemma ReplyOffsets(msg: seq<uint8>, pos: nat, r: Reply)
    requires IsReply(r) && At(msg, pos, ReplyBytes(r))
    ensures pos + 8 <= |msg| && WordAt(msg, pos) == if r.Accepted? then 0 else 1
    ensures r.Accepted? ==>
              var s := pos + 12 + |Padded(r.verf.body)|;
              && s + 4 <= |msg| && WordAt(msg, pos + 4) == r.verf.flavor && WordAt(msg, pos + 8) == |r.verf.body|
              && match r.accept
                 case Stat(code) => WordAt(msg, s) == code
                 case ProgMismatch(low, high) =>
                   s + 12 <= |msg| && WordAt(msg, s) == 2 && WordAt(msg, s + 4) == low && WordAt(msg, s + 8) == high
    ensures r.Denied? ==>
              match r.reject
              case Mismatch(low, high) =>
                && pos + 16 <= |msg| && WordAt(msg, pos + 4) == 0
                && WordAt(msg, pos + 8) == low && WordAt(msg, pos + 12) == high
              case AuthError(why) => pos + 12 <= |msg| && WordAt(msg, pos + 4) == 1 && WordAt(msg, pos + 8) == why
              case OtherReject(code) => WordAt(msg, pos + 4) == code
  {
    match r
    case Accepted(verf, a) => AcceptedOffsets(msg, pos, verf, a);
    case Denied(d) =>
      TakesWord(msg, pos, DENIED, RejectBytes(d));
      RejectOffsets(msg, pos + 4, d);
  }

  method SendPair(xdr: Xdr, code: uint32, low: uint32, high: uint32) returns (ok: bool)
    requires Ready(xdr)
    modifies xdr`outNext, xdr.outMsg
    ensures Ready(xdr)
    ensures Put(ok, true, old(xdr.Sent()), xdr.Sent(), Word(code) + (Word(low) + Word(high)))
  {
    ok := xdr.SendWord(code);
    if !ok { return; }
    ghost var s1 := xdr.Sent();
    ok := xdr.SendWord(low);
    if !ok { return; }
    ghost var s2 := xdr.Sent();
    ok := xdr.SendWord(high);
    PutBoth(ok, true, true, s1, s2, xdr.Sent(), Word(low), Word(high));
    PutBoth(ok, true, true, old(xdr.Sent()), s1, xdr.Sent(), Word(code), Word(low) + Word(high));
  }

  method SendAccept(xdr: Xdr, a: Accept) returns (ok: bool)
    requires Ready(xdr) && (a.Stat? ==> a.code != PROG_MISMATCH)
    modifies xdr`outNext, xdr.outMsg
    ensures Ready(xdr)
    ensures Put(ok, a.Stat? ==> a.code <= PROG_LOCKED, old(xdr.Sent()), xdr.Sent(), AcceptBytes(a))
  {
    match a
    case Stat(code) =>
      ok := xdr.SendWord(code);
      ok := ok && code <= PROG_LOCKED;
    case ProgMismatch(low, high) => ok := SendPair(xdr, PROG_MISMATCH, low, high);
  }

  method SendAccepted(xdr: Xdr, verf: Auth, a: Accept) returns (ok: bool)
    requires Ready(xdr) && IsReply(Accepted(verf, a))
    modifies xdr`outNext, xdr.outMsg
    ensures Ready(xdr)
    ensures Put(ok, Legal(Accepted(verf, a)), old(xdr.Sent()), xdr.Sent(), AuthBytes(verf) + AcceptBytes(a))
  {
    ok := SendAuth(xdr, verf);
    if !ok { return; }
    ghost var s1 := xdr.Sent();
    ok := SendAccept(xdr, a);
    PutBoth(ok, true, Legal(Accepted(verf, a)), old(xdr.Sent()), s1, xdr.Sent(), AuthBytes(verf), AcceptBytes(a));
  }

  method SendDenied(xdr: Xdr, r: Reject) returns (ok: bool)
    requires Ready(xdr) && IsReply(Denied(r))
    modifies xdr`outNext, xdr.outMsg
    ensures Ready(xdr)
    ensures Put(ok, Legal(Denied(r)), old(xdr.Sent()), xdr.Sent(), RejectBytes(r))
  {
    match r
    case Mismatch(low, high) => ok := SendPair(xdr, RPC_MISMATCH, low, high);
    case AuthError(why) =>
      ok := xdr.SendWord(AUTH_ERROR);
      if !ok { return; }
      ghost var s1 := xdr.Sent();
      ok := xdr.SendWord(why);
      PutBoth(ok, true, true, old(xdr.Sent()), s1, xdr.Sent(), Word(AUTH_ERROR), Word(why));
    case OtherReject(code) =>
      var _ := xdr.SendWord(code);
      ok := false;
  }

  method SendReplyHeader(xdr: Xdr, r: Reply) returns (ok: bool)
    requires Ready(xdr) && IsReply(r)
    modifies xdr`outNext, xdr.outMsg
    ensures Ready(xdr)
    ensures Put(ok, Legal(r), old(xdr.Sent()), xdr.Sent(), ReplyBytes(r))
  {
    ok := xdr.SendWord(if r.Accepted? then ACCEPTED else DENIED);
    if !ok { return; }
    ghost var s1 := xdr.Sent();
    match r
    case Accepted(verf, a) =>
      ok := SendAccepted(xdr, verf, a);
      PutBoth(ok, true, Legal(r), old(xdr.Sent()), s1, xdr.Sent(), Word(ACCEPTED), AuthBytes(verf) + AcceptBytes(a));
    case Denied(d) =>
      ok := SendDenied(xdr, d);
      PutBoth(ok, true, Legal(r), old(xdr.Sent()), s1, xdr.Sent(), Word(DENIED), RejectBytes(d));
  }

  function TakePair(msg: seq<uint8>, pos: nat): Result<(uint32, uint32)> {
    match TakeWord(msg, pos)
    case Fail => Fail
    case Got(low, p) =>
      match TakeWord(msg, p)
      case Fail => Fail
      case Got(high, q) => Got((low, high), q)
  }

  function TakeAccept(msg: seq<uint8>, pos: nat): Result<Accept> {
    match TakeWord(msg, pos)
    case Fail => Fail
    case Got(code, p) =>
      if code == PROG_MISMATCH then
        match TakePair(msg, p)
        case Fail => Fail
        case Got(v, q) => Got(ProgMismatch(v.0, v.1), q)
      else if code <= PROG_LOCKED then Got(Stat(code), p) else Fail
  }

  function TakeReject(msg: seq<uint8>, pos: nat): Result<Reject> {
    match TakeWord(msg, pos)
    case Fail => Fail
    case Got(code, p) =>
      if code == RPC_MISMATCH then
        match TakePair(msg, p)
        case Fail => Fail
        case Got(v, q) => Got(Mismatch(v.0, v.1), q)
      else if code == AUTH_ERROR then
        match TakeWord(msg, p)
        case Fail => Fail
        case Got(why, q) => Got(AuthError(why), q)
      else Fail
  }

  function TakeReply(msg: seq<uint8>, pos: nat): Result<Reply> {
    match TakeWord(msg, pos)
    case Fail => Fail
    case Got(stat, p) =>
      if stat == ACCEPTED then
        match TakeAuth(msg, p)
        case Fail => Fail
        case Got(verf, q) =>
          match TakeAccept(msg, q)
          case Fail => Fail
          case Got(a, e) => Got(Accepted(verf, a), e)
      else if stat == DENIED then
        match TakeReject(msg, p)
        case Fail => Fail
        case Got(d, e) => Got(Denied(d), e)
      else Fail
  }

  method RecvPair(xdr: Xdr) returns (ok: bool, v: (uint32, uint32))
    requires Ready(xdr)
    modifies xdr`inNext
    ensures Ready(xdr) && Took(ok, v, xdr.inNext, TakePair(xdr.Received(), old(xdr.inNext)))
  {
    var low, high;
    ok, low := xdr.RecvWord();
    if !ok { return false, (0, 0); }
    ok, high := xdr.RecvWord();
    v := (low, high);
  }

  method RecvAccept(xdr: Xdr) returns (ok: bool, a: Accept)
    requires Ready(xdr)
    modifies xdr`inNext
    ensures Ready(xdr) && Took(ok, a, xdr.inNext, TakeAccept(xdr.Received(), old(xdr.inNext)))
  {
    var code;
    ok, code := xdr.RecvWord();
    a := Stat(code);
    if !ok { return; }
    if code == PROG_MISMATCH {
      var v;
      ok, v := RecvPair(xdr);
      a := ProgMismatch(v.0, v.1);
    } else {
      ok := code <= PROG_LOCKED;
    }
  }

  method RecvReject(xdr: Xdr) returns (ok: bool, r: Reject)
    requires Ready(xdr)
    modifies xdr`inNext
    ensures Ready(xdr) && Took(ok, r, xdr.inNext, TakeReject(xdr.Received(), old(xdr.inNext)))
  {
    var code;
    ok, code := xdr.RecvWord();
    r := OtherReject(code);
    if !ok { return; }
    if code == RPC_MISMATCH {
      var v;
      ok, v := RecvPair(xdr);
      r := Mismatch(v.0, v.1);
    } else if code == AUTH_ERROR {
      var why;
      ok, why := xdr.RecvWord();
      r := AuthError(why);
    } else {
      ok := false;
    }
  }

  method RecvReplyHeader(xdr: Xdr) returns (ok: bool, r: Reply)
    requires Ready(xdr)
    modifies xdr`inNext
    ensures xdr.Valid() && (ok ==> Ready(xdr))
    ensures Took(ok, r, xdr.inNext, TakeReply(xdr.Received(), old(xdr.inNext)))
  {
    var stat;
    ok, stat := xdr.RecvWord();
    r := Denied(OtherReject(stat));
    if !ok { return; }
    if stat == ACCEPTED {
      var verf, a;
      ok, verf := RecvAuth(xdr);
      if !ok { return; }
      ok, a := RecvAccept(xdr);
      r := Accepted(verf, a);
    } else if stat == DENIED {
      var d;
      ok, d := RecvReject(xdr);
      r := Denied(d);
    } else {
      ok := false;
    }
  }

  // ---------- Replies are read back ----------

  lemma TakesPair(msg: seq<uint8>, pos: nat, low: uint32, high: uint32)
    requires At(msg, pos, Word(low) + Word(high))
    ensures TakePair(msg, pos) == Got((low, high), pos + 8)
  {
    TakesWord(msg, pos, low, Word(high));
    AtWord(msg, pos + 4, high);
  }

  lemma TakesAuth(msg: seq<uint8>, pos: nat, a: Auth, rest: seq<uint8>)
    requires |a.body| < LIMIT && At(msg, pos, AuthBytes(a) + rest)
    ensures a.body != [] ==> TakeAuth(msg, pos) == Fail
    ensures a.body == [] ==> TakeAuth(msg, pos) == Got(a, pos + 8) && At(msg, pos + 8, rest)
  {
    AtSplit(msg, pos, AuthBytes(a), rest);
    TakesWord(msg, pos, a.flavor, Counted(a.body));
    TakesWord(msg, pos + 4, |a.body|, Padded(a.body));
  }

  lemma TakesAccept(msg: seq<uint8>, pos: nat, a: Accept)
    requires a.Stat? ==> a.code != PROG_MISMATCH
    requires At(msg, pos, AcceptBytes(a))
    ensures TakeAccept(msg, pos) ==
            if a.Stat? && a.code > PROG_LOCKED then Fail else Got(a, pos + |AcceptBytes(a)|)
  {
    match a
    case Stat(code) => AtWord(msg, pos, code);
    case ProgMismatch(low, high) =>
      TakesWord(msg, pos, PROG_MISMATCH, Word(low) + Word(high));
      TakesPair(msg, pos + 4, low, high);
  }

  lemma TakesReject(msg: seq<uint8>, pos: nat, r: Reject)
    requires r.OtherReject? ==> r.code > AUTH_ERROR
    requires At(msg, pos, RejectBytes(r))
    ensures TakeReject(msg, pos) == if r.OtherReject? then Fail else Got(r, pos + |RejectBytes(r)|)
  {
    match r
    case Mismatch(low, high) =>
      TakesWord(msg, pos, RPC_MISMATCH, Word(low) + Word(high));
      TakesPair(msg, pos + 4, low, high);
    case AuthError(why) =>
      TakesWord(msg, pos, AUTH_ERROR, Word(why));
      AtWord(msg, pos + 4, why);
    case OtherReject(code) => AtWord(msg, pos, code);
  }

  /** A reply header that was sent is read back whole, exactly if its codes are known ones and it
      carries no verifier body. */
  lemma ReplyRoundTrip(msg: seq<uint8>, pos: nat, r: Reply)
    requires IsReply(r) && At(msg, pos, ReplyBytes(r))
    ensures TakeReply(msg, pos) ==
            if Legal(r) && (r.Accepted? ==> r.verf.body == []) then Got(r, pos + |ReplyBytes(r)|) else Fail
  {
    match r
    case Accepted(verf, a) =>
      TakesWord(msg, pos, ACCEPTED, AuthBytes(verf) + AcceptBytes(a));
      TakesAuth(msg, pos + 4, verf, AcceptBytes(a));
      if verf.body == [] { TakesAccept(msg, pos + 12, a); }
    case Denied(d) =>
      TakesWord(msg, pos, DENIED, RejectBytes(d));
      TakesReject(msg, pos + 4, d);
  }

  lemma WordStands(msg: seq<uint8>, pos: nat)
    requires TakeWord(msg, pos).Got?
    ensures At(msg, pos, Word(TakeWord(msg, pos).value))
  {
    WordIsBytes(msg[pos..pos + 4]);
  }

  lemma AtJoin(msg: seq<uint8>, pos: nat, a: seq<uint8>, b: seq<uint8>)
    requires At(msg, pos, a) && At(msg, pos + |a|, b)
    ensures At(msg, pos, a + b)
  {
    assert msg[pos..pos + |a| + |b|] == msg[pos..pos + |a|] + msg[pos + |a|..pos + |a| + |b|];
  }

  lemma PairStands(msg: seq<uint8>, pos: nat)
    requires TakePair(msg, pos).Got?
    ensures var d := TakePair(msg, pos);
            At(msg, pos, Word(d.value.0) + Word(d.value.1)) && d.next == pos + 8
  {
    WordStands(msg, pos);
    WordStands(msg, pos + 4);
    AtJoin(msg, pos, Word(TakePair(msg, pos).value.0), Word(TakePair(msg, pos).value.1));
  }

  lemma AuthStands(msg: seq<uint8>, pos: nat)
    requires TakeAuth(msg, pos).Got?
    ensures var d := TakeAuth(msg, pos);
            d.value.body == [] && At(msg, pos, AuthBytes(d.value)) && d.next == pos + 8
  {
    var a := TakeAuth(msg, pos).value;
    WordStands(msg, pos);
    WordStands(msg, pos + 4);
    assert Counted([]) == Word(0);
    AtJoin(msg, pos, Word(a.flavor), Word(0));
  }

  lemma AcceptStands(msg: seq<uint8>, pos: nat)
    requires TakeAccept(msg, pos).Got?
    ensures var d := TakeAccept(msg, pos);
            At(msg, pos, AcceptBytes(d.value)) && d.next == pos + |AcceptBytes(d.value)|
  {
    var a := TakeAccept(msg, pos).value;
    WordStands(msg, pos);
    if a.ProgMismatch? {
      PairStands(msg, pos + 4);
      AtJoin(msg, pos, Word(PROG_MISMATCH), Word(a.low) + Word(a.high));
    }
  }

  lemma RejectStands(msg: seq<uint8>, pos: nat)
    requires TakeReject(msg, pos).Got?
    ensures var d := TakeReject(msg, pos);
            At(msg, pos, RejectBytes(d.value)) && d.next == pos + |RejectBytes(d.value)|
  {
    var r := TakeReject(msg, pos).value;
    WordStands(msg, pos);
    match r
    case Mismatch(low, high) =>
      PairStands(msg, pos + 4);
      AtJoin(msg, pos, Word(RPC_MISMATCH), Word(low) + Word(high));
    case AuthError(why) =>
      WordStands(msg, pos + 4);
      AtJoin(msg, pos, Word(AUTH_ERROR), Word(why));
    case OtherReject(_) =>
  }

  lemma EmptyAuth(a: Auth)
    requires a.body == []
    ensures |AuthBytes(a)| == 8
  {
  }

  lemma ThreeStand(msg: seq<uint8>, pos: nat, a: seq<uint8>, b: seq<uint8>, c: seq<uint8>)
    requires At(msg, pos, a) && At(msg, pos + |a|, b) && At(msg, pos + |a| + |b|, c)
    ensures At(msg, pos, a + (b + c)) && |a + (b + c)| == |a| + |b| + |c|
  {
    AtJoin(msg, pos + |a|, b, c);
    AtJoin(msg, pos, a, b + c);
  }

  lemma AcceptedStands(msg: seq<uint8>, pos: nat, verf: Auth, a: Accept)
    requires At(msg, pos, Word(ACCEPTED)) && |verf.body| < LIMIT
    requires TakeAuth(msg, pos + 4) == Got(verf, pos + 12)
    requires TakeAccept(msg, pos + 12).Got? && TakeAccept(msg, pos + 12).value == a
    ensures verf.body == [] && At(msg, pos, Word(ACCEPTED) + (AuthBytes(verf) + AcceptBytes(a)))
    ensures TakeAccept(msg, pos + 12).next == pos + |Word(ACCEPTED) + (AuthBytes(verf) + AcceptBytes(a))|
  {
    AuthStands(msg, pos + 4);
    AcceptStands(msg, pos + 12);
    EmptyAuth(verf);
    ThreeStand(msg, pos, Word(ACCEPTED), AuthBytes(verf), AcceptBytes(a));
  }

  lemma DeniedStands(msg: seq<uint8>, pos: nat, d: Reject)
    requires At(msg, pos, Word(DENIED)) && TakeReject(msg, pos + 4).Got? && TakeReject(msg, pos + 4).value == d
    ensures At(msg, pos, Word(DENIED) + RejectBytes(d))
    ensures TakeReject(msg, pos + 4).next == pos + |Word(DENIED) + RejectBytes(d)|
  {
    RejectStands(msg, pos + 4);
    AtJoin(msg, pos, Word(DENIED), RejectBytes(d));
  }

  lemma TakenIsLegal(msg: seq<uint8>, pos: nat)
    ensures var d := TakeReply(msg, pos); d.Got? ==> IsReply(d.value) && Legal(d.value)
  {
  }

  /** The header of a reply that the protocol knows, with an empty verifier if it has one, stands at
      pos. */
  ghost predicate ReplyAt(msg: seq<uint8>, pos: nat, r: Reply) {
    IsReply(r) && Legal(r) && (r.Accepted? ==> r.verf.body == []) && At(msg, pos, ReplyBytes(r))
  }

  lemma ReplyStands(msg: seq<uint8>, pos: nat)
    requires TakeReply(msg, pos).Got?
    ensures var d := TakeReply(msg, pos);
            ReplyAt(msg, pos, d.value) && d.next == pos + |ReplyBytes(d.value)|
  {
    TakenIsLegal(msg, pos);
    WordStands(msg, pos);
    match TakeReply(msg, pos).value
    case Accepted(verf, a) =>
      AuthStands(msg, pos + 4);
      AcceptedStands(msg, pos, verf, a);
    case Denied(d) => DeniedStands(msg, pos, d);
  }

  /** Of any message at all: a header is read exactly if such a reply stands there, and it is that
      one. */
  lemma ReadExactly(msg: seq<uint8>, pos: nat, r: Reply)
    ensures TakeReply(msg, pos).Got? && TakeReply(msg, pos).value == r <==> ReplyAt(msg, pos, r)
    ensures ReplyAt(msg, pos, r) ==> TakeReply(msg, pos).next == pos + |ReplyBytes(r)|
  {
    if TakeReply(msg, pos).Got? { ReplyStands(msg, pos); }
    if ReplyAt(msg, pos, r) { ReplyRoundTrip(msg, pos, r); }
  }

  /** Any message at all: an accepted reply whose verifier has a non-zero length is rejected. */
  lemma VerifierMustBeEmpty(msg: seq<uint8>, pos: nat)
    requires pos + 12 <= |msg| && WordAt(msg, pos) == ACCEPTED && WordAt(msg, pos + 8) != 0
    ensures TakeReply(msg, pos) == Fail
  {
  }

  // ---------- The client's status ----------

  /** enum clnt_stat, as far as a reply decides it. */
  const VERSMISMATCH := 6
  const AUTHERROR := 7
  const PROGUNAVAIL := 8
  const PROGVERSMISMATCH := 9
  const PROCUNAVAIL := 10
  const CANTDECODEARGS := 11
  const SYSTEMERROR := 12
  const UNKNOWNHOST := 13

  /** clnt_call turns a reply's status into a client status by adding an offset. */
  function ClientStatus(r: Reply): int
    requires Legal(r) && IsReply(r)
  {
    match r
    case Denied(d) => (if d.Mismatch? then RPC_MISMATCH else AUTH_ERROR) + VERSMISMATCH
    case Accepted(_, a) =>
      var code := if a.Stat? then a.code else PROG_MISMATCH;
      if code == SUCCESS then 0 else code + AUTHERROR
  }

  /** The client status that has the name of the reply's status; a locked program has none. */
  function NamedStatus(r: Reply): int
    requires Legal(r) && IsReply(r)
  {
    match r
    case Denied(Mismatch(_, _)) => VERSMISMATCH
    case Denied(_) => AUTHERROR
    case Accepted(_, ProgMismatch(_, _)) => PROGVERSMISMATCH
    case Accepted(_, Stat(code)) =>
      if code == 0 then 0
      else if code == 1 then PROGUNAVAIL
      else if code == 3 then PROCUNAVAIL
      else if code == 4 then CANTDECODEARGS
      else if code == 5 then SYSTEMERROR
      else -1
  }

  /** The offsets give every reply the status of its own name, except that a locked program
      becomes an unknown host. */
  lemma StatusIsNamed(r: Reply)
    requires Legal(r) && IsReply(r)
    ensures ClientStatus(r) == NamedStatus(r) <==> r.Denied? || r.accept != Stat(PROG_LOCKED)
    ensures r.Accepted? && r.accept == Stat(PROG_LOCKED) ==> ClientStatus(r) == UNKNOWNHOST
  {
  }
}
