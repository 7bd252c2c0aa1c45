/** A remote call from end to end: what clnt_call writes, what svc_dispatch and its helpers make
    of it, and what clnt_call makes of the reply. */
module RpcCall {
  import opened Arithmetic
  import opened XdrBuffer
  import opened XdrCodec
  import opened XdrProcs
  import opened RpcMessage

  /** enum clnt_stat, the values that clnt_call itself produces. */
  const OK := 0
  const CANTENCODEARGS := 1
  const CANTDECODERES := 2
  const CANTRECV := 4

  // ---------- Values with their types ----------

  /** How to encode or decode: a codec with what the names in it mean. */
  datatype Codec = Codec(env: Env, ty: Ty)
  type XdrProc = c: Codec | Storable(c.ty) && AllStorable(c.env) ghost witness Codec(k => Void, Void)

  /** A value together with its codec. */
  datatype Typed = Typed(codec: XdrProc, v: Val)
  type Value = t: Typed | HasType(t.codec.env, t.codec.ty, t.v) ghost witness Typed(Codec(k => Void, Void), Unit)

  function Encoded(t: Value): seq<uint8> { Enc(t.codec.env, t.codec.ty, t.v) }

  function Seen(t: Value): Val { Norm(t.codec.env, t.codec.ty, t.v) }

  /** t can be sent behind a header of the given length. */
  predicate Sendable(t: Value, header: nat) {
    Within(t.codec.env, t.codec.ty, t.v) && header + |Encoded(t)| <= MAX
  }

  function Decoded(c: XdrProc, msg: seq<uint8>, pos: nat): Result<Val> { Dec(c.env, c.ty, msg, pos) }

  lemma SeenAgain(t: Value, msg: seq<uint8>, pos: nat)
    requires Within(t.codec.env, t.codec.ty, t.v) && OnWord(pos) && At(msg, pos, Encoded(t))
    ensures Decoded(t.codec, msg, pos) == Got(Seen(t), pos + |Encoded(t)|)
  {
    RoundTrip(t.codec.env, t.codec.ty, t.v, msg, pos);
  }

  method EncodeWith(xdr: Xdr, t: Value) returns (ok: bool)
    requires Ready(xdr) && xdr.op == ENCODE
    modifies xdr`outNext, xdr`inNext, xdr.outMsg
    ensures Ready(xdr)
    ensures Put(ok, Within(t.codec.env, t.codec.ty, t.v), old(xdr.Sent()), xdr.Sent(), Encoded(t))
  {
    var r;
    ok, r := Code(xdr, t.codec.env, t.codec.ty, t.v);
  }

  method DecodeWith(xdr: Xdr, c: XdrProc) returns (ok: bool, v: Val)
    requires Ready(xdr) && xdr.op == DECODE
    modifies xdr`outNext, xdr`inNext, xdr.outMsg
    ensures Ready(xdr) && xdr.Sent() == old(xdr.Sent())
    ensures Took(ok, v, xdr.inNext, Decoded(c, xdr.Received(), old(xdr.inNext)))
  {
    ok, v := Code(xdr, c.env, c.ty, Unit);
  }

  // ---------- The client ----------

  function Header(xid: uint32, prog: uint32, vers: uint32, proc: uint32): (h: seq<uint8>)
    ensures |h| == ARGS_AT
  {
    ArgsAtFixedOffset(xid, prog, vers, proc, NO_AUTH, NO_AUTH);
    CallHeader(xid, prog, vers, proc, NO_AUTH, NO_AUTH)
  }

  /** The header with two empty authentication fields always fits. */
  method ClntHeader(xdr: Xdr, proc: uint32) returns (ok: bool)
    requires Ready(xdr)
    modifies xdr`op, xdr`prog, xdr`xid, xdr`outNext, xdr.outMsg
    ensures Ready(xdr) && ok && xdr.op == ENCODE && xdr.prog == old(xdr.prog)
    ensures xdr.Sent() == Header(xdr.xid, xdr.prog, xdr.vers, proc)
  {
    xdr.op := ENCODE;
    ok := CallMsgStart(xdr, xdr.prog, xdr.vers, proc, NO_AUTH, NO_AUTH);
    ArgsAtFixedOffset(xdr.xid, xdr.prog, xdr.vers, proc, NO_AUTH, NO_AUTH);
  }

  /** clnt_call up to the message being complete; not ok is CANTENCODEARGS. */
  method ClntSend(xdr: Xdr, proc: uint32, args: Value) returns (ok: bool, packet: seq<uint8>)
    requires Ready(xdr)
    modifies xdr
    modifies xdr.outMsg
    ensures Ready(xdr) && xdr.prog == old(xdr.prog) && xdr.vers == old(xdr.vers)
    ensures ok <==> Sendable(args, ARGS_AT)
    ensures ok <==> Within(args.codec.env, args.codec.ty, args.v) && 40 + |Encoded(args)| <= MAX
    ensures ok ==> packet == Header(xdr.xid, xdr.prog, xdr.vers, proc) + Encoded(args) == xdr.Sent()
  {
    packet := [];
    ok := ClntHeader(xdr, proc);
    ok := EncodeWith(xdr, args);
    if !ok { return; }
    packet := xdr.outMsg[..xdr.outNext];
  }

  /** What a reply means to the client whose call had the given number. */
  function Outcome(c: XdrProc, sentXid: seq<uint8>, gotXid: seq<uint8>, reply: seq<uint8>): (int, Val) {
    if sentXid != gotXid then (CANTRECV, Unit) else
    match TakeReply(reply, 8)
    case Fail => (CANTRECV, Unit)
    case Got(header, p) =>
      if !(IsReply(header) && Legal(header)) then (CANTRECV, Unit)
      else if ClientStatus(header) != OK then (ClientStatus(header), Unit)
      else match Decoded(c, reply, p)
           case Fail => (CANTDECODERES, Unit)
           case Got(v, _) => (OK, v)
  }

  /** The bytes after the right number are an accepted success with an empty verifier. */
  predicate SuccessAt(reply: seq<uint8>) {
    |reply| >= 24 && WordAt(reply, 8) == 0 && WordAt(reply, 16) == 0 && WordAt(reply, 20) == 0
  }

  /** When a call succeeds: exactly if the numbers agree, an accepted success with an empty verifier
      follows, and the results after it decode; they are what the call yields. */
  lemma SuccessExactly(c: XdrProc, sentXid: seq<uint8>, gotXid: seq<uint8>, reply: seq<uint8>)
    ensures var (status, result) := Outcome(c, sentXid, gotXid, reply);
            && (status == OK <==> sentXid == gotXid && SuccessAt(reply) && Decoded(c, reply, 24).Got?)
            && (status == OK ==> result == Decoded(c, reply, 24).value)
            && (status != OK ==> result == Unit)
            && (status == CANTDECODERES <==> sentXid == gotXid && SuccessAt(reply) && Decoded(c, reply, 24).Fail?)
            && (sentXid != gotXid ==> status == CANTRECV)
  {
    TakenIsLegal(reply, 8);
    ErrorsAreDistinct(reply);
  }

  /** No status that a reply names is one of clnt_call's own, and only an accepted success is OK. */
  lemma ErrorsAreDistinct(reply: seq<uint8>)
    ensures var d := TakeReply(reply, 8);
            && (d.Got? && ClientStatusOf(d.value) == OK <==> SuccessAt(reply))
            && (d.Got? ==> ClientStatusOf(d.value) == OK || ClientStatusOf(d.value) >= VERSMISMATCH)
            && (SuccessAt(reply) ==> d.next == 24)
  {
    TakenIsLegal(reply, 8);
  }

  function ClientStatusOf(r: Reply): int { if IsReply(r) && Legal(r) then ClientStatus(r) else CANTRECV }

  /** Every reply that the protocol knows and that has an empty verifier, standing after the right
      number, gives the call the status of its own name; a locked program becomes an unknown host,
      and a success may still have results that do not decode. */
  lemma ReplyDecidesStatus(c: XdrProc, xid: seq<uint8>, reply: seq<uint8>, r: Reply)
    requires ReplyAt(reply, 8, r)
    ensures var status := Outcome(c, xid, xid, reply).0;
            match r
            case Accepted(_, Stat(0)) => status == if Decoded(c, reply, 24).Got? then OK else CANTDECODERES
            case Accepted(_, Stat(6)) => status == UNKNOWNHOST
            case _ => status == NamedStatus(r)
  {
    ReplyRoundTrip(reply, 8, r);
    StatusIsNamed(r);
  }

  /** The call cannot receive its reply exactly if the numbers differ or no such reply follows. */
  lemma CannotReceiveExactly(c: XdrProc, sentXid: seq<uint8>, gotXid: seq<uint8>, reply: seq<uint8>)
    ensures Outcome(c, sentXid, gotXid, reply).0 == CANTRECV <==>
            sentXid != gotXid || !exists r :: ReplyAt(reply, 8, r)
  {
    TakenIsLegal(reply, 8);
    ErrorsAreDistinct(reply);
    if TakeReply(reply, 8).Got? { ReadExactly(reply, 8, TakeReply(reply, 8).value); }
    if r :| ReplyAt(reply, 8, r) { ReadExactly(reply, 8, r); }
  }

  /** clnt_call from the moment the reply is in the buffer. */
  method ClntReceive(xdr: Xdr, c: XdrProc) returns (status: int, result: Val)
    requires Ready(xdr) && xdr.inNext == 8
    modifies xdr
    modifies xdr.outMsg
    ensures xdr.Valid()
    ensures (status, result) == old(Outcome(c, xdr.outMsg[..4], xdr.inMsg[..4], xdr.Received()))
  {
    result := Unit;
    if xdr.outMsg[..4] != xdr.inMsg[..4] { return CANTRECV, Unit; }
    var ok, header := RecvReplyHeader(xdr);
    TakenIsLegal(xdr.Received(), 8);
    if !ok { return CANTRECV, Unit; }
    status := ClientStatus(header);
    if status != OK { return; }
    xdr.op := DECODE;
    var v;
    ok, v := DecodeWith(xdr, c);
    if !ok { return CANTDECODERES, Unit; }
    result := v;
  }

  // ---------- The server ----------

  const REPLY_LENGTH: nat := 24

  /** The reply header after the number. */
  function ReplyTail(): (b: seq<uint8>)
    ensures |b| == 20
  {
    Word(REPLY) + ReplyBytes(Accepted(NO_AUTH, Stat(SUCCESS)))
  }

  function SuccessReply(xid: seq<uint8>, results: seq<uint8>): seq<uint8> {
    xid + (ReplyTail() + results)
  }

  /** What a dispatch function computes from the procedure number and the arguments. */
  type Handler = (uint32, Val) -> Value

  /** svc_dispatch takes the message in this buffer. */
  predicate Accepts(raw: seq<uint8>, prog: uint32, vers: uint32)
    requires |raw| == MAX
  {
    WordAt(raw, 4) == CALL && WordAt(raw, PROG_AT) == prog && WordAt(raw, VERS_AT) == vers
  }

  /** registered_server: the program it serves, and whether a call is being served. */
  class Server {
    const xdr: Xdr
    var prog: uint32
    var active: bool

    constructor (x: Xdr, p: uint32)
      ensures xdr == x && prog == p && !active
    {
      xdr, prog, active := x, p, false;
    }

    /** svc_dispatch up to the call of the dispatch function.  The header is looked up in the raw
        buffer, whatever the length of the message. */
    method Dispatch() returns (accepted: bool, proc: uint32)
      requires xdr.Valid()
      modifies this`active, xdr
      ensures xdr.Valid() && xdr.prog == old(xdr.prog) && xdr.vers == old(xdr.vers) && xdr.xid == old(xdr.xid)
      ensures xdr.inLen == old(xdr.inLen) && xdr.outNext == old(xdr.outNext)
      ensures var raw := xdr.inMsg[..];
              && accepted == Accepts(raw, prog, xdr.vers) && proc == WordAt(raw, PROC_AT)
              && (accepted <==> WordAt(raw, 4) == 0 && WordAt(raw, 12) == prog && WordAt(raw, 16) == xdr.vers)
      ensures accepted ==> active && xdr.op == DECODE && xdr.inNext == ARGS_AT
      ensures !accepted ==> active == old(active) && xdr.op == old(xdr.op) && xdr.inNext == old(xdr.inNext)
    {
      var raw := xdr.inMsg[..];
      var p, v := WordAt(raw, PROG_AT), WordAt(raw, VERS_AT);
      proc := WordAt(raw, PROC_AT);
      if WordAt(raw, 4) != CALL { return false, proc; }
      if p != prog { return false, proc; }
      if v != xdr.vers { return false, proc; }
      xdr.inNext := ARGS_AT;
      active := true;
      xdr.op := DECODE;
      return true, proc;
    }

    /** svc_getargs */
    method GetArgs(c: XdrProc) returns (ok: bool, v: Val)
      requires Ready(xdr) && xdr.op == DECODE
      modifies xdr`outNext, xdr`inNext, xdr.outMsg
      ensures Ready(xdr)
      ensures !active ==> !ok && xdr.inNext == old(xdr.inNext)
      ensures active ==> Took(ok, v, xdr.inNext, Decoded(c, xdr.Received(), old(xdr.inNext)))
    {
      if !active { return false, Unit; }
      ok, v := DecodeWith(xdr, c);
    }

    /** svc_sendreply; the packet, if there is one, has the number of the call. */
    method SendReply(res: Value) returns (ok: bool, packet: seq<uint8>)
      requires Ready(xdr)
      modifies xdr`op, xdr`xid, xdr`outNext, xdr`inNext, xdr.outMsg
      ensures Ready(xdr)
      ensures ok <==> active && Sendable(res, REPLY_LENGTH)
      ensures ok <==> active && Within(res.codec.env, res.codec.ty, res.v) && 24 + |Encoded(res)| <= MAX
      ensures ok ==> packet == SuccessReply(xdr.inMsg[..4], Encoded(res))
    {
      packet := [];
      if !active { return false, []; }
      xdr.op := ENCODE;
      ok := ReplyMsgStart(xdr);
      ok := EncodeWith(xdr, res);
      if !ok { return; }
      Joined(Word(xdr.xid), ReplyTail(), Encoded(res));
      ReplaceNumber(xdr, Word(xdr.xid), ReplyTail() + Encoded(res));
      packet := xdr.outMsg[..xdr.outNext];
    }

    /** svc_dispatch with a dispatch function that gets the arguments, computes the result and
        sends the reply. */
    method Serve(c: XdrProc, handler: Handler) returns (replied: bool, reply: seq<uint8>)
      requires Ready(xdr)
      modifies this, xdr, xdr.outMsg
      ensures var raw, d := xdr.inMsg[..], Decoded(c, old(xdr.Received()), ARGS_AT);
              if old(Accepts(raw, prog, xdr.vers)) && d.Got? then
                var res := handler(WordAt(raw, PROC_AT), d.value);
                && (replied <==> Sendable(res, REPLY_LENGTH))
                && (replied ==> reply == SuccessReply(raw[..4], Encoded(res)))
              else !replied
      ensures active == if old(Accepts(xdr.inMsg[..], prog, xdr.vers)) then false else old(active)
    {
      reply := [];
      var accepted, proc := Dispatch();
      if !accepted { return false, []; }
      var ok, v := GetArgs(c);
      if !ok {
        active := false;
        return false, [];
      }
      replied, reply := SendReply(handler(proc, v));
      active := false;
    }
  }

  /** The call's number is copied over the one that msg_start wrote. */
  method ReplaceNumber(xdr: Xdr, ghost number: seq<uint8>, ghost rest: seq<uint8>)
    requires Ready(xdr) && |number| == 4 && xdr.Sent() == number + rest
    modifies xdr.outMsg
    ensures Ready(xdr) && xdr.Sent() == xdr.inMsg[..4] + rest
  {
    assert (number + rest)[4..] == rest;
    assert xdr.outMsg[4..xdr.outNext] == xdr.Sent()[4..];
    xdr.outMsg[0], xdr.outMsg[1] := xdr.inMsg[0], xdr.inMsg[1];
    xdr.outMsg[2], xdr.outMsg[3] := xdr.inMsg[2], xdr.inMsg[3];
    assert xdr.outMsg[4..xdr.outNext] == rest;
    assert xdr.outMsg[..4] == xdr.inMsg[..4];
    assert xdr.outMsg[..xdr.outNext] == xdr.outMsg[..4] + xdr.outMsg[4..xdr.outNext];
  }

  /** xdr_reply_msg_start with the empty verifier. */
  method ReplyMsgStart(xdr: Xdr) returns (ok: bool)
    requires Ready(xdr)
    modifies xdr`xid, xdr`outNext, xdr.outMsg
    ensures Ready(xdr) && ok && xdr.Sent() == Word(xdr.xid) + ReplyTail()
  {
    xdr.MsgStart(REPLY);
    var header := Accepted(NO_AUTH, Stat(SUCCESS));
    ok := SendReplyHeader(xdr, header);
    Joined(Word(xdr.xid), Word(REPLY), ReplyBytes(header));
  }

  // ---------- The messages in between ----------

  /** The server finds the client's program, version and procedure at its fixed offsets, and
      decodes the arguments from exactly where they were written. */
  lemma CallReachesServer(xid: uint32, prog: uint32, vers: uint32, proc: uint32, args: Value,
                          packet: seq<uint8>, raw: seq<uint8>)
    requires Sendable(args, ARGS_AT) && packet == Header(xid, prog, vers, proc) + Encoded(args) && packet <= raw
    ensures |raw| >= ARGS_AT && raw[..4] == Word(xid) && WordAt(raw, 4) == CALL
    ensures WordAt(raw, PROG_AT) == prog && WordAt(raw, VERS_AT) == vers && WordAt(raw, PROC_AT) == proc
    ensures Decoded(args.codec, packet, ARGS_AT) == Got(Seen(args), |packet|)
  {
    var header := Header(xid, prog, vers, proc);
    assert raw[..|header|] == packet[..|header|] == header;
    FixedOffsets(raw, xid, prog, vers, proc, NO_AUTH, NO_AUTH);
    assert raw[..4] == header[..4] == Word(xid);
    SeenAgain(args, packet, ARGS_AT);
  }

  /** The reply passes the client's check of the number and yields the results. */
  lemma ReplyReachesClient(xid: seq<uint8>, res: Value, reply: seq<uint8>)
    requires |xid| == 4 && Sendable(res, REPLY_LENGTH) && reply == SuccessReply(xid, Encoded(res))
    ensures reply[..4] == xid
    ensures Outcome(res.codec, xid, reply[..4], reply) == (OK, Seen(res))
  {
    var header := ReplyBytes(Accepted(NO_AUTH, Stat(SUCCESS)));
    FrameOf(xid, Word(REPLY), header, Encoded(res), reply);
    ReplyRoundTrip(reply, 8, Accepted(NO_AUTH, Stat(SUCCESS)));
    SeenAgain(res, reply, REPLY_LENGTH);
  }

  lemma FrameOf(a: seq<uint8>, b: seq<uint8>, c: seq<uint8>, d: seq<uint8>, all: seq<uint8>)
    requires |a| == 4 && |b| == 4 && |c| == 16 && all == a + (b + c + d)
    ensures all[..4] == a && At(all, 8, c) && At(all, 24, d)
  {
    assert all[8..24] == c;
    assert all[24..24 + |d|] == d;
  }

  // ---------- End to end ----------

  datatype Answer = Answered(status: int, result: Val) | NoAnswer

  /** The same call with the buffers, cursors and codecs left out. */
  function Direct(known: bool, proc: uint32, args: Value, handler: Handler): Answer {
    if !Sendable(args, ARGS_AT) then Answered(CANTENCODEARGS, Unit)
    else if !known then NoAnswer
    else
      var res := handler(proc, Seen(args));
      if Sendable(res, REPLY_LENGTH) then Answered(OK, Seen(res)) else NoAnswer
  }

  /** The server's side: the packet arrives and is served. */
  method ServeCall(server: Server, packet: seq<uint8>, c: XdrProc, handler: Handler,
                   ghost xid: uint32, ghost prog: uint32, ghost vers: uint32, ghost proc: uint32, ghost args: Value)
    returns (replied: bool, reply: seq<uint8>)
    requires Ready(server.xdr) && args.codec == c && Sendable(args, ARGS_AT)
    requires packet == Header(xid, prog, vers, proc) + Encoded(args)
    modifies server, server.xdr, server.xdr.outMsg, server.xdr.inMsg
    ensures var res := handler(proc, Seen(args));
            && (replied <==> prog == old(server.prog) && vers == old(server.xdr.vers) && Sendable(res, REPLY_LENGTH))
            && (replied ==> reply == SuccessReply(Word(xid), Encoded(res)))
  {
    var ok := server.xdr.Read(packet, false);
    ghost var raw := server.xdr.inMsg[..];
    assert packet == server.xdr.Received() <= raw;
    CallReachesServer(xid, prog, vers, proc, args, packet, raw);
    replied, reply := server.Serve(c, handler);
  }

  /** The client's side: the reply to its call arrives and is taken. */
  method TakeAnswer(client: Xdr, reply: seq<uint8>, c: XdrProc, ghost res: Value) returns (answer: Answer)
    requires client.Valid() && res.codec == c && Sendable(res, REPLY_LENGTH)
    requires reply == SuccessReply(client.outMsg[..4], Encoded(res))
    modifies client, client.outMsg, client.inMsg
    ensures answer == Answered(OK, Seen(res))
  {
    ghost var sent := client.outMsg[..4];
    var ok := client.Read(reply, false);
    ReplyReachesClient(sent, res, reply);
    assert client.inMsg[..4] == client.Received()[..4];
    var status, result := ClntReceive(client, c);
    return Answered(status, result);
  }

  /** A call over a router that delivers both packets, to a server whose dispatch function gets
      the arguments, computes the result and sends the reply.  A call for a program or version
      the server does not serve, and a result that does not fit, are never answered. */
  method Call(client: Xdr, server: Server, proc: uint32, args: Value, results: XdrProc, handler: Handler)
    returns (answer: Answer)
    requires Ready(client) && Ready(server.xdr)
    requires client != server.xdr && client.outMsg != server.xdr.outMsg && client.outMsg != server.xdr.inMsg
    requires client.inMsg != server.xdr.outMsg && client.inMsg != server.xdr.inMsg
    requires handler(proc, Seen(args)).codec == results
    modifies client, client.outMsg, client.inMsg, server, server.xdr, server.xdr.outMsg, server.xdr.inMsg
    ensures answer == old(Direct(client.prog == server.prog && client.vers == server.xdr.vers, proc, args, handler))
    ensures var res := handler(proc, Seen(args));
            if !Within(args.codec.env, args.codec.ty, args.v) || 40 + |Encoded(args)| > MAX then
              answer == Answered(CANTENCODEARGS, Unit)
            else if old(client.prog != server.prog || client.vers != server.xdr.vers) then answer == NoAnswer
            else if !Within(res.codec.env, res.codec.ty, res.v) || 24 + |Encoded(res)| > MAX then answer == NoAnswer
            else answer == Answered(OK, Seen(res))
  {
    var ok, packet := ClntSend(client, proc, args);
    if !ok { return Answered(CANTENCODEARGS, Unit); }
    assert client.outMsg[..4] == Word(client.xid) by { assert client.outMsg[..4] == packet[..4]; }
    var reply;
    ok, reply := ServeCall(server, packet, args.codec, handler, client.xid, client.prog, client.vers, proc, args);
    if !ok { return NoAnswer; }
    answer := TakeAnswer(client, reply, results, handler(proc, Seen(args)));
  }
}
