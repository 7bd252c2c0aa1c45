/** The hand-over of the input buffers of any number of clients between the one receiving thread,
    the callers of each client, one at a time, and the clients' callback threads, which may
    themselves call while they dispatch.  A step takes or releases one lock, waits on or signals one
    condition variable, or reads or writes the shared data.  Sends succeed, waits do not end without
    a signal, replies come only for a call that is outstanding, and every incoming call has a
    registered service. */
module InputHandoff {

  datatype Kind = Reply | Call

  /** clnt_call. */
  datatype CallerPc =
    | Outside
    | Entering                                  // waits for the client lock
    | Encoding                                  // has the client lock
    | Sending | Sent                            // has the reply lock as well
    | Waiting | Woken                           // waits for wait_reply
    | Using                                     // has the reply lock again
    | Freeing | Freed                           // has the input lock as well
    | Leaving | Unlocking

  /** rx_context, at one client. */
  datatype RxPc =
    | Select
    | Checking                                  // has the input lock from here on
    | WaitInput | WokenInput                    // waits for input_xdr_wait
    | Reading | Marking(kind: Kind) | Release(kind: Kind)
    | WantReply | SignalReply | ReplyDone       // has the reply lock when signalling
    | WantCb | PostCb | SignalCb | CbDone       // has the callback lock when posting

  /** cb_context. */
  datatype CbPc =
    | NotStarted | Starting
    | Testing                                   // has the callback lock
    | WaitCb | WokenCb                          // waits for wait_cb
    | Retesting
    | Cloning                                   // reads the input buffer
    | CbFreeing | CbFreed                       // has the input lock as well
    | Dispatching

  datatype Owner = Free | ByCaller | ByRx | ByCb

  /** callers[i] is where thread i is in a call on this client, rx where the receiving thread is
      with it, and cb where its callback thread is.  callLock is the thread that has the client
      lock, or -1.  The buffer holds a message of kind buffer.  outstanding says that a call was sent
      whose reply has not been read; callbacks and taken count the incoming calls read and those the
      callback thread has taken. */
  datatype Client = Client(
    callers: seq<CallerPc>, rx: RxPc, cb: CbPc,
    callLock: int, replyLock: Owner, inputLock: Owner, cbLock: Owner,
    busy: bool, gotCb: bool, buffer: Kind,
    outstanding: bool, callbacks: nat, taken: nat)

  // ---------- The steps at one client ----------

  predicate IsWaiting(k: Client, i: int) { 0 <= i < |k.callers| && k.callers[i] == Waiting }

  ghost predicate RxEnabled(k: Client, kind: Kind, waiter: nat) {
    match k.rx
    case Select => k.inputLock == Free
    case WaitInput => false
    case WokenInput => k.inputLock == Free
    case Reading => kind == Reply ==> k.outstanding
    case WantReply => k.replyLock == Free
    case SignalReply => IsWaiting(k, waiter) || forall i :: !IsWaiting(k, i)
    case WantCb => k.cbLock == Free
    case _ => true
  }

  predicate CallerEnabled(k: Client, i: int) {
    && 0 <= i < |k.callers|
    && match k.callers[i]
       case Entering => k.callLock == -1
       case Encoding => k.replyLock == Free
       case Waiting => false
       case Woken => k.replyLock == Free
       case Using => k.inputLock == Free
       case _ => true
  }

  /** calling: the dispatch function is in a call, on this client or another. */
  predicate CbEnabled(k: Client, calling: bool) {
    match k.cb
    case NotStarted => false
    case Starting => k.cbLock == Free
    case WaitCb => false
    case WokenCb => k.cbLock == Free
    case Cloning => k.inputLock == Free
    case Dispatching => !calling
    case _ => true
  }

  function SetCaller(k: Client, i: nat, p: CallerPc): Client
    requires i < |k.callers|
  {
    k.(callers := k.callers[i := p])
  }

  /** pthread_cond_signal on input_xdr_wait; only the receiving thread waits there. */
  function SignalInput(rx: RxPc): RxPc { if rx == WaitInput then WokenInput else rx }

  function RxStep(k: Client, kind: Kind, waiter: nat): Client {
    match k.rx
    case Select => k.(inputLock := ByRx, rx := Checking)
    case Checking => if k.busy then k.(inputLock := Free, rx := WaitInput) else k.(rx := Reading)
    case WaitInput => k
    case WokenInput => k.(inputLock := ByRx, rx := Checking)
    case Reading =>
      k.(buffer := kind, rx := Marking(kind), outstanding := k.outstanding && kind == Call,
         callbacks := k.callbacks + if kind == Call then 1 else 0)
    case Marking(m) => k.(busy := true, rx := Release(m))
    case Release(m) => k.(inputLock := Free, rx := if m == Reply then WantReply else WantCb)
    case WantReply => k.(replyLock := ByRx, rx := SignalReply)
    case SignalReply => (if IsWaiting(k, waiter) then SetCaller(k, waiter, Woken) else k).(rx := ReplyDone)
    case ReplyDone => k.(replyLock := Free, rx := Select)
    case WantCb => k.(cbLock := ByRx, rx := PostCb)
    case PostCb => k.(gotCb := true, cb := if k.cb == NotStarted then Starting else k.cb, rx := SignalCb)
    case SignalCb => k.(cb := if k.cb == WaitCb then WokenCb else k.cb, rx := CbDone)
    case CbDone => k.(cbLock := Free, rx := Select)
  }

  /** Where a caller's step leads. */
  function After(p: CallerPc): CallerPc {
    match p
    case Outside => Entering
    case Entering => Encoding
    case Encoding => Sending
    case Sending => Sent
    case Sent => Waiting
    case Waiting => Waiting
    case Woken => Using
    case Using => Freeing
    case Freeing => Freed
    case Freed => Leaving
    case Leaving => Unlocking
    case Unlocking => Outside
  }

  /** What the step does besides. */
  function CallerActs(k: Client, i: nat, p: CallerPc): Client {
    match p
    case Entering => k.(callLock := i)
    case Encoding => k.(replyLock := ByCaller)
    case Sending => k.(outstanding := true)
    case Sent => k.(replyLock := Free)
    case Woken => k.(replyLock := ByCaller)
    case Using => k.(inputLock := ByCaller)
    case Freeing => k.(busy := false, rx := SignalInput(k.rx))
    case Freed => k.(inputLock := Free)
    case Leaving => k.(replyLock := Free)
    case Unlocking => k.(callLock := -1)
    case _ => k
  }

  function CallerStep(k: Client, i: nat): Client
    requires i < |k.callers|
  {
    CallerActs(k, i, k.callers[i]).(callers := k.callers[i := After(k.callers[i])])
  }

  function CbStep(k: Client): Client {
    match k.cb
    case NotStarted => k
    case Starting => k.(cbLock := ByCb, cb := Testing)
    case Testing => if k.gotCb then k.(cb := Retesting) else k.(cbLock := Free, cb := WaitCb)
    case WaitCb => k
    case WokenCb => k.(cbLock := ByCb, cb := Retesting)
    case Retesting => if k.gotCb then k.(gotCb := false, taken := k.taken + 1, cb := Cloning) else k.(cb := Testing)
    case Cloning => k.(inputLock := ByCb, cb := CbFreeing)
    case CbFreeing => k.(busy := false, rx := SignalInput(k.rx), cb := CbFreed)
    case CbFreed => k.(inputLock := Free, cb := Dispatching)
    case Dispatching => k.(cb := Testing)
  }

  function GiveUp(k: Client, i: nat): Client
    requires i < |k.callers|
  {
    SetCaller(k, i, Outside).(callLock := -1)
  }

  // ---------- A client's invariant ----------

  /** The program counter of the caller that has the client lock. */
  function Pc(k: Client): CallerPc {
    if 0 <= k.callLock < |k.callers| then k.callers[k.callLock] else Outside
  }

  predicate Inside(p: CallerPc) { p != Outside && p != Entering }

  ghost predicate OneCaller(k: Client) {
    && -1 <= k.callLock < |k.callers|
    && forall i :: 0 <= i < |k.callers| ==> (Inside(k.callers[i]) <==> k.callLock == i)
  }

  predicate HasReplyLock(p: CallerPc) {
    p == Sending || p == Sent || p == Using || p == Freeing || p == Freed || p == Leaving
  }

  predicate HasCbLock(c: CbPc) {
    c == Testing || c == Retesting || c == Cloning || c == CbFreeing || c == CbFreed || c == Dispatching
  }

  predicate LocksHeld(p: CallerPc, rx: RxPc, cb: CbPc, replyLock: Owner, inputLock: Owner, cbLock: Owner) {
    && (replyLock == ByCaller <==> HasReplyLock(p))
    && (replyLock == ByRx <==> rx == SignalReply || rx == ReplyDone)
    && replyLock != ByCb
    && (inputLock == ByCaller <==> p == Freeing || p == Freed)
    && (inputLock == ByRx <==> rx == Checking || rx == Reading || rx.Marking? || rx.Release?)
    && (inputLock == ByCb <==> cb == CbFreeing || cb == CbFreed)
    && (cbLock == ByRx <==> rx == PostCb || rx == SignalCb || rx == CbDone)
    && (cbLock == ByCb <==> HasCbLock(cb))
    && cbLock != ByCaller
  }

  /** The receiving thread has a message that it has not handed over yet. */
  predicate RxHas(rx: RxPc) {
    rx.Release? || rx == WantReply || rx == SignalReply || rx == WantCb || rx == PostCb
  }

  predicate CallerHas(p: CallerPc) { p == Woken || p == Using || p == Freeing }

  predicate CbHas(cb: CbPc, gotCb: bool) { gotCb || cb == Cloning || cb == CbFreeing }

  /** The buffer is marked busy exactly while one of the three has its message. */
  predicate OneUser(p: CallerPc, rx: RxPc, cb: CbPc, busy: bool, gotCb: bool) {
    && busy == (RxHas(rx) || CallerHas(p) || CbHas(cb, gotCb))
    && !(RxHas(rx) && CallerHas(p)) && !(RxHas(rx) && CbHas(cb, gotCb)) && !(CallerHas(p) && CbHas(cb, gotCb))
    && !(gotCb && (cb == Cloning || cb == CbFreeing))
    && (rx == Reading || rx.Marking? || rx == WaitInput ==> busy == (rx == WaitInput))
  }

  predicate RxHasReply(rx: RxPc) {
    rx == Marking(Reply) || rx == Release(Reply) || rx == WantReply || rx == SignalReply
  }

  predicate RxHasCall(rx: RxPc) {
    rx == Marking(Call) || rx == Release(Call) || rx == WantCb || rx == PostCb
  }

  predicate Handover(p: CallerPc, rx: RxPc, cb: CbPc, gotCb: bool, buffer: Kind, outstanding: bool) {
    && (p == Sent || p == Waiting <==> outstanding || RxHasReply(rx))
    && !(outstanding && RxHasReply(rx))
    && (RxHasReply(rx) || CallerHas(p) ==> buffer == Reply)
    && (RxHasCall(rx) || CbHas(cb, gotCb) ==> buffer == Call)
    && (gotCb && cb == WaitCb ==> rx == SignalCb)
    && (gotCb ==> cb != NotStarted && cb != CbFreed && cb != Dispatching)
    && (rx == SignalCb ==> cb != NotStarted)
  }

  ghost predicate Locks(k: Client) {
    OneCaller(k) && LocksHeld(Pc(k), k.rx, k.cb, k.replyLock, k.inputLock, k.cbLock)
  }

  ghost predicate Buffer(k: Client) {
    && OneUser(Pc(k), k.rx, k.cb, k.busy, k.gotCb)
    && Handover(Pc(k), k.rx, k.cb, k.gotCb, k.buffer, k.outstanding)
    && k.callbacks == k.taken + (if RxHasCall(k.rx) || k.gotCb then 1 else 0)
  }

  ghost predicate ClientInv(k: Client) { Locks(k) && Buffer(k) }

  lemma OnlyHolderWaits(k: Client, i: int)
    requires OneCaller(k) && IsWaiting(k, i)
    ensures k.callLock == i && Pc(k) == Waiting
  {
  }

  lemma SignalKeepsInv(k: Client, kind: Kind, waiter: nat)
    requires ClientInv(k) && RxEnabled(k, kind, waiter) && k.rx == SignalReply
    ensures ClientInv(RxStep(k, kind, waiter))
  {
    assert IsWaiting(k, k.callLock);
    OnlyHolderWaits(k, waiter);
  }

  lemma RxKeepsLocks(k: Client, kind: Kind, waiter: nat)
    requires ClientInv(k) && RxEnabled(k, kind, waiter)
    ensures Locks(RxStep(k, kind, waiter))
  {
    if k.rx == SignalReply {
      SignalKeepsInv(k, kind, waiter);
    } else {
      assert Pc(RxStep(k, kind, waiter)) == Pc(k);
    }
  }

  lemma RxKeepsUser(k: Client, p: CallerPc, kind: Kind, waiter: nat)
    requires OneUser(p, k.rx, k.cb, k.busy, k.gotCb) && k.rx != SignalReply
    ensures var t := RxStep(k, kind, waiter); OneUser(p, t.rx, t.cb, t.busy, t.gotCb)
  {
  }

  lemma RxKeepsHandover(k: Client, p: CallerPc, kind: Kind, waiter: nat)
    requires k.cbLock == ByRx ==> !HasCbLock(k.cb)
    requires k.cbLock == ByRx <==> k.rx == PostCb || k.rx == SignalCb || k.rx == CbDone
    requires OneUser(p, k.rx, k.cb, k.busy, k.gotCb)
    requires Handover(p, k.rx, k.cb, k.gotCb, k.buffer, k.outstanding)
    requires RxEnabled(k, kind, waiter) && k.rx != SignalReply
    ensures var t := RxStep(k, kind, waiter); Handover(p, t.rx, t.cb, t.gotCb, t.buffer, t.outstanding)
  {
  }

  lemma RxKeepsBuffer(k: Client, kind: Kind, waiter: nat)
    requires ClientInv(k) && RxEnabled(k, kind, waiter)
    ensures Buffer(RxStep(k, kind, waiter))
  {
    if k.rx == SignalReply {
      SignalKeepsInv(k, kind, waiter);
    } else {
      assert Pc(RxStep(k, kind, waiter)) == Pc(k);
      RxKeepsUser(k, Pc(k), kind, waiter);
      RxKeepsHandover(k, Pc(k), kind, waiter);
    }
  }

  lemma StepsOneAtATime(k: Client, i: nat)
    requires OneCaller(k) && CallerEnabled(k, i)
    ensures OneCaller(CallerStep(k, i))
  {
  }

  /** What a caller's step does to the caller that has the client lock. */
  lemma HolderSteps(k: Client, i: nat)
    requires OneCaller(k) && CallerEnabled(k, i)
    ensures var p, t := k.callers[i], CallerStep(k, i);
            && (p == Outside ==> Pc(t) == Pc(k))
            && (p == Entering ==> Pc(k) == Outside && Pc(t) == Encoding)
            && (Inside(p) ==> Pc(k) == p && |t.callers| == |k.callers| && Pc(t) == t.callers[i])
  {
    StepsOneAtATime(k, i);
  }

  lemma CallerKeepsLocks(k: Client, i: nat)
    requires ClientInv(k) && CallerEnabled(k, i)
    ensures Locks(CallerStep(k, i))
  {
    StepsOneAtATime(k, i);
    HolderSteps(k, i);
  }

  lemma CallerKeepsUser(k: Client, i: nat)
    requires ClientInv(k) && CallerEnabled(k, i)
    ensures var t := CallerStep(k, i); OneUser(Pc(t), t.rx, t.cb, t.busy, t.gotCb)
  {
    HolderSteps(k, i);
  }

  lemma CallerKeepsHandover(k: Client, i: nat)
    requires ClientInv(k) && CallerEnabled(k, i)
    ensures var t := CallerStep(k, i); Handover(Pc(t), t.rx, t.cb, t.gotCb, t.buffer, t.outstanding)
  {
    HolderSteps(k, i);
  }

  lemma CallerKeepsBuffer(k: Client, i: nat)
    requires ClientInv(k) && CallerEnabled(k, i)
    ensures Buffer(CallerStep(k, i))
  {
    CallerKeepsUser(k, i);
    CallerKeepsHandover(k, i);
  }

  lemma CbKeepsLocks(k: Client, calling: bool)
    requires ClientInv(k) && CbEnabled(k, calling)
    ensures Locks(CbStep(k))
  {
  }

  lemma CbKeepsUser(k: Client, calling: bool)
    requires ClientInv(k) && CbEnabled(k, calling)
    ensures var t := CbStep(k); OneUser(Pc(t), t.rx, t.cb, t.busy, t.gotCb)
  {
  }

  lemma CbKeepsHandover(k: Client, calling: bool)
    requires ClientInv(k) && CbEnabled(k, calling)
    ensures var t := CbStep(k); Handover(Pc(t), t.rx, t.cb, t.gotCb, t.buffer, t.outstanding)
  {
  }

  lemma CbKeepsBuffer(k: Client, calling: bool)
    requires ClientInv(k) && CbEnabled(k, calling)
    ensures Buffer(CbStep(k))
  {
    CbKeepsUser(k, calling);
    CbKeepsHandover(k, calling);
  }

  // ---------- All clients ----------

  /** Thread i is in a call on the client. */
  predicate In(k: Client, i: int) { 0 <= i < |k.callers| && k.callers[i] != Outside }

  /** Threads 0 to |s| - 1 are the callback threads of the clients, in their order; the others are
      threads of the program.  Each is in one call at a time. */
  ghost predicate InCall(s: seq<Client>, i: int) {
    exists d :: 0 <= d < |s| && In(s[d], i)
  }

  /** Rx reads a message of the given kind and signals the given waiting caller, where it does
      either; CallerGivesUp is a failure to encode. */
  datatype Step =
    | Rx(c: nat, kind: Kind, waiter: nat)
    | Caller(c: nat, i: nat)
    | CallerGivesUp(c: nat, i: nat)
    | Cb(c: nat)

  ghost predicate Enabled(s: seq<Client>, e: Step) {
    && e.c < |s|
    && var k := s[e.c];
    match e
    case Rx(_, kind, waiter) =>
      RxEnabled(k, kind, waiter) && (k.rx == Select ==> forall d :: 0 <= d < |s| ==> s[d].rx == Select)
    case Caller(_, i) => CallerEnabled(k, i) && (k.callers[i] == Outside ==> MayCall(s, i))
    case CallerGivesUp(_, i) => i < |k.callers| && k.callers[i] == Encoding
    case Cb(c) => CbEnabled(k, InCall(s, c))
  }

  /** A callback thread calls only from a dispatch function. */
  ghost predicate MayCall(s: seq<Client>, i: nat) {
    !InCall(s, i) && (i < |s| ==> s[i].cb == Dispatching)
  }

  function ClientStep(k: Client, e: Step): Client {
    match e
    case Rx(_, kind, waiter) => RxStep(k, kind, waiter)
    case Caller(_, i) => if i < |k.callers| then CallerStep(k, i) else k
    case CallerGivesUp(_, i) => if i < |k.callers| then GiveUp(k, i) else k
    case Cb(_) => CbStep(k)
  }

  function Next(s: seq<Client>, e: Step): seq<Client> {
    if e.c < |s| then s[e.c := ClientStep(s[e.c], e)] else s
  }

  ghost predicate Fresh(k: Client) {
    && (forall i :: 0 <= i < |k.callers| ==> k.callers[i] == Outside)
    && k.rx == Select && k.cb == NotStarted
    && k.callLock == -1 && k.replyLock == Free && k.inputLock == Free && k.cbLock == Free
    && !k.busy && !k.gotCb && !k.outstanding && k.callbacks == 0 && k.taken == 0
  }

  /** Any number of clients, and of threads that call them. */
  ghost predicate Init(s: seq<Client>, threads: nat) {
    |s| <= threads && forall c :: 0 <= c < |s| ==> Fresh(s[c]) && |s[c].callers| == threads
  }

  /** The receiving thread is at one client. */
  ghost predicate OneReceiver(s: seq<Client>) {
    forall c, d :: 0 <= c < |s| && 0 <= d < |s| && s[c].rx != Select && s[d].rx != Select ==> c == d
  }

  ghost predicate Nested(s: seq<Client>) {
    forall c, d :: 0 <= c < |s| && 0 <= d < |s| && In(s[d], c) ==> s[c].cb == Dispatching
  }

  ghost predicate Inv(s: seq<Client>) {
    (forall c :: 0 <= c < |s| ==> ClientInv(s[c])) && OneReceiver(s) && Nested(s)
  }

  lemma InitInv(s: seq<Client>, threads: nat)
    requires Init(s, threads)
    ensures Inv(s)
  {
    forall c | 0 <= c < |s|
      ensures ClientInv(s[c])
    {
      assert Fresh(s[c]);
    }
  }

  lemma ClientKeepsInv(k: Client, e: Step, calling: bool)
    requires ClientInv(k)
    requires match e
             case Rx(_, kind, waiter) => RxEnabled(k, kind, waiter)
             case Caller(_, i) => CallerEnabled(k, i)
             case CallerGivesUp(_, i) => i < |k.callers| && k.callers[i] == Encoding
             case Cb(_) => CbEnabled(k, calling)
    ensures ClientInv(ClientStep(k, e))
  {
    match e
    case Rx(_, kind, waiter) =>
      RxKeepsLocks(k, kind, waiter);
      RxKeepsBuffer(k, kind, waiter);
    case Caller(_, i) =>
      CallerKeepsLocks(k, i);
      CallerKeepsBuffer(k, i);
    case CallerGivesUp(_, i) =>
    case Cb(_) =>
      CbKeepsLocks(k, calling);
      CbKeepsBuffer(k, calling);
  }

  lemma CallerMoves(k: Client, i: nat)
    requires i < |k.callers|
    ensures var t := CallerStep(k, i);
            |t.callers| == |k.callers| && forall j :: j != i ==> (In(t, j) <==> In(k, j))
  {
  }

  lemma CallerLeaves(k: Client, i: nat)
    requires i < |k.callers|
    ensures CallerStep(k, i).cb == k.cb
    ensures CallerStep(k, i).rx == if k.callers[i] == Freeing then SignalInput(k.rx) else k.rx
  {
  }

  lemma CbLeaves(k: Client)
    ensures CbStep(k).callers == k.callers && (k.rx == Select <==> CbStep(k).rx == Select)
  {
  }

  lemma RxLeaves(k: Client, kind: Kind, waiter: nat)
    ensures var t := RxStep(k, kind, waiter);
            && (k.cb == Dispatching ==> t.cb == Dispatching) && |t.callers| == |k.callers|
            && forall i :: 0 <= i < |k.callers| && t.callers[i] != Outside ==> k.callers[i] != Outside
  {
  }

  /** What the other clients see of a step. */
  lemma StepFromOutside(k: Client, e: Step)
    requires e.CallerGivesUp? ==> e.i < |k.callers|
    ensures var t := ClientStep(k, e);
            && (e.Rx? || (k.rx == Select <==> t.rx == Select))
            && (forall i :: In(t, i) && !In(k, i) ==> e == Caller(e.c, i))
            && (k.cb == Dispatching && t.cb != Dispatching ==> e.Cb?)
            && |t.callers| == |k.callers|
  {
    match e
    case Rx(_, kind, waiter) => RxLeaves(k, kind, waiter);
    case Caller(_, i) =>
      if i < |k.callers| {
        CallerMoves(k, i);
        CallerLeaves(k, i);
      }
    case CallerGivesUp(_, i) =>
    case Cb(_) => CbLeaves(k);
  }

  lemma StepKeepsReceiver(s: seq<Client>, e: Step)
    requires OneReceiver(s) && Enabled(s, e)
    ensures OneReceiver(Next(s, e))
  {
    StepFromOutside(s[e.c], e);
  }

  lemma StepKeepsNested(s: seq<Client>, e: Step)
    requires Nested(s) && Enabled(s, e)
    ensures Nested(Next(s, e))
  {
    StepFromOutside(s[e.c], e);
    var t := Next(s, e);
    forall c, d | 0 <= c < |t| && 0 <= d < |t| && In(t[d], c)
      ensures t[c].cb == Dispatching
    {
      if In(s[d], c) { assert InCall(s, c); } else { assert e == Caller(d, c); }
    }
  }

  lemma StepKeepsInv(s: seq<Client>, e: Step)
    requires Inv(s) && Enabled(s, e)
    ensures Inv(Next(s, e))
  {
    assert ClientInv(Next(s, e)[e.c]) by {
      assert ClientInv(s[e.c]);
      ClientKeepsInv(s[e.c], e, InCall(s, e.c));
    }
    StepKeepsReceiver(s, e);
    StepKeepsNested(s, e);
  }

  // ---------- Safety ----------

  /** The receiving thread reads into the buffer only while nobody uses what is in it, and the
      caller and the callback thread never use it together. */
  ghost predicate ReadIsSafe(k: Client) {
    && (k.rx == Reading ==>
          && (forall i :: 0 <= i < |k.callers| ==> !CallerHas(k.callers[i]))
          && !CbHas(k.cb, k.gotCb))
    && (forall i :: 0 <= i < |k.callers| && CallerHas(k.callers[i]) ==> !CbHas(k.cb, k.gotCb) && k.buffer == Reply)
    && (k.cb == Cloning ==> k.buffer == Call)
  }

  /** A reply is signalled to the one caller that waits for it. */
  ghost predicate ReplyIsHeard(k: Client) {
    k.rx == SignalReply ==> IsWaiting(k, k.callLock) && forall i :: IsWaiting(k, i) ==> i == k.callLock
  }

  /** No wait goes on past its signal: the receiving thread waits only for a buffer that is in
      use, and the callback thread waits with a call posted only until the signal that follows. */
  ghost predicate NoLostSignal(k: Client) {
    && (k.rx == WaitInput ==> k.busy)
    && (k.cb == WaitCb && k.gotCb ==> k.rx == SignalCb)
    && (k.rx == PostCb ==> !k.gotCb)
    && k.taken <= k.callbacks <= k.taken + 1
  }

  ghost predicate Safe(k: Client) { ReadIsSafe(k) && ReplyIsHeard(k) && NoLostSignal(k) }

  ghost predicate AllSafe(s: seq<Client>) { forall c :: 0 <= c < |s| ==> Safe(s[c]) }

  lemma ClientIsSafe(k: Client)
    requires ClientInv(k)
    ensures Safe(k)
  {
  }

  lemma InvIsSafe(s: seq<Client>)
    requires Inv(s)
    ensures AllSafe(s)
  {
    forall c | 0 <= c < |s|
      ensures Safe(s[c])
    {
      ClientIsSafe(s[c]);
    }
  }

  // ---------- Progress ----------

  /** A step at this client that needs neither a new message nor a new call. */
  ghost predicate CanGo(k: Client, calling: bool) {
    || (k.rx != Select && exists kind, waiter :: RxEnabled(k, kind, waiter))
    || (exists i :: CallerEnabled(k, i) && k.callers[i] != Outside)
    || CbEnabled(k, calling)
  }

  ghost predicate CanRun(s: seq<Client>) {
    exists c :: 0 <= c < |s| && CanGo(s[c], InCall(s, c))
  }

  /** Whoever is in a call on this client waits for a reply that has not come, or for the one who
      does; every incoming call that was posted is taken; and the callback thread is idle, or in a
      dispatch function that is in a call itself. */
  ghost predicate Still(k: Client, calling: bool) {
    && !k.gotCb && k.callbacks == k.taken + (if k.rx == WantCb then 1 else 0) && k.busy == (k.rx == WantCb)
    && (k.cb == NotStarted || k.cb == WaitCb || (k.cb == Dispatching && calling))
    && ((Pc(k) == Waiting && k.outstanding) || (forall i :: !In(k, i)))
  }

  ghost predicate AllStill(s: seq<Client>) {
    forall c :: 0 <= c < |s| ==> Still(s[c], InCall(s, c))
  }

  ghost predicate AtRest(s: seq<Client>) {
    AllStill(s) && forall c :: 0 <= c < |s| ==> s[c].rx == Select
  }

  /** The receiving thread has an incoming call of client c and waits for its callback thread; that
      one dispatches to a function in a call on client d, and waits there, itself or behind another
      thread, for a reply that only the receiving thread could read. */
  ghost predicate Blocked(s: seq<Client>, c: nat, d: nat) {
    && c < |s| && d < |s|
    && s[c].rx == WantCb && s[c].cb == Dispatching
    && In(s[d], c) && Pc(s[d]) == Waiting && s[d].outstanding
  }

  ghost predicate Deadlocked(s: seq<Client>) {
    AllStill(s) && exists c, d :: Blocked(s, c, d)
  }

  lemma CallerGoes(k: Client, i: int, calling: bool)
    ensures CallerEnabled(k, i) && k.callers[i] != Outside ==> CanGo(k, calling)
  {
  }

  lemma RxGoes(k: Client, waiter: nat, calling: bool)
    ensures k.rx != Select && RxEnabled(k, Call, waiter) ==> CanGo(k, calling)
  {
  }

  /** Whoever cannot go on in a call waits for a reply, or for the one who does. */
  lemma CallersStop(k: Client, calling: bool)
    requires ClientInv(k) && !CanGo(k, calling)
    ensures k.rx == Select || k.rx == WantCb ==> (Pc(k) == Waiting && k.outstanding) || forall i :: !In(k, i)
  {
    CallerGoes(k, k.callLock, calling);
    forall i | In(k, i)
      ensures k.callLock != -1
    {
      CallerGoes(k, i, calling);
    }
  }

  lemma RxStops(k: Client, calling: bool)
    requires ClientInv(k) && !CanGo(k, calling)
    ensures k.rx == Select || (k.rx == WantCb && k.cb == Dispatching && calling)
  {
    CallerGoes(k, k.callLock, calling);
    RxGoes(k, if k.callLock >= 0 then k.callLock else 0, calling);
  }

  lemma StillStops(k: Client, calling: bool)
    requires ClientInv(k) && Still(k, calling)
    requires k.rx == Select || (k.rx == WantCb && k.cb == Dispatching && calling)
    ensures !CanGo(k, calling)
  {
    forall i
      ensures !(CallerEnabled(k, i) && k.callers[i] != Outside)
    {
      assert In(k, i) || !In(k, i);
    }
  }

  /** A client at which nothing can go on: the receiving thread is elsewhere, or waits for the
      callback thread while that one is in a call. */
  lemma ClientStops(k: Client, calling: bool)
    requires ClientInv(k)
    ensures !CanGo(k, calling) <==>
            Still(k, calling) && (k.rx == Select || (k.rx == WantCb && k.cb == Dispatching && calling))
  {
    if !CanGo(k, calling) {
      RxStops(k, calling);
      CallersStop(k, calling);
    } else if Still(k, calling) && (k.rx == Select || (k.rx == WantCb && k.cb == Dispatching && calling)) {
      StillStops(k, calling);
    }
  }

  lemma AllStop(s: seq<Client>, c: nat)
    requires Inv(s) && c < |s| && !CanRun(s)
    ensures Still(s[c], InCall(s, c))
    ensures s[c].rx != Select ==> exists d :: Blocked(s, c, d)
  {
    assert !CanGo(s[c], InCall(s, c));
    ClientStops(s[c], InCall(s, c));
    if s[c].rx != Select {
      var d :| 0 <= d < |s| && In(s[d], c);
      assert !CanGo(s[d], InCall(s, d));
      ClientStops(s[d], InCall(s, d));
      assert Blocked(s, c, d);
    }
  }

  lemma RestStops(s: seq<Client>, c: nat)
    requires Inv(s) && c < |s| && (AtRest(s) || Deadlocked(s))
    ensures !CanGo(s[c], InCall(s, c))
  {
    if Deadlocked(s) {
      var b: nat, d: nat :| Blocked(s, b, d);
      assert InCall(s, b);
      assert s[c].rx == Select || c == b;
    }
    assert Still(s[c], InCall(s, c));
    StillStops(s[c], InCall(s, c));
  }

  /** All threads stop in these two situations only. */
  lemma StopsExactly(s: seq<Client>)
    requires Inv(s)
    ensures !CanRun(s) <==> AtRest(s) || Deadlocked(s)
  {
    if !CanRun(s) {
      forall c | 0 <= c < |s|
        ensures Still(s[c], InCall(s, c))
      {
        AllStop(s, c);
      }
      if !AtRest(s) {
        var c :| 0 <= c < |s| && s[c].rx != Select;
        AllStop(s, c);
      }
    } else if AtRest(s) || Deadlocked(s) {
      var c :| 0 <= c < |s| && CanGo(s[c], InCall(s, c));
      RestStops(s, c);
    }
  }

  /** What a step at the client d that the dispatch function calls leaves as it is. */
  lemma CallStays(k: Client, e: Step, i: nat)
    requires OneCaller(k) && In(k, i) && Pc(k) == Waiting && k.outstanding
    requires match e
             case Rx(_, _, _) => false
             case Caller(_, j) => CallerEnabled(k, j)
             case CallerGivesUp(_, j) => j < |k.callers| && k.callers[j] == Encoding
             case Cb(_) => true
    ensures var t := ClientStep(k, e); In(t, i) && Pc(t) == Waiting && t.outstanding
  {
  }

  lemma WantCbStays(k: Client, e: Step)
    requires k.rx == WantCb && k.cb == Dispatching && !e.Rx? && !e.Cb?
    ensures ClientStep(k, e).rx == WantCb && ClientStep(k, e).cb == Dispatching
  {
    if e.Caller? && e.i < |k.callers| { CallerLeaves(k, e.i); }
  }

  lemma ReceiverIsBlocked(s: seq<Client>, c: nat, d: nat, b: nat, kind: Kind, waiter: nat)
    requires OneReceiver(s) && Blocked(s, c, d) && s[c].cbLock == ByCb
    ensures !Enabled(s, Rx(b, kind, waiter))
  {
    assert b < |s| && b != c ==> s[b].rx == Select;
  }

  lemma CallersLeaveBlocked(s: seq<Client>, e: Step, c: nat, d: nat)
    requires Blocked(s, c, d) && OneCaller(s[d]) && Enabled(s, e) && !e.Rx?
    ensures Blocked(Next(s, e), c, d)
  {
    assert InCall(s, c);
    if e.c == d { CallStays(s[d], e, c); }
    if e.c == c { WantCbStays(s[c], e); }
  }

  /** Whatever the other threads still do, that situation never ends: the receiving thread does not
      move again. */
  lemma StaysBlocked(s: seq<Client>, e: Step, c: nat, d: nat)
    requires Inv(s) && Blocked(s, c, d) && Enabled(s, e)
    ensures Blocked(Next(s, e), c, d)
  {
    assert ClientInv(s[c]) && ClientInv(s[d]);
    if e.Rx? { ReceiverIsBlocked(s, c, d, e.c, e.kind, e.waiter); } else { CallersLeaveBlocked(s, e, c, d); }
  }

  // ---------- Runs ----------

  ghost predicate LegalRun(s: seq<Client>, es: seq<Step>)
    decreases |es|
  {
    es == [] || (Enabled(s, es[0]) && LegalRun(Next(s, es[0]), es[1..]))
  }

  function RunAll(s: seq<Client>, es: seq<Step>): seq<Client>
    decreases |es|
  {
    if es == [] then s else RunAll(Next(s, es[0]), es[1..])
  }

  lemma {:induction false} RunKeepsInv(s: seq<Client>, es: seq<Step>)
    requires Inv(s) && LegalRun(s, es)
    ensures Inv(RunAll(s, es)) && |RunAll(s, es)| == |s|
    decreases |es|
  {
    if es != [] {
      StepKeepsInv(s, es[0]);
      RunKeepsInv(Next(s, es[0]), es[1..]);
    }
  }

  lemma {:induction false} BlockedForEver(s: seq<Client>, es: seq<Step>, c: nat, d: nat)
    requires Inv(s) && Blocked(s, c, d) && LegalRun(s, es)
    ensures Blocked(RunAll(s, es), c, d)
    decreases |es|
  {
    if es != [] {
      StaysBlocked(s, es[0], c, d);
      StepKeepsInv(s, es[0]);
      BlockedForEver(Next(s, es[0]), es[1..], c, d);
    }
  }

  /** No dispatch function makes a call, on any client. */
  predicate NoCallbackCalls(es: seq<Step>, clients: nat) {
    forall e :: e in es && e.Caller? ==> e.i >= clients
  }

  ghost predicate NobodyNested(s: seq<Client>) {
    forall c, d :: 0 <= c < |s| && 0 <= d < |s| ==> !In(s[d], c)
  }

  lemma StaysUnnested(s: seq<Client>, e: Step)
    requires NobodyNested(s) && Enabled(s, e) && (e.Caller? ==> e.i >= |s|)
    ensures NobodyNested(Next(s, e))
  {
    StepFromOutside(s[e.c], e);
  }

  lemma {:induction false} WithoutNestedCalls(s: seq<Client>, es: seq<Step>)
    requires NobodyNested(s) && NoCallbackCalls(es, |s|) && LegalRun(s, es)
    ensures NobodyNested(RunAll(s, es))
    decreases |es|
  {
    if es != [] {
      StaysUnnested(s, es[0]);
      WithoutNestedCalls(Next(s, es[0]), es[1..]);
    }
  }

  /** Every interleaving from the start, with any number of clients and threads: safety, and rest
      when nothing can run, except for a deadlock that takes a dispatch function in a call. */
  lemma EveryInterleaving(s: seq<Client>, threads: nat, es: seq<Step>)
    requires Init(s, threads) && LegalRun(s, es)
    ensures AllSafe(RunAll(s, es))
    ensures CanRun(RunAll(s, es)) || AtRest(RunAll(s, es)) || Deadlocked(RunAll(s, es))
    ensures NoCallbackCalls(es, |s|) ==>
              && (CanRun(RunAll(s, es)) || AtRest(RunAll(s, es)))
              && forall c, d :: !Blocked(RunAll(s, es), c, d)
  {
    InitInv(s, threads);
    RunKeepsInv(s, es);
    InvIsSafe(RunAll(s, es));
    StopsExactly(RunAll(s, es));
    if NoCallbackCalls(es, |s|) { WithoutNestedCalls(s, es); }
  }

  // ---------- Runs end ----------

  /** How far each thread is from resting, if no more messages are read and no more calls made. */
  function CallerRank(p: CallerPc): nat {
    match p
    case Outside => 0
    case Entering => 11
    case Encoding => 10
    case Sending => 9
    case Sent => 8
    case Waiting => 7
    case Woken => 6
    case Using => 5
    case Freeing => 4
    case Freed => 3
    case Leaving => 2
    case Unlocking => 1
  }

  function RxRank(rx: RxPc): nat {
    match rx
    case Select => 0
    case WokenInput => 137
    case Checking => 136
    case WaitInput => 135
    case Reading => 134
    case Marking(_) => 133
    case Release(_) => 132
    case WantReply => 3
    case SignalReply => 2
    case ReplyDone => 1
    case WantCb => 131
    case PostCb => 130
    case SignalCb => 30
    case CbDone => 1
  }

  function CbRank(cb: CbPc, gotCb: bool): nat {
    match cb
    case NotStarted => if gotCb then 15 else 0
    case Starting => if gotCb then 13 else 3
    case Testing => if gotCb then 12 else 1
    case WaitCb => if gotCb then 15 else 0
    case WokenCb => if gotCb then 14 else 3
    case Retesting => if gotCb then 11 else 2
    case Cloning => if gotCb then 16 else 6
    case CbFreeing => if gotCb then 15 else 5
    case CbFreed => if gotCb then 14 else 4
    case Dispatching => if gotCb then 13 else 3
  }

  function CallersRank(ps: seq<CallerPc>): nat {
    if ps == [] then 0 else CallersRank(ps[..|ps| - 1]) + CallerRank(ps[|ps| - 1])
  }

  function Rank(k: Client): nat { 5 * CallersRank(k.callers) + RxRank(k.rx) + 5 * CbRank(k.cb, k.gotCb) }

  function TotalRank(s: seq<Client>): nat { if s == [] then 0 else TotalRank(s[..|s| - 1]) + Rank(s[|s| - 1]) }

  lemma {:induction false} CallersRankUpdate(ps: seq<CallerPc>, i: nat, p: CallerPc)
    requires i < |ps|
    ensures CallersRank(ps[i := p]) == CallersRank(ps) - CallerRank(ps[i]) + CallerRank(p)
  {
    var n := |ps| - 1;
    if i < n {
      CallersRankUpdate(ps[..n], i, p);
      assert ps[i := p][..n] == ps[..n][i := p];
    } else {
      assert ps[i := p][..n] == ps[..n];
    }
  }

  lemma {:induction false} TotalRankUpdate(s: seq<Client>, c: nat, k: Client)
    requires c < |s|
    ensures TotalRank(s[c := k]) == TotalRank(s) - Rank(s[c]) + Rank(k)
  {
    var n := |s| - 1;
    if c < n {
      TotalRankUpdate(s[..n], c, k);
      assert s[c := k][..n] == s[..n][c := k];
    } else {
      assert s[c := k][..n] == s[..n];
    }
  }

  /** A step that begins with a new message or a new call. */
  predicate Begins(s: seq<Client>, e: Step) {
    && e.c < |s|
    && (e.Rx? ==> s[e.c].rx == Select)
    && (e.Caller? ==> e.i < |s[e.c].callers| && s[e.c].callers[e.i] == Outside)
    && !e.Cb? && !e.CallerGivesUp?
  }

  lemma RxComesCloser(k: Client, kind: Kind, waiter: nat)
    requires k.rx != Select && RxEnabled(k, kind, waiter)
    ensures Rank(RxStep(k, kind, waiter)) < Rank(k)
  {
    if k.rx == SignalReply && IsWaiting(k, waiter) { CallersRankUpdate(k.callers, waiter, Woken); }
  }

  lemma CallerComesCloser(k: Client, i: nat)
    requires CallerEnabled(k, i) && k.callers[i] != Outside
    ensures Rank(CallerStep(k, i)) < Rank(k)
  {
    CallersRankUpdate(k.callers, i, After(k.callers[i]));
  }

  lemma CbComesCloser(k: Client, calling: bool)
    requires CbEnabled(k, calling)
    ensures Rank(CbStep(k)) < Rank(k)
  {
  }

  lemma StepComesCloser(s: seq<Client>, e: Step)
    requires Enabled(s, e) && !Begins(s, e)
    ensures TotalRank(Next(s, e)) < TotalRank(s)
  {
    var k := s[e.c];
    TotalRankUpdate(s, e.c, ClientStep(k, e));
    match e
    case Rx(_, kind, waiter) => RxComesCloser(k, kind, waiter);
    case Caller(_, i) => CallerComesCloser(k, i);
    case CallerGivesUp(_, i) => CallersRankUpdate(k.callers, i, Outside);
    case Cb(c) => CbComesCloser(k, InCall(s, c));
  }

  ghost predicate NothingBegins(s: seq<Client>, es: seq<Step>)
    decreases |es|
  {
    es == [] || (!Begins(s, es[0]) && NothingBegins(Next(s, es[0]), es[1..]))
  }

  /** While no new message is read and no new call is made, every run ends, after at most this many
      steps: the threads come to rest, or into the deadlock. */
  lemma {:induction false} RunsEnd(s: seq<Client>, es: seq<Step>)
    requires LegalRun(s, es) && NothingBegins(s, es)
    ensures |es| <= TotalRank(s)
    decreases |es|
  {
    if es != [] {
      StepComesCloser(s, es[0]);
      RunsEnd(Next(s, es[0]), es[1..]);
    }
  }

  // ---------- The deadlock ----------

  lemma {:induction false} RunsJoin(s: seq<Client>, es: seq<Step>, fs: seq<Step>)
    requires LegalRun(s, es) && LegalRun(RunAll(s, es), fs)
    ensures LegalRun(s, es + fs) && RunAll(s, es + fs) == RunAll(RunAll(s, es), fs)
    decreases |es|
  {
    if es == [] {
      assert es + fs == fs;
    } else {
      assert (es + fs)[0] == es[0] && (es + fs)[1..] == es[1..] + fs;
      RunsJoin(Next(s, es[0]), es[1..], fs);
    }
  }

  /** A step of client k that needs no other client. */
  ghost predicate Local(k: Client, e: Step) {
    match e
    case Rx(_, kind, waiter) => k.rx != Select && RxEnabled(k, kind, waiter)
    case Caller(_, i) => CallerEnabled(k, i) && k.callers[i] != Outside
    case CallerGivesUp(_, _) => false
    case Cb(_) => k.cb != Dispatching && CbEnabled(k, false)
  }

  /** Step e can be taken n times by client k. */
  ghost predicate Repeatable(k: Client, e: Step, n: nat)
    decreases n
  {
    n == 0 || (Local(k, e) && Repeatable(ClientStep(k, e), e, n - 1))
  }

  function Repeated(k: Client, e: Step, n: nat): Client
    decreases n
  {
    if n == 0 then k else Repeated(ClientStep(k, e), e, n - 1)
  }

  function Times(e: Step, n: nat): seq<Step> { seq(n, _ => e) }

  lemma {:induction false} RepeatIsLegal(s: seq<Client>, e: Step, n: nat)
    requires e.c < |s| && Repeatable(s[e.c], e, n)
    ensures LegalRun(s, Times(e, n)) && RunAll(s, Times(e, n)) == s[e.c := Repeated(s[e.c], e, n)]
    decreases n
  {
    if n > 0 {
      RepeatIsLegal(Next(s, e), e, n - 1);
      assert Times(e, n)[1..] == Times(e, n - 1);
    }
  }

  /** A run from s that has come to t goes on with n steps e. */
  lemma GoOn(s: seq<Client>, es: seq<Step>, t: seq<Client>, e: Step, n: nat) returns (fs: seq<Step>)
    requires LegalRun(s, es) && RunAll(s, es) == t && e.c < |t| && Repeatable(t[e.c], e, n)
    ensures LegalRun(s, fs) && RunAll(s, fs) == t[e.c := Repeated(t[e.c], e, n)]
    ensures forall f :: f in fs ==> f in es || f == e
  {
    RepeatIsLegal(t, e, n);
    RunsJoin(s, es, Times(e, n));
    fs := es + Times(e, n);
  }

  lemma GoOnce(s: seq<Client>, es: seq<Step>, t: seq<Client>, e: Step) returns (fs: seq<Step>)
    requires LegalRun(s, es) && RunAll(s, es) == t && Enabled(t, e)
    ensures LegalRun(s, fs) && RunAll(s, fs) == Next(t, e)
    ensures forall f :: f in fs ==> f in es || f == e
  {
    RunsJoin(s, es, [e]);
    fs := es + [e];
  }

  lemma ReadsCall(k: Client, c: nat)
    requires k.rx == Checking && !k.busy
    ensures Repeatable(k, Rx(c, Call, 0), 4)
    ensures Repeated(k, Rx(c, Call, 0), 4)
            == k.(rx := WantCb, inputLock := Free, busy := true, buffer := Call, callbacks := k.callbacks + 1)
  {
    var t := RxStep(RxStep(k, Call, 0), Call, 0);
    assert t == k.(rx := Marking(Call), buffer := Call, callbacks := k.callbacks + 1);
    assert Repeatable(t, Rx(c, Call, 0), 2);
  }

  lemma PostsCall(k: Client, c: nat)
    requires k.rx == WantCb && k.cbLock == Free && k.cb == NotStarted
    ensures Repeatable(k, Rx(c, Call, 0), 4)
    ensures Repeated(k, Rx(c, Call, 0), 4) == k.(rx := Select, gotCb := true, cb := Starting)
  {
    var t := RxStep(RxStep(k, Call, 0), Call, 0);
    assert t == k.(rx := SignalCb, cbLock := ByRx, gotCb := true, cb := Starting);
    assert Repeatable(t, Rx(c, Call, 0), 2);
  }

  lemma TakesCall(k: Client, c: nat)
    requires k.cb == Starting && k.gotCb && k.cbLock == Free
    ensures Repeatable(k, Cb(c), 3)
    ensures Repeated(k, Cb(c), 3) == k.(cb := Cloning, gotCb := false, taken := k.taken + 1, cbLock := ByCb)
  {
  }

  lemma ClonesCall(k: Client, c: nat)
    requires k.cb == Cloning && k.inputLock == Free && k.rx == Select
    ensures Repeatable(k, Cb(c), 3)
    ensures Repeated(k, Cb(c), 3) == k.(cb := Dispatching, busy := false)
  {
  }

  /** Caller i at p takes a step; q are the callers otherwise. */
  lemma CallerGoesOn(k: Client, q: seq<CallerPc>, i: nat, p: CallerPc)
    requires i < |q| && k.callers == q[i := p]
    ensures |k.callers| == |q| && CallerStep(k, i) == CallerActs(k, i, p).(callers := q[i := After(p)])
  {
    assert q[i := p][i := After(p)] == q[i := After(p)];
  }

  lemma EntersCall(k: Client, q: seq<CallerPc>, d: nat, i: nat)
    requires i < |q| && k.callers == q[i := Entering] && k.callLock == -1 && k.replyLock == Free
    ensures Repeatable(k, Caller(d, i), 2)
    ensures Repeated(k, Caller(d, i), 2) == k.(callers := q[i := Sending], callLock := i, replyLock := ByCaller)
  {
    CallerGoesOn(k, q, i, Entering);
    CallerGoesOn(CallerStep(k, i), q, i, Encoding);
    assert Repeatable(CallerStep(k, i), Caller(d, i), 1);
  }

  lemma SendsCall(k: Client, q: seq<CallerPc>, d: nat, i: nat)
    requires i < |q| && k.callers == q[i := Sending]
    ensures Repeatable(k, Caller(d, i), 2)
    ensures Repeated(k, Caller(d, i), 2) == k.(callers := q[i := Waiting], replyLock := Free, outstanding := true)
  {
    CallerGoesOn(k, q, i, Sending);
    CallerGoesOn(CallerStep(k, i), q, i, Sent);
    assert Repeatable(CallerStep(k, i), Caller(d, i), 1);
  }

  /** The receiving thread reads a call for client c. */
  lemma CallIsRead(s: seq<Client>, es: seq<Step>, t: seq<Client>, c: nat) returns (fs: seq<Step>)
    requires LegalRun(s, es) && RunAll(s, es) == t && c < |t| && t[c].inputLock == Free && !t[c].busy
    requires forall d :: 0 <= d < |t| ==> t[d].rx == Select
    ensures LegalRun(s, fs)
    ensures RunAll(s, fs)
            == t[c := t[c].(rx := WantCb, busy := true, buffer := Call, callbacks := t[c].callbacks + 1)]
    ensures forall f :: f in fs ==> f in es || f.Rx?
  {
    var rx := Rx(c, Call, 0);
    fs := GoOnce(s, es, t, rx);
    var k := t[c].(rx := Checking, inputLock := ByRx);
    ReadsCall(k, c);
    fs := GoOn(s, fs, t[c := k], rx, 4);
  }

  lemma CallIsPosted(s: seq<Client>, threads: nat, c: nat) returns (es: seq<Step>, k: Client)
    requires Init(s, threads) && c < |s|
    ensures LegalRun(s, es) && RunAll(s, es) == s[c := k]
    ensures k == s[c].(cb := Starting, gotCb := true, busy := true, buffer := Call, callbacks := 1)
    ensures forall f :: f in es ==> f.Rx?
  {
    assert Fresh(s[c]);
    es := CallIsRead(s, [], s, c);
    var k1 := s[c].(rx := WantCb, busy := true, buffer := Call, callbacks := 1);
    PostsCall(k1, c);
    es := GoOn(s, es, s[c := k1], Rx(c, Call, 0), 4);
    k := Repeated(k1, Rx(c, Call, 0), 4);
  }

  /** Its callback thread has taken the call and is about to copy it. */
  lemma CallIsTaken(s: seq<Client>, threads: nat, c: nat) returns (es: seq<Step>, k: Client)
    requires Init(s, threads) && c < |s|
    ensures LegalRun(s, es) && RunAll(s, es) == s[c := k]
    ensures k == s[c].(cb := Cloning, cbLock := ByCb, busy := true, buffer := Call, callbacks := 1, taken := 1)
    ensures forall f :: f in es ==> !f.Caller?
  {
    var k1;
    es, k1 := CallIsPosted(s, threads, c);
    assert Fresh(s[c]);
    TakesCall(k1, c);
    es := GoOn(s, es, s[c := k1], Cb(c), 3);
    k := Repeated(k1, Cb(c), 3);
  }

  /** From every start some run comes to where client c dispatches a call. */
  lemma CallIsDispatched(s: seq<Client>, threads: nat, c: nat) returns (es: seq<Step>, k: Client)
    requires Init(s, threads) && c < |s|
    ensures LegalRun(s, es) && RunAll(s, es) == s[c := k]
    ensures k == s[c].(cb := Dispatching, cbLock := ByCb, buffer := Call, callbacks := 1, taken := 1)
    ensures forall f :: f in es ==> !f.Caller?
  {
    var k1;
    es, k1 := CallIsTaken(s, threads, c);
    assert Fresh(s[c]);
    ClonesCall(k1, c);
    es := GoOn(s, es, s[c := k1], Cb(c), 3);
    k := Repeated(k1, Cb(c), 3);
  }

  lemma FreshIsStill(k: Client, calling: bool)
    requires Fresh(k)
    ensures Still(k, calling)
  {
  }

  /** Thread i, the first to do so, calls the client and waits for the reply. */
  lemma CallIsMade(s: seq<Client>, es: seq<Step>, t: seq<Client>, d: nat, i: nat) returns (fs: seq<Step>)
    requires LegalRun(s, es) && RunAll(s, es) == t && d < |t| && i < |t[d].callers| && MayCall(t, i)
    requires t[d].callers[i] == Outside && t[d].callLock == -1 && t[d].replyLock == Free
    ensures LegalRun(s, fs)
    ensures RunAll(s, fs)
            == t[d := t[d].(callers := t[d].callers[i := Waiting], callLock := i, outstanding := true)]
    ensures forall f :: f in fs ==> f in es || f == Caller(d, i)
  {
    var e, q := Caller(d, i), t[d].callers;
    fs := GoOnce(s, es, t, e);
    var k1 := t[d].(callers := q[i := Entering]);
    EntersCall(k1, q, d, i);
    fs := GoOn(s, fs, t[d := k1], e, 2);
    var k2 := Repeated(k1, e, 2);
    SendsCall(k2, q, d, i);
    fs := GoOn(s, fs, t[d := k2], e, 2);
  }

  lemma WaitingIsStill(k: Client, c: nat)
    requires c < |k.callers| && k.callLock == c && k.callers[c] == Waiting && k.outstanding
    requires !k.gotCb && !k.busy && k.rx == Select && k.callbacks == k.taken
    requires k.cb == NotStarted || k.cb == Dispatching
    ensures Still(k, true) && (k.cb == NotStarted ==> Still(k, false)) && In(k, c)
  {
  }

  /** Client c dispatches to a function that waits for the reply to a call on client d. */
  lemma CallIsSent(s: seq<Client>, threads: nat, c: nat, d: nat) returns (es: seq<Step>)
    requires Init(s, threads) && c < |s| && d < |s|
    ensures LegalRun(s, es)
    ensures var t := RunAll(s, es); AtRest(t) && |t| == |s| && InCall(t, c)
    ensures forall f :: f in es && f.Caller? ==> f == Caller(d, c)
  {
    var k;
    es, k := CallIsDispatched(s, threads, c);
    var t := s[c := k];
    assert Fresh(s[c]) && Fresh(s[d]);
    assert MayCall(t, c);
    es := CallIsMade(s, es, t, d, c);
    var m := t[d].(callers := t[d].callers[c := Waiting], callLock := c, outstanding := true);
    WaitingIsStill(m, c);
    DispatchedIsAtRest(s, c, k, d, m);
  }

  lemma DispatchedIsAtRest(s: seq<Client>, c: nat, k: Client, d: nat, m: Client)
    requires c < |s| && d < |s| && forall b :: 0 <= b < |s| ==> Fresh(s[b])
    requires Still(k, true) && k.rx == Select && k.cb == Dispatching
    requires Still(m, true) && m.rx == Select && In(m, c) && (c != d ==> Still(m, false))
    ensures var r := s[c := k][d := m]; AtRest(r) && InCall(r, c)
  {
    var r := s[c := k][d := m];
    assert In(r[d], c);
    forall b | 0 <= b < |r|
      ensures Still(r[b], InCall(r, b)) && r[b].rx == Select
    {
      if b != c && b != d { FreshIsStill(s[b], InCall(r, b)); }
    }
  }

  lemma StillWithCall(k: Client, t: Client)
    requires Still(k, true) && k.rx == Select
    requires t == k.(rx := WantCb, busy := true, buffer := Call, callbacks := k.callbacks + 1)
    ensures Still(t, true)
  {
    assert Pc(t) == Pc(k) && forall i :: In(t, i) <==> In(k, i);
  }

  lemma InputIsFree(k: Client, calling: bool)
    requires ClientInv(k) && Still(k, calling) && k.rx == Select
    ensures k.inputLock == Free && !k.busy
  {
    assert Pc(k) == Waiting || !In(k, k.callLock);
  }

  /** Reading a call into client c leaves all others as they are. */
  lemma ReadingDeadlocks(s: seq<Client>, c: nat, d: nat, t: Client)
    requires AtRest(s) && c < |s| && d < |s| && In(s[d], c) && s[c].cb == Dispatching
    requires t == s[c].(rx := WantCb, busy := true, buffer := Call, callbacks := s[c].callbacks + 1)
    ensures Deadlocked(s[c := t])
  {
    var r := s[c := t];
    assert InCall(s, c) && In(r[d], c);
    StillWithCall(s[c], t);
    forall b | 0 <= b < |r|
      ensures Still(r[b], InCall(r, b))
    {
      assert Still(s[b], InCall(s, b));
      if InCall(s, b) {
        var g :| 0 <= g < |s| && In(s[g], b);
        assert In(r[g], b);
      }
    }
    assert Blocked(r, c, d);
  }

  lemma RestingClient(s: seq<Client>, c: nat)
    requires Inv(s) && AtRest(s) && c < |s| && InCall(s, c)
    ensures s[c].inputLock == Free && !s[c].busy && s[c].cb == Dispatching
  {
    assert ClientInv(s[c]) && Still(s[c], true);
    InputIsFree(s[c], true);
  }

  /** Whenever a dispatch function of client c is in a call and nothing else can go on, one more
      incoming call for c is the deadlock. */
  lemma IncomingCallDeadlocks(s: seq<Client>, c: nat) returns (es: seq<Step>)
    requires Inv(s) && AtRest(s) && c < |s| && InCall(s, c)
    ensures LegalRun(s, es) && Deadlocked(RunAll(s, es)) && forall f :: f in es ==> f.Rx?
  {
    RestingClient(s, c);
    var d :| 0 <= d < |s| && In(s[d], c);
    es := CallIsRead(s, [], s, c);
    ReadingDeadlocks(s, c, d, RunAll(s, es)[c]);
  }

  /** From every start and for any two clients c and d, which may be the same, some run ends in the
      deadlock: a call for c is dispatched to a function that calls d, and another call for c is
      read before the reply. */
  lemma NestedCallDeadlocks(s: seq<Client>, threads: nat, c: nat, d: nat) returns (es: seq<Step>)
    requires Init(s, threads) && c < |s| && d < |s|
    ensures LegalRun(s, es) && Deadlocked(RunAll(s, es)) && !CanRun(RunAll(s, es))
    ensures forall f :: f in es && f.Caller? ==> f == Caller(d, c)
  {
    es := CallIsSent(s, threads, c, d);
    InitInv(s, threads);
    RunKeepsInv(s, es);
    var fs := IncomingCallDeadlocks(RunAll(s, es), c);
    RunsJoin(s, es, fs);
    es := es + fs;
    RunKeepsInv(s, es);
    StopsExactly(RunAll(s, es));
  }

  /** calls: which client's dispatch functions may call which client. */
  ghost predicate Keeps(es: seq<Step>, clients: nat, calls: set<(nat, nat)>) {
    forall e :: e in es && e.Caller? && e.i < clients ==> (e.i, e.c) in calls
  }

  ghost predicate NeverDeadlocks(s: seq<Client>, calls: set<(nat, nat)>) {
    forall es :: LegalRun(s, es) && Keeps(es, |s|, calls) ==> !Deadlocked(RunAll(s, es))
  }

  /** Whether the threads can ever deadlock depends only on whether some dispatch function may call
      some client, its own or another. */
  lemma NeverDeadlocksExactly(s: seq<Client>, threads: nat, calls: set<(nat, nat)>)
    requires Init(s, threads) && forall p :: p in calls ==> p.0 < |s| && p.1 < |s|
    ensures NeverDeadlocks(s, calls) <==> calls == {}
  {
    if calls == {} {
      forall es | LegalRun(s, es) && Keeps(es, |s|, calls)
        ensures !Deadlocked(RunAll(s, es))
      {
        EveryInterleaving(s, threads, es);
      }
    } else {
      var p :| p in calls;
      var es := NestedCallDeadlocks(s, threads, p.0, p.1);
      assert LegalRun(s, es) && Keeps(es, |s|, calls) && Deadlocked(RunAll(s, es));
    }
  }

  // ---------- A send that fails ----------

  /** clnt_call frees the input buffer also when the call could not be sent. */
  function FailToSend(k: Client, i: nat): Client
    requires i < |k.callers|
  {
    SetCaller(k, i, Using)
  }

  /** If a send fails while the callback thread copies a call, the buffer is marked free, and the
      receiving thread may read into it. */
  lemma FailedSendOverwrites(k: Client, c: nat, i: nat)
    requires ClientInv(k) && i < |k.callers| && k.callers[i] == Sending && k.cb == Cloning && k.rx == Select
    ensures var t := FailToSend(k, i);
            && Repeatable(t, Caller(c, i), 3)
            && var u := Repeated(t, Caller(c, i), 3);
               && RxEnabled(u, Call, 0) && !ReadIsSafe(RxStep(RxStep(u, Call, 0), Call, 0))
  {
    var q, t := k.callers, FailToSend(k, i);
    assert t.inputLock == Free;
    CallerGoesOn(t, q, i, Using);
    var t1 := CallerStep(t, i);
    CallerGoesOn(t1, q, i, Freeing);
    var t2 := CallerStep(t1, i);
    CallerGoesOn(t2, q, i, Freed);
    assert Repeatable(t2, Caller(c, i), 1) && Repeatable(t1, Caller(c, i), 2);
    var u := CallerStep(t2, i);
    assert Repeated(t1, Caller(c, i), 2) == u;
    assert u.cb == Cloning && !u.busy && u.rx == Select && u.inputLock == Free;
  }

  /** From every start some run comes to where that can happen. */
  lemma CallMeetsCallback(s: seq<Client>, threads: nat, c: nat, i: nat) returns (es: seq<Step>)
    requires Init(s, threads) && c < |s| <= i < threads
    ensures LegalRun(s, es) && Inv(RunAll(s, es))
    ensures var t := RunAll(s, es);
            |t| == |s| && i < |t[c].callers| && t[c].callers[i] == Sending && t[c].cb == Cloning && t[c].rx == Select
  {
    var k, e, q := s[c], Caller(c, i), s[c].callers;
    es, k := CallIsTaken(s, threads, c);
    assert Fresh(s[c]);
    assert MayCall(s[c := k], i);
    es := GoOnce(s, es, s[c := k], e);
    var k1 := k.(callers := q[i := Entering]);
    EntersCall(k1, q, c, i);
    es := GoOn(s, es, s[c := k1], e, 2);
    assert RunAll(s, es)[c] == Repeated(k1, e, 2);
    InitInv(s, threads);
    RunKeepsInv(s, es);
  }
}
