/** The preview pipeline without post-processing: the capture, show and encode threads share
    counting semaphores, the ring buffer_index_maps with three heads, and the overlay's
    held-back frame.  Each semaphore operation, each read or write of shared data, and each
    call to the capture device is one step; the mOverlayMutex section of the show thread is one
    step.  Steps of the threads interleave in any order while the preview runs. */
module PreviewDirect {
  import opened Ring

  datatype CapturePc = CWait | CDequeue | CStore(index: nat) | CAdvance | CPostShow | CPostEnc

  datatype ShowPc =
    | SWait | SRead | SAdvance(display: nat) | SOverlay(display: nat)
    | SWaitFin(display: nat, back: nat) | SQueue(display: nat, back: nat)
    | SLast(display: nat) | SPost

  datatype EncodePc = EWait | ERead | EAdvance(index: nat) | ECopy(index: nat) | EPost

  /** driver holds the buffers queued to the device.  frames, shown, encoded and requeued
      record buffer indices in the order they were dequeued, read by the show thread, read by
      the encode thread and queued back; captured, displayed and finished count the completed
      rounds of the three threads. */
  datatype State = State(
    n: nat, overlay: bool,
    dequeueSem: nat, showSem: nat, encSem: nat, finSem: nat,
    ring: seq<nat>, dequeueHead: nat, displayHead: nat, encHead: nat,
    isFirst: bool, last: nat,
    capture: CapturePc, show: ShowPc, encode: EncodePc,
    driver: set<nat>,
    frames: seq<nat>, shown: seq<nat>, encoded: seq<nat>, requeued: seq<nat>,
    captured: nat, displayed: nat, finished: nat)

  /** PreparePreviwMisc, with all buffers queued to the device. */
  ghost predicate Init(s: State) {
    && s.n > 0 && |s.ring| == s.n
    && s.dequeueSem == s.n && s.showSem == 0 && s.encSem == 0 && s.finSem == 0
    && s.dequeueHead == 0 && s.displayHead == 0 && s.encHead == 0
    && s.isFirst && s.last == 0
    && s.capture == CWait && s.show == SWait && s.encode == EWait
    && s.driver == Buffers(s.n)
    && s.frames == [] && s.shown == [] && s.encoded == [] && s.requeued == []
    && s.captured == 0 && s.displayed == 0 && s.finished == 0
  }

  datatype Step = Capture(buffer: nat) | Show | Encode | InstallOverlay

  predicate Enabled(s: State, e: Step) {
    match e
    case Capture(b) => (s.capture == CWait ==> s.dequeueSem > 0) && (s.capture == CDequeue ==> b in s.driver)
    case Show => (s.show == SWait ==> s.showSem > 0) && (s.show.SWaitFin? ==> s.finSem > 0)
    case Encode => s.encode == EWait ==> s.encSem > 0
    case InstallOverlay => !s.overlay
  }

  predicate InRange(s: State) {
    s.n > 0 && |s.ring| == s.n && s.dequeueHead < s.n && s.displayHead < s.n && s.encHead < s.n
  }

  function Next(s: State, e: Step): State
    requires InRange(s) && Enabled(s, e)
  {
    match e
    case Capture(b) => CaptureStep(s, b)
    case Show => ShowStep(s)
    case Encode => EncodeStep(s)
    case InstallOverlay => s.(overlay := true)
  }

  /** captureframeThread; b is the buffer the device returns from DevDequeue. */
  function CaptureStep(s: State, b: nat): State
    requires InRange(s) && Enabled(s, Capture(b))
  {
    match s.capture
    case CWait => s.(dequeueSem := s.dequeueSem - 1, capture := CDequeue)
    case CDequeue => s.(driver := s.driver - {b}, frames := s.frames + [b], capture := CStore(b))
    case CStore(i) => s.(ring := s.ring[s.dequeueHead := i], capture := CAdvance)
    case CAdvance => s.(dequeueHead := (s.dequeueHead + 1) % s.n, capture := CPostShow)
    case CPostShow => s.(showSem := s.showSem + 1, capture := CPostEnc)
    case CPostEnc => s.(encSem := s.encSem + 1, capture := CWait, captured := s.captured + 1)
  }

  /** previewshowFrameThread. */
  function ShowStep(s: State): State
    requires InRange(s) && Enabled(s, Show)
  {
    match s.show
    case SWait => s.(showSem := s.showSem - 1, show := SRead)
    case SRead =>
      var d := s.ring[s.displayHead];
      s.(shown := s.shown + [d], show := SAdvance(d))
    case SAdvance(d) => s.(displayHead := (s.displayHead + 1) % s.n, show := SOverlay(d))
    case SOverlay(d) =>
      if s.overlay && s.isFirst then
        s.(isFirst := false, last := d, show := SWait, displayed := s.displayed + 1)
      else s.(show := SWaitFin(d, if s.overlay then s.last else d))
    case SWaitFin(d, q) => s.(finSem := s.finSem - 1, show := SQueue(d, q))
    case SQueue(d, q) => s.(driver := s.driver + {q}, requeued := s.requeued + [q], show := SLast(d))
    case SLast(d) => s.(last := d, show := SPost)
    case SPost => s.(dequeueSem := s.dequeueSem + 1, show := SWait, displayed := s.displayed + 1)
  }

  /** encodeframeThread. */
  function EncodeStep(s: State): State
    requires InRange(s) && Enabled(s, Encode)
  {
    match s.encode
    case EWait => s.(encSem := s.encSem - 1, encode := ERead)
    case ERead =>
      var i := s.ring[s.encHead];
      s.(encoded := s.encoded + [i], encode := EAdvance(i))
    case EAdvance(i) => s.(encHead := (s.encHead + 1) % s.n, encode := ECopy(i))
    case ECopy(i) => s.(encode := EPost)
    case EPost => s.(finSem := s.finSem + 1, encode := EWait, finished := s.finished + 1)
  }

  // ---------- Where each thread is in its current round ----------

  function Stored(p: CapturePc, captured: nat): nat {
    if p == CAdvance || p == CPostShow || p == CPostEnc then captured + 1 else captured
  }
  function HeadMoved(p: CapturePc, captured: nat): nat {
    if p == CPostShow || p == CPostEnc then captured + 1 else captured
  }
  function ShowPosts(p: CapturePc, captured: nat): nat { if p == CPostEnc then captured + 1 else captured }

  function Shown(p: ShowPc, displayed: nat): nat { if p == SWait || p == SRead then displayed else displayed + 1 }
  function ShowMoved(p: ShowPc, displayed: nat): nat {
    if p == SWait || p == SRead || p.SAdvance? then displayed else displayed + 1
  }
  function FinWaits(p: ShowPc, displayed: nat, held: nat): int {
    displayed - held + if p.SQueue? || p.SLast? || p == SPost then 1 else 0
  }
  function Requeues(p: ShowPc, displayed: nat, held: nat): int {
    displayed - held + if p.SLast? || p == SPost then 1 else 0
  }

  function Encoded(p: EncodePc, finished: nat): nat { if p == EWait || p == ERead then finished else finished + 1 }
  function EncMoved(p: EncodePc, finished: nat): nat { if p.ECopy? || p == EPost then finished + 1 else finished }

  // ---------- The invariant ----------

  /** Every wait is paid for by a post. */
  ghost predicate Semaphores(s: State) {
    && s.displayed >= Held(s.isFirst)
    && s.dequeueSem + Rounds(s.captured, s.capture != CWait) == s.n + s.displayed - Held(s.isFirst)
    && s.showSem + Rounds(s.displayed, s.show != SWait) == ShowPosts(s.capture, s.captured)
    && s.encSem + Rounds(s.finished, s.encode != EWait) == s.captured
    && s.finSem + FinWaits(s.show, s.displayed, Held(s.isFirst)) == s.finished
    && (!s.overlay ==> s.isFirst)
  }

  /** The recorded sequences agree with the rounds the threads have completed. */
  ghost predicate Lengths(s: State) {
    && |s.frames| == Rounds(s.captured, s.capture != CWait && s.capture != CDequeue)
    && |s.shown| == Shown(s.show, s.displayed)
    && |s.encoded| == Encoded(s.encode, s.finished)
    && |s.requeued| == Requeues(s.show, s.displayed, Held(s.isFirst))
  }

  ghost predicate Heads(s: State)
    requires s.n > 0
  {
    && s.dequeueHead == Slot(HeadMoved(s.capture, s.captured), s.n)
    && s.displayHead == Slot(ShowMoved(s.show, s.displayed), s.n)
    && s.encHead == Slot(EncMoved(s.encode, s.finished), s.n)
  }

  /** The show thread holds the frame it is on; once the overlay holds one back, last is the
      frame before it, and that is the one to be queued back. */
  ghost predicate ShowLocal(p: ShowPc, shown: seq<nat>, displayed: nat, held: nat, last: nat) {
    && held <= displayed
    && (p != SWait && p != SRead ==> displayed < |shown|)
    && (p.SAdvance? || p.SOverlay? || p.SWaitFin? || p.SQueue? || p.SLast? ==> p.display == shown[displayed])
    && (p.SWaitFin? || p.SQueue? ==> p.back == shown[displayed - held])
    && (held == 1 && p != SPost && !p.SLast? ==> displayed <= |shown| && last == shown[displayed - 1])
    && (p == SPost ==> last == shown[displayed])
  }

  ghost predicate EncodeLocal(p: EncodePc, encoded: seq<nat>, finished: nat) {
    p.EAdvance? || p.ECopy? ==> finished < |encoded| && p.index == encoded[finished]
  }

  ghost predicate Control(s: State) {
    InRange(s) && Semaphores(s) && Lengths(s) && Heads(s)
  }

  ghost predicate Memory(s: State) {
    && RingHolds(s.ring, s.frames, Stored(s.capture, s.captured), s.n)
    && Owned(s.driver, s.frames, |s.requeued|, s.n)
  }

  ghost predicate Threads(s: State) {
    && (s.capture.CStore? ==> IsFrame(s.frames, s.captured, s.capture.index))
    && ShowLocal(s.show, s.shown, s.displayed, Held(s.isFirst), s.last)
    && EncodeLocal(s.encode, s.encoded, s.finished)
  }

  /** Everybody sees the frames in dequeue order. */
  ghost predicate InOrder(s: State) {
    s.shown <= s.frames && s.encoded <= s.frames && s.requeued <= s.frames
  }

  ghost predicate Inv(s: State) {
    Control(s) && Memory(s) && Threads(s) && InOrder(s)
  }

  lemma InitInv(s: State)
    requires Init(s)
    ensures Inv(s)
  {
    BufferCount(s.n);
  }

  lemma CaptureHeads(s: State, b: nat)
    requires InRange(s) && Heads(s) && Enabled(s, Capture(b))
    ensures Heads(CaptureStep(s, b))
  {
    Advance(s.captured, s.n);
  }

  lemma ShowHeads(s: State)
    requires InRange(s) && Heads(s) && Enabled(s, Show)
    ensures Heads(ShowStep(s))
  {
    Advance(s.displayed, s.n);
  }

  lemma EncodeHeads(s: State)
    requires InRange(s) && Heads(s) && Enabled(s, Encode)
    ensures Heads(EncodeStep(s))
  {
    Advance(s.finished, s.n);
  }

  lemma CaptureSemaphores(s: State, b: nat)
    requires InRange(s) && Semaphores(s) && Enabled(s, Capture(b))
    ensures Semaphores(CaptureStep(s, b))
  {
  }

  lemma CaptureLengths(s: State, b: nat)
    requires InRange(s) && Lengths(s) && s.displayed >= Held(s.isFirst) && Enabled(s, Capture(b))
    ensures Lengths(CaptureStep(s, b))
  {
  }

  lemma ShowSemaphores(s: State)
    requires InRange(s) && Semaphores(s) && Enabled(s, Show)
    ensures Semaphores(ShowStep(s))
  {
  }

  lemma ShowLengths(s: State)
    requires InRange(s) && Lengths(s) && s.displayed >= Held(s.isFirst) && Enabled(s, Show)
    ensures Lengths(ShowStep(s))
  {
  }

  lemma EncodeSemaphores(s: State)
    requires InRange(s) && Semaphores(s) && Enabled(s, Encode)
    ensures Semaphores(EncodeStep(s))
  {
  }

  lemma EncodeLengths(s: State)
    requires InRange(s) && Lengths(s) && s.displayed >= Held(s.isFirst) && Enabled(s, Encode)
    ensures Lengths(EncodeStep(s))
  {
  }

  lemma CaptureMemory(s: State, b: nat)
    requires InRange(s) && Heads(s) && Lengths(s) && Memory(s) && Threads(s) && Enabled(s, Capture(b))
    ensures Memory(CaptureStep(s, b))
  {
    match s.capture
    case CStore(_) => StoreKeepsRing(s.ring, s.frames, s.captured, s.n);
    case CDequeue => DequeueKeepsOwned(s.driver, s.frames, |s.requeued|, s.n, b);
    case _ =>
  }

  lemma CaptureThreads(s: State, b: nat)
    requires InRange(s) && Enabled(s, Capture(b)) && Threads(s) && InOrder(s) && Lengths(s)
    ensures Threads(CaptureStep(s, b)) && InOrder(CaptureStep(s, b))
  {
  }

  lemma CaptureKeepsInv(s: State, b: nat)
    requires Inv(s) && Enabled(s, Capture(b))
    ensures Inv(CaptureStep(s, b))
  {
    CaptureHeads(s, b);
    CaptureSemaphores(s, b);
    CaptureLengths(s, b);
    CaptureMemory(s, b);
    CaptureThreads(s, b);
  }

  /** What the show and encode threads read is the next frame in dequeue order: its slot cannot
      have been overwritten, because the frame n later waits for this one to be queued back. */
  lemma ReadsNextFrame(s: State)
    requires Inv(s)
    ensures s.show == SRead ==> s.displayed < |s.frames| && s.ring[s.displayHead] == s.frames[s.displayed]
    ensures s.encode == ERead ==> s.finished < |s.frames| && s.ring[s.encHead] == s.frames[s.finished]
  {
  }

  /** The buffer about to be queued back is that of the oldest frame in flight. */
  lemma QueuesOldest(s: State)
    requires Inv(s) && s.show.SQueue?
    ensures |s.requeued| < |s.frames| && s.show.back == s.frames[|s.requeued|]
  {
  }

  lemma ShowMemory(s: State)
    requires InRange(s) && Memory(s) && Enabled(s, Show)
    requires s.show.SQueue? ==> |s.requeued| < |s.frames| && s.show.back == s.frames[|s.requeued|]
    ensures Memory(ShowStep(s))
  {
    if s.show.SQueue? {
      RequeueKeepsOwned(s.driver, s.frames, |s.requeued|, s.n);
    }
  }

  lemma ShowOrder(s: State)
    requires InRange(s) && InOrder(s) && Enabled(s, Show)
    requires s.show == SRead ==> |s.shown| < |s.frames| && s.ring[s.displayHead] == s.frames[|s.shown|]
    requires s.show.SQueue? ==> |s.requeued| < |s.frames| && s.show.back == s.frames[|s.requeued|]
    ensures InOrder(ShowStep(s))
  {
    match s.show
    case SRead => assert s.shown + [s.frames[|s.shown|]] <= s.frames;
    case SQueue(_, _) => assert s.requeued + [s.frames[|s.requeued|]] <= s.frames;
    case _ =>
  }

  lemma ShowKeepsLocal(s: State)
    requires InRange(s) && Enabled(s, Show) && s.displayed >= Held(s.isFirst)
    requires ShowLocal(s.show, s.shown, s.displayed, Held(s.isFirst), s.last)
    requires |s.shown| == Shown(s.show, s.displayed) && (!s.overlay ==> s.isFirst)
    ensures var t := ShowStep(s); ShowLocal(t.show, t.shown, t.displayed, Held(t.isFirst), t.last)
  {
  }

  /** What the show thread leaves to the others. */
  lemma ShowLeaves(s: State)
    requires InRange(s) && Enabled(s, Show)
    ensures var t := ShowStep(s);
            && t.capture == s.capture && t.frames == s.frames && t.captured == s.captured
            && t.encode == s.encode && t.encoded == s.encoded && t.finished == s.finished
  {
  }

  lemma ShowThreads(s: State)
    requires InRange(s) && Enabled(s, Show) && Threads(s) && Semaphores(s) && Lengths(s)
    ensures Threads(ShowStep(s))
  {
    ShowKeepsLocal(s);
    ShowLeaves(s);
  }

  lemma ShowKeepsInv(s: State)
    requires Inv(s) && Enabled(s, Show)
    ensures Inv(ShowStep(s))
  {
    ShowHeads(s);
    ShowSemaphores(s);
    ShowLengths(s);
    ReadsNextFrame(s);
    if s.show.SQueue? { QueuesOldest(s); }
    ShowMemory(s);
    ShowThreads(s);
    ShowOrder(s);
  }

  lemma EncodeThreads(s: State)
    requires Inv(s) && Enabled(s, Encode)
    ensures Threads(EncodeStep(s)) && InOrder(EncodeStep(s))
  {
    if s.encode == ERead {
      ReadsNextFrame(s);
      assert s.encoded + [s.frames[|s.encoded|]] <= s.frames;
    }
  }

  lemma EncodeKeepsInv(s: State)
    requires Inv(s) && Enabled(s, Encode)
    ensures Inv(EncodeStep(s))
  {
    EncodeHeads(s);
    EncodeSemaphores(s);
    EncodeLengths(s);
    EncodeThreads(s);
  }

  lemma StepKeepsInv(s: State, e: Step)
    requires Inv(s) && Enabled(s, e)
    ensures Inv(Next(s, e))
  {
    match e
    case Capture(b) => CaptureKeepsInv(s, b);
    case Show => ShowKeepsInv(s);
    case Encode => EncodeKeepsInv(s);
    case InstallOverlay =>
  }

  lemma StepKeepsSize(s: State, e: Step)
    requires InRange(s) && Enabled(s, e)
    ensures Next(s, e).n == s.n
  {
  }

  // ---------- Safety ----------

  /** When the capture thread stores frame k over the slot of frame k-n, both readers have read
      that slot, frame k-n is encoded, and its buffer has been queued back. */
  ghost predicate OverwriteIsSafe(s: State) {
    s.capture.CStore? && s.captured >= s.n ==>
      var k := s.captured - s.n;
      k < |s.shown| && k < |s.encoded| && k < s.finished && k < |s.requeued|
  }

  /** What is queued to the device is not queued already, and is the oldest frame still in
      flight, whose own encoding has finished. */
  ghost predicate RequeueIsSafe(s: State) {
    s.show.SQueue? ==>
      var r := |s.requeued|;
      s.show.back !in s.driver && r < |s.frames| && s.show.back == s.frames[r] && r < s.finished
  }

  /** The device has no buffer that the show thread reads, the encoder copies, or the overlay
      was given last. */
  ghost predicate InUse(s: State, k: int) {
    0 <= k < |s.frames| && s.frames[k] !in s.driver
  }

  /** The frame pushed to the overlay last, once there is one. */
  function LastPushed(s: State): int {
    s.displayed - if s.show == SWait || s.show == SRead || s.show.SAdvance? || s.show.SOverlay? then 1 else 0
  }

  ghost predicate ReadersAreSafe(s: State) {
    && (s.show.SAdvance? || s.show.SOverlay? ==> InUse(s, s.displayed) && s.show.display == s.frames[s.displayed])
    && (s.encode.EAdvance? || s.encode.ECopy? ==> InUse(s, s.finished) && s.encode.index == s.frames[s.finished])
    && (!s.isFirst ==> InUse(s, LastPushed(s)))
  }

  /** The dequeue semaphore, the rounds between it and the end of the show thread's round, and
      the frame held by the overlay always add up to the number of buffers. */
  ghost predicate Conserved(s: State) {
    s.dequeueSem + (Rounds(s.captured, s.capture != CWait) - s.displayed) + Held(s.isFirst) == s.n
  }

  ghost predicate Safe(s: State) {
    && OverwriteIsSafe(s) && RequeueIsSafe(s) && ReadersAreSafe(s) && Conserved(s) && InOrder(s)
    && (s.capture == CDequeue ==> s.driver != {})
  }

  lemma ReadsAreSafe(s: State)
    requires Inv(s)
    ensures ReadersAreSafe(s)
  {
  }

  lemma RequeuesAreSafe(s: State)
    requires Inv(s)
    ensures RequeueIsSafe(s)
  {
    if s.show.SQueue? { QueuesOldest(s); }
  }

  lemma InvIsSafe(s: State)
    requires Inv(s)
    ensures Safe(s)
  {
    ReadsAreSafe(s);
    RequeuesAreSafe(s);
  }

  // ---------- Progress ----------

  ghost predicate CanRun(s: State) {
    (exists b :: Enabled(s, Capture(b))) || Enabled(s, Show) || Enabled(s, Encode)
  }

  /** The threads are stuck in one case only: a single buffer, and the overlay holds it. */
  lemma StuckExactly(s: State)
    requires Inv(s)
    ensures !CanRun(s) <==>
            && s.n == 1 && !s.isFirst
            && s.capture == CWait && s.show == SWait && s.encode == EWait
            && s.captured == s.displayed && s.captured == s.finished
  {
    InvIsSafe(s);
    if s.capture == CDequeue {
      var b :| b in s.driver;
      assert Enabled(s, Capture(b));
    } else if s.capture != CWait || s.dequeueSem > 0 {
      assert Enabled(s, Capture(0));
    }
  }

  // ---------- Runs ----------

  ghost predicate LegalRun(s: State, es: seq<Step>)
    decreases |es|
  {
    es == [] || (InRange(s) && Enabled(s, es[0]) && LegalRun(Next(s, es[0]), es[1..]))
  }

  ghost function RunAll(s: State, es: seq<Step>): State
    requires LegalRun(s, es)
    decreases |es|
  {
    if es == [] then s else RunAll(Next(s, es[0]), es[1..])
  }

  lemma RunsOn(s: State, e: Step, rest: seq<Step>) returns (es: seq<Step>)
    requires InRange(s) && Enabled(s, e) && LegalRun(Next(s, e), rest)
    ensures LegalRun(s, es) && RunAll(s, es) == RunAll(Next(s, e), rest)
  {
    es := [e] + rest;
    assert es[0] == e && es[1..] == rest;
  }

  lemma {:induction false} RunKeepsInv(s: State, es: seq<Step>)
    requires Inv(s) && LegalRun(s, es)
    ensures Inv(RunAll(s, es)) && RunAll(s, es).n == s.n
    decreases |es|
  {
    if es != [] {
      StepKeepsInv(s, es[0]);
      StepKeepsSize(s, es[0]);
      RunKeepsInv(Next(s, es[0]), es[1..]);
    }
  }

  /** Every interleaving from the start, the overlay installed at any time or never: all of the
      above, and with two buffers no deadlock. */
  lemma EveryInterleaving(s: State, es: seq<Step>)
    requires Init(s) && LegalRun(s, es)
    ensures Safe(RunAll(s, es))
    ensures s.n >= 2 || RunAll(s, es).isFirst ==> CanRun(RunAll(s, es))
  {
    InitInv(s);
    RunKeepsInv(s, es);
    InvIsSafe(RunAll(s, es));
    StuckExactly(RunAll(s, es));
  }

  // ---------- Frames keep coming ----------

  function CaptureStage(p: CapturePc): nat {
    match p
    case CWait => 0
    case CDequeue => 1
    case CStore(_) => 2
    case CAdvance => 3
    case CPostShow => 4
    case CPostEnc => 5
  }

  function ShowStage(p: ShowPc): nat {
    match p
    case SWait => 0
    case SRead => 1
    case SAdvance(_) => 2
    case SOverlay(_) => 3
    case SWaitFin(_, _) => 4
    case SQueue(_, _) => 5
    case SLast(_) => 6
    case SPost => 7
  }

  function EncodeStage(p: EncodePc): nat {
    match p
    case EWait => 0
    case ERead => 1
    case EAdvance(_) => 2
    case ECopy(_) => 3
    case EPost => 4
  }

  /** How far the threads have come since the start. */
  function Progress(s: State): nat {
    6 * s.captured + CaptureStage(s.capture) + 8 * s.displayed + ShowStage(s.show)
    + 5 * s.finished + EncodeStage(s.encode)
  }

  lemma CaptureAdvances(s: State, b: nat)
    requires InRange(s) && Enabled(s, Capture(b))
    ensures Progress(CaptureStep(s, b)) > Progress(s)
  {
  }

  lemma ShowAdvances(s: State)
    requires InRange(s) && Enabled(s, Show)
    ensures Progress(ShowStep(s)) > Progress(s)
  {
  }

  lemma EncodeAdvances(s: State)
    requires InRange(s) && Enabled(s, Encode)
    ensures Progress(EncodeStep(s)) > Progress(s)
  {
  }

  lemma StepAdvances(s: State, e: Step)
    requires InRange(s) && Enabled(s, e)
    ensures Progress(Next(s, e)) + (if e == InstallOverlay then 1 else 0) > Progress(s)
    ensures Next(s, e).overlay == (s.overlay || e == InstallOverlay)
  {
    match e
    case Capture(b) => CaptureAdvances(s, b);
    case Show => ShowAdvances(s);
    case Encode => EncodeAdvances(s);
    case InstallOverlay =>
  }

  lemma {:induction false} RunAdvances(s: State, es: seq<Step>)
    requires Inv(s) && LegalRun(s, es)
    ensures var r := RunAll(s, es);
            Progress(s) + |es| + (if s.overlay then 1 else 0) <= Progress(r) + (if r.overlay then 1 else 0)
    decreases |es|
  {
    if es != [] {
      StepKeepsInv(s, es[0]);
      StepAdvances(s, es[0]);
      RunAdvances(Next(s, es[0]), es[1..]);
    }
  }

  /** The rounds of the threads stay together. */
  lemma RoundsStayTogether(s: State)
    requires Semaphores(s)
    ensures s.displayed <= s.captured + 1 && s.captured <= s.displayed + s.n
    ensures s.displayed <= s.finished + 1 && s.finished <= s.captured
    ensures Progress(s) <= 19 * s.displayed + 11 * s.n + 16
  {
  }

  /** No thread is left behind and none runs on the spot: a run of that many steps has shown so many
      frames, and captured and encoded as many, but for one. */
  lemma LongRunsShowFrames(s: State, es: seq<Step>)
    requires Init(s) && LegalRun(s, es)
    ensures var r := RunAll(s, es);
            |es| <= 19 * r.displayed + 11 * s.n + 17 && r.displayed <= r.captured + 1 && r.displayed <= r.finished + 1
  {
    InitInv(s);
    RunAdvances(s, es);
    RunKeepsInv(s, es);
    RoundsStayTogether(RunAll(s, es));
  }

  // ---------- A single buffer ----------

  /** A single buffer and an overlay: the first frame, once shown, is never given back. */
  ghost predicate SingleHeld(s: State) {
    && s.n == 1 && s.overlay && s.displayed <= 1
    && (s.isFirst ==> s.displayed == 0 && (s.show == SWait || s.show == SRead || s.show.SAdvance? || s.show.SOverlay?))
  }

  lemma SingleBounded(s: State)
    requires Inv(s) && SingleHeld(s)
    ensures s.captured <= 1 && s.finished <= 1 && Progress(s) <= 40
    ensures !s.isFirst ==> s.show == SWait && s.showSem == 0
  {
  }

  lemma SingleStep(s: State, e: Step)
    requires Inv(s) && SingleHeld(s) && Enabled(s, e)
    ensures SingleHeld(Next(s, e)) && Progress(Next(s, e)) > Progress(s)
  {
    SingleBounded(s);
  }

  /** From there every run ends, so some run ends with all threads stuck. */
  lemma {:induction false} RunToStop(s: State) returns (es: seq<Step>)
    requires Inv(s) && SingleHeld(s)
    ensures LegalRun(s, es) && !CanRun(RunAll(s, es))
    decreases 40 - Progress(s)
  {
    es := [];
    if CanRun(s) {
      var e :| Enabled(s, e) && e != InstallOverlay;
      SingleStep(s, e);
      StepKeepsInv(s, e);
      SingleBounded(s);
      SingleBounded(Next(s, e));
      var rest := RunToStop(Next(s, e));
      es := RunsOn(s, e, rest);
    }
  }

  lemma StopsFromStart(s: State) returns (es: seq<Step>)
    requires Init(s) && s.n == 1
    ensures LegalRun(s, es) && !CanRun(RunAll(s, es))
  {
    var t := s.(overlay := true);
    InitInv(t);
    es := RunToStop(t);
    if !s.overlay {
      es := RunsOn(s, InstallOverlay, es);
    } else {
      assert t == s;
    }
  }

  ghost predicate NeverStuck(s: State) {
    forall es :: LegalRun(s, es) ==> CanRun(RunAll(s, es))
  }

  /** Whether the threads can ever be stuck depends on the number of buffers alone. */
  lemma NeverStuckExactly(s: State)
    requires Init(s)
    ensures NeverStuck(s) <==> s.n >= 2
  {
    if s.n >= 2 {
      forall es | LegalRun(s, es)
        ensures CanRun(RunAll(s, es))
      {
        EveryInterleaving(s, es);
      }
    } else {
      var es := StopsFromStart(s);
      assert LegalRun(s, es) && !CanRun(RunAll(s, es));
    }
  }
}
