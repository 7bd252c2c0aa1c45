/** The preview pipeline with post-processing: capture buffers go through the post-processor
    into m output buffers, which the show and encode threads then read.  Steps as in the
    pipeline without post-processing; `slots` is what the output buffers hold, named by the
    capture buffer the picture came from. */
module PreviewPostProcess {
  import opened Ring

  datatype CapturePc = CWait | CDequeue | CStore(index: nat) | CAdvance | CPostIn

  datatype ProcessPc =
    | PWaitIn | PWaitOut | PRead | PAdvanceIn(input: nat) | PTakeOut(input: nat)
    | PAdvanceOut(input: nat, output: nat) | PProcess(input: nat, output: nat)
    | PPostShow(input: nat) | PPostEnc(input: nat) | PQueue(input: nat) | PPostDequeue

  datatype ShowPc = SWait | STake | SAdvance(display: nat) | SOverlay(display: nat) | SWaitFin | SPost

  datatype EncodePc = EWait | ETake | EAdvance(index: nat) | ECopy(index: nat) | EPost

  datatype State = State(
    n: nat, m: nat, overlay: bool,
    dequeueSem: nat, inSem: nat, outSem: nat, showSem: nat, encSem: nat, finSem: nat,
    ring: seq<nat>, slots: seq<nat>,
    dequeueHead: nat, inHead: nat, outHead: nat, displayHead: nat, encHead: nat,
    isFirst: bool,
    capture: CapturePc, process: ProcessPc, show: ShowPc, encode: EncodePc,
    driver: set<nat>,
    frames: seq<nat>, done: seq<nat>, shown: seq<nat>, encoded: seq<nat>, requeued: seq<nat>,
    captured: nat, processed: nat, displayed: nat, finished: nat)

  ghost predicate Init(s: State) {
    && s.n > 0 && |s.ring| == s.n && s.m > 0 && |s.slots| == s.m
    && s.dequeueSem == s.n && s.inSem == 0 && s.outSem == s.m && s.showSem == 0 && s.encSem == 0 && s.finSem == 0
    && s.dequeueHead == 0 && s.inHead == 0 && s.outHead == 0 && s.displayHead == 0 && s.encHead == 0
    && s.isFirst
    && s.capture == CWait && s.process == PWaitIn && s.show == SWait && s.encode == EWait
    && s.driver == Buffers(s.n)
    && s.frames == [] && s.done == [] && s.shown == [] && s.encoded == [] && s.requeued == []
    && s.captured == 0 && s.processed == 0 && s.displayed == 0 && s.finished == 0
  }

  datatype Step = Capture(buffer: nat) | Process | Show | Encode | InstallOverlay

  predicate Enabled(s: State, e: Step) {
    match e
    case Capture(b) => (s.capture == CWait ==> s.dequeueSem > 0) && (s.capture == CDequeue ==> b in s.driver)
    case Process => (s.process == PWaitIn ==> s.inSem > 0) && (s.process == PWaitOut ==> s.outSem > 0)
    case Show => (s.show == SWait ==> s.showSem > 0) && (s.show == SWaitFin ==> s.finSem > 0)
    case Encode => s.encode == EWait ==> s.encSem > 0
    case InstallOverlay => !s.overlay
  }

  predicate InRange(s: State) {
    && s.n > 0 && |s.ring| == s.n && s.m > 0 && |s.slots| == s.m
    && s.dequeueHead < s.n && s.inHead < s.n
    && (s.process.PAdvanceOut? || s.process.PProcess? ==> s.process.output < s.m)
    && (s.show.SAdvance? || s.show.SOverlay? ==> s.show.display < s.m)
    && (s.encode.EAdvance? || s.encode.ECopy? ==> s.encode.index < s.m)
  }

  function Next(s: State, e: Step): State
    requires InRange(s) && Enabled(s, e)
  {
    match e
    case Capture(b) => CaptureStep(s, b)
    case Process => ProcessStep(s)
    case Show => ShowStep(s)
    case Encode => EncodeStep(s)
    case InstallOverlay => s.(overlay := true)
  }

  function CaptureStep(s: State, b: nat): State
    requires InRange(s) && Enabled(s, Capture(b))
  {
    match s.capture
    case CWait => s.(dequeueSem := s.dequeueSem - 1, capture := CDequeue)
    case CDequeue => s.(driver := s.driver - {b}, frames := s.frames + [b], capture := CStore(b))
    case CStore(i) => s.(ring := s.ring[s.dequeueHead := i], capture := CAdvance)
    case CAdvance => s.(dequeueHead := (s.dequeueHead + 1) % s.n, capture := CPostIn)
    case CPostIn => s.(inSem := s.inSem + 1, capture := CWait, captured := s.captured + 1)
  }

  /** postprocessThread. */
  function ProcessStep(s: State): State
    requires InRange(s) && Enabled(s, Process)
  {
    match s.process
    case PWaitIn => s.(inSem := s.inSem - 1, process := PWaitOut)
    case PWaitOut => s.(outSem := s.outSem - 1, process := PRead)
    case PRead => s.(process := PAdvanceIn(s.ring[s.inHead]))
    case PAdvanceIn(i) => s.(inHead := (s.inHead + 1) % s.n, process := PTakeOut(i))
    case PTakeOut(i) => s.(process := PAdvanceOut(i, s.outHead))
    case PAdvanceOut(i, o) => s.(outHead := (s.outHead + 1) % s.m, process := PProcess(i, o))
    case PProcess(i, o) => s.(slots := s.slots[o := i], done := s.done + [i], process := PPostShow(i))
    case PPostShow(i) => s.(showSem := s.showSem + 1, process := PPostEnc(i))
    case PPostEnc(i) => s.(encSem := s.encSem + 1, process := PQueue(i))
    case PQueue(i) => s.(driver := s.driver + {i}, requeued := s.requeued + [i], process := PPostDequeue)
    case PPostDequeue => s.(dequeueSem := s.dequeueSem + 1, process := PWaitIn, processed := s.processed + 1)
  }

  function ShowStep(s: State): State
    requires InRange(s) && Enabled(s, Show)
  {
    match s.show
    case SWait => s.(showSem := s.showSem - 1, show := STake)
    case STake => s.(show := SAdvance(s.displayHead))
    case SAdvance(d) => s.(displayHead := (s.displayHead + 1) % s.m, show := SOverlay(d))
    case SOverlay(d) =>
      var t := s.(shown := s.shown + [s.slots[d]]);
      if s.overlay && s.isFirst then t.(isFirst := false, show := SWait, displayed := s.displayed + 1)
      else t.(show := SWaitFin)
    case SWaitFin => s.(finSem := s.finSem - 1, show := SPost)
    case SPost => s.(outSem := s.outSem + 1, show := SWait, displayed := s.displayed + 1)
  }

  function EncodeStep(s: State): State
    requires InRange(s) && Enabled(s, Encode)
  {
    match s.encode
    case EWait => s.(encSem := s.encSem - 1, encode := ETake)
    case ETake => s.(encode := EAdvance(s.encHead))
    case EAdvance(i) => s.(encHead := (s.encHead + 1) % s.m, encode := ECopy(i))
    case ECopy(i) => s.(encoded := s.encoded + [s.slots[i]], encode := EPost)
    case EPost => s.(finSem := s.finSem + 1, encode := EWait, finished := s.finished + 1)
  }

  // ---------- Where each thread is in its current round ----------

  function Stored(p: CapturePc, k: nat): nat { if p == CAdvance || p == CPostIn then k + 1 else k }
  function HeadMoved(p: CapturePc, k: nat): nat { if p == CPostIn then k + 1 else k }

  function InWaits(p: ProcessPc, k: nat): nat { if p == PWaitIn then k else k + 1 }
  function OutWaits(p: ProcessPc, k: nat): nat { if p == PWaitIn || p == PWaitOut then k else k + 1 }
  function InMoved(p: ProcessPc, k: nat): nat {
    if p == PWaitIn || p == PWaitOut || p == PRead || p.PAdvanceIn? then k else k + 1
  }
  function OutMoved(p: ProcessPc, k: nat): nat {
    if p == PWaitIn || p == PWaitOut || p == PRead || p.PAdvanceIn? || p.PTakeOut? || p.PAdvanceOut? then k else k + 1
  }
  function Done(p: ProcessPc, k: nat): nat {
    if p.PPostShow? || p.PPostEnc? || p.PQueue? || p == PPostDequeue then k + 1 else k
  }
  function ShowPosts(p: ProcessPc, k: nat): nat {
    if p.PPostEnc? || p.PQueue? || p == PPostDequeue then k + 1 else k
  }
  function EncPosts(p: ProcessPc, k: nat): nat { if p.PQueue? || p == PPostDequeue then k + 1 else k }
  function Requeues(p: ProcessPc, k: nat): nat { if p == PPostDequeue then k + 1 else k }

  function ShowMoved(p: ShowPc, k: nat): nat { if p == SWait || p == STake || p.SAdvance? then k else k + 1 }
  function Shown(p: ShowPc, k: nat): nat { if p == SWaitFin || p == SPost then k + 1 else k }
  function FinWaits(p: ShowPc, k: nat, held: nat): int { k - held + if p == SPost then 1 else 0 }

  function EncMoved(p: EncodePc, k: nat): nat { if p.ECopy? || p == EPost then k + 1 else k }
  function Encoded(p: EncodePc, k: nat): nat { if p == EPost then k + 1 else k }

  // ---------- The invariant ----------

  /** Every wait is paid for by a post. */
  ghost predicate Semaphores(s: State) {
    InputSemaphores(s) && OutputSemaphores(s)
  }

  ghost predicate InputSemaphores(s: State) {
    && s.dequeueSem + Rounds(s.captured, s.capture != CWait) == s.n + s.processed
    && s.inSem + InWaits(s.process, s.processed) == s.captured
  }

  ghost predicate OutputSemaphores(s: State) {
    && s.displayed >= Held(s.isFirst) && (!s.overlay ==> s.isFirst)
    && s.outSem + OutWaits(s.process, s.processed) == s.m + s.displayed - Held(s.isFirst)
    && s.showSem + Rounds(s.displayed, s.show != SWait) == ShowPosts(s.process, s.processed)
    && s.encSem + Rounds(s.finished, s.encode != EWait) == EncPosts(s.process, s.processed)
    && s.finSem + FinWaits(s.show, s.displayed, Held(s.isFirst)) == s.finished
  }

  ghost predicate Lengths(s: State) {
    && |s.frames| == Rounds(s.captured, s.capture != CWait && s.capture != CDequeue)
    && |s.done| == Done(s.process, s.processed)
    && |s.requeued| == Requeues(s.process, s.processed)
    && |s.shown| == Shown(s.show, s.displayed)
    && |s.encoded| == Encoded(s.encode, s.finished)
  }

  ghost predicate Heads(s: State) {
    && s.n > 0 && s.m > 0
    && s.dequeueHead == Slot(HeadMoved(s.capture, s.captured), s.n)
    && s.inHead == Slot(InMoved(s.process, s.processed), s.n)
    && s.outHead == Slot(OutMoved(s.process, s.processed), s.m)
    && s.displayHead == Slot(ShowMoved(s.show, s.displayed), s.m)
    && s.encHead == Slot(EncMoved(s.encode, s.finished), s.m)
  }

  ghost predicate Control(s: State) {
    InRange(s) && Semaphores(s) && Lengths(s) && Heads(s)
  }

  ghost predicate Memory(s: State) {
    && RingHolds(s.ring, s.frames, Stored(s.capture, s.captured), s.n)
    && RingHolds(s.slots, s.done, |s.done|, s.m)
    && Owned(s.driver, s.frames, |s.requeued|, s.n)
  }

  ghost predicate ProcessLocal(p: ProcessPc, frames: seq<nat>, k: nat, m: nat) {
    && m > 0
    && (p.PAdvanceIn? || p.PTakeOut? || p.PAdvanceOut? || p.PProcess? || p.PPostShow? || p.PPostEnc? || p.PQueue? ==>
          k < |frames| && p.input == frames[k])
    && (p.PAdvanceOut? || p.PProcess? ==> p.output == Slot(k, m))
  }

  ghost predicate ShowLocal(p: ShowPc, k: nat, m: nat) {
    && m > 0
    && (p.SAdvance? || p.SOverlay? ==> p.display == Slot(k, m))
  }

  ghost predicate EncodeLocal(p: EncodePc, k: nat, m: nat) {
    && m > 0
    && (p.EAdvance? || p.ECopy? ==> p.index == Slot(k, m))
  }

  ghost predicate Threads(s: State) {
    && (s.capture.CStore? ==> IsFrame(s.frames, s.captured, s.capture.index))
    && ProcessLocal(s.process, s.frames, s.processed, s.m)
    && ShowLocal(s.show, s.displayed, s.m)
    && EncodeLocal(s.encode, s.finished, s.m)
  }

  ghost predicate InOrder(s: State) {
    s.done <= s.frames && s.shown <= s.done && s.encoded <= s.done && s.requeued <= s.done
  }

  ghost predicate Inv(s: State) {
    Control(s) && Memory(s) && Threads(s) && InOrder(s)
  }

  lemma InitInv(s: State)
    requires Init(s)
    ensures Inv(s)
  {
    BufferCount(s.n);
  }

  lemma CaptureHeads(s: State, b: nat)
    requires InRange(s) && Heads(s) && Enabled(s, Capture(b))
    ensures Heads(CaptureStep(s, b))
  {
    Advance(s.captured, s.n);
  }

  lemma InHeadAdvances(s: State)
    requires InRange(s) && Heads(s) && s.process.PAdvanceIn?
    ensures Heads(ProcessStep(s))
  {
    Advance(s.processed, s.n);
  }

  lemma OutHeadAdvances(s: State)
    requires InRange(s) && Heads(s) && s.process.PAdvanceOut?
    ensures Heads(ProcessStep(s))
  {
    Advance(s.processed, s.m);
  }

  lemma HeadsStay(s: State)
    requires InRange(s) && Heads(s) && Enabled(s, Process)
    requires !s.process.PAdvanceIn? && !s.process.PAdvanceOut?
    ensures Heads(ProcessStep(s))
  {
  }

  lemma ProcessHeads(s: State)
    requires InRange(s) && Heads(s) && Enabled(s, Process)
    ensures Heads(ProcessStep(s))
  {
    if s.process.PAdvanceIn? {
      InHeadAdvances(s);
    } else if s.process.PAdvanceOut? {
      OutHeadAdvances(s);
    } else {
      HeadsStay(s);
    }
  }

  lemma ShowHeads(s: State)
    requires InRange(s) && Heads(s) && Enabled(s, Show)
    ensures Heads(ShowStep(s))
  {
    Advance(s.displayed, s.m);
  }

  lemma EncodeHeads(s: State)
    requires InRange(s) && Heads(s) && Enabled(s, Encode)
    ensures Heads(EncodeStep(s))
  {
    Advance(s.finished, s.m);
  }

  lemma CaptureSemaphores(s: State, b: nat)
    requires InRange(s) && Semaphores(s) && Enabled(s, Capture(b))
    ensures Semaphores(CaptureStep(s, b))
  {
  }

  lemma CaptureLengths(s: State, b: nat)
    requires InRange(s) && Lengths(s) && Enabled(s, Capture(b))
    ensures Lengths(CaptureStep(s, b))
  {
  }

  lemma ProcessSemaphores(s: State)
    requires InRange(s) && Semaphores(s) && Enabled(s, Process)
    ensures Semaphores(ProcessStep(s))
  {
    ProcessInputs(s);
    ProcessOutputs(s);
  }

  lemma ProcessInputs(s: State)
    requires InRange(s) && InputSemaphores(s) && Enabled(s, Process)
    ensures InputSemaphores(ProcessStep(s))
  {
  }

  lemma ProcessTakesOutput(s: State, held: nat)
    requires InRange(s) && Enabled(s, Process)
    requires s.outSem + OutWaits(s.process, s.processed) == s.m + s.displayed - held
    ensures var t := ProcessStep(s); t.outSem + OutWaits(t.process, t.processed) == s.m + s.displayed - held
  {
  }

  lemma ProcessPosts(s: State, shows: nat, encodes: nat)
    requires InRange(s) && Enabled(s, Process)
    requires s.showSem + shows == ShowPosts(s.process, s.processed)
    requires s.encSem + encodes == EncPosts(s.process, s.processed)
    ensures var t := ProcessStep(s);
            && t.showSem + shows == ShowPosts(t.process, t.processed)
            && t.encSem + encodes == EncPosts(t.process, t.processed)
  {
  }

  /** What the post-processor leaves to the show and encode threads. */
  lemma ProcessLeaves(s: State)
    requires InRange(s) && Enabled(s, Process)
    ensures var t := ProcessStep(s);
            && t.m == s.m && t.overlay == s.overlay && t.isFirst == s.isFirst && t.finSem == s.finSem
            && t.show == s.show && t.encode == s.encode && t.displayed == s.displayed && t.finished == s.finished
            && t.frames == s.frames && t.shown == s.shown && t.encoded == s.encoded
            && t.capture == s.capture && t.captured == s.captured
  {
  }

  lemma ProcessOutputs(s: State)
    requires InRange(s) && OutputSemaphores(s) && Enabled(s, Process)
    ensures OutputSemaphores(ProcessStep(s))
  {
    ProcessLeaves(s);
    ProcessTakesOutput(s, Held(s.isFirst));
    ProcessPosts(s, Rounds(s.displayed, s.show != SWait), Rounds(s.finished, s.encode != EWait));
  }

  lemma ProcessRecords(s: State)
    requires InRange(s) && Enabled(s, Process)
    requires |s.done| == Done(s.process, s.processed) && |s.requeued| == Requeues(s.process, s.processed)
    ensures var t := ProcessStep(s);
            |t.done| == Done(t.process, t.processed) && |t.requeued| == Requeues(t.process, t.processed)
  {
  }

  lemma ProcessLengths(s: State)
    requires InRange(s) && Lengths(s) && Enabled(s, Process)
    ensures Lengths(ProcessStep(s))
  {
    ProcessLeaves(s);
    ProcessRecords(s);
  }

  lemma ShowSemaphores(s: State)
    requires InRange(s) && Semaphores(s) && Enabled(s, Show)
    ensures Semaphores(ShowStep(s))
  {
    ShowInputs(s);
    ShowOutputs(s);
  }

  lemma ShowInputs(s: State)
    requires InRange(s) && InputSemaphores(s) && Enabled(s, Show)
    ensures InputSemaphores(ShowStep(s))
  {
  }

  lemma ShowOutputs(s: State)
    requires InRange(s) && OutputSemaphores(s) && Enabled(s, Show)
    ensures OutputSemaphores(ShowStep(s))
  {
  }

  lemma ShowLengths(s: State)
    requires InRange(s) && Lengths(s) && Enabled(s, Show)
    ensures Lengths(ShowStep(s))
  {
  }

  lemma EncodeSemaphores(s: State)
    requires InRange(s) && Semaphores(s) && Enabled(s, Encode)
    ensures Semaphores(EncodeStep(s))
  {
  }

  lemma EncodeLengths(s: State)
    requires InRange(s) && Lengths(s) && Enabled(s, Encode)
    ensures Lengths(EncodeStep(s))
  {
  }

  lemma CaptureMemory(s: State, b: nat)
    requires InRange(s) && Heads(s) && Lengths(s) && Memory(s) && Threads(s) && Enabled(s, Capture(b))
    ensures Memory(CaptureStep(s, b))
  {
    match s.capture
    case CStore(_) => StoreKeepsRing(s.ring, s.frames, s.captured, s.n);
    case CDequeue => DequeueKeepsOwned(s.driver, s.frames, |s.requeued|, s.n, b);
    case _ =>
  }

  lemma CaptureThreads(s: State, b: nat)
    requires InRange(s) && Enabled(s, Capture(b)) && Threads(s) && InOrder(s) && Lengths(s)
    ensures Threads(CaptureStep(s, b))
  {
  }

  lemma CaptureOrder(s: State, b: nat)
    requires InRange(s) && Enabled(s, Capture(b)) && InOrder(s)
    ensures InOrder(CaptureStep(s, b))
  {
  }

  lemma CaptureKeepsInv(s: State, b: nat)
    requires Inv(s) && Enabled(s, Capture(b))
    ensures Inv(CaptureStep(s, b))
  {
    CaptureHeads(s, b);
    CaptureSemaphores(s, b);
    CaptureLengths(s, b);
    CaptureMemory(s, b);
    CaptureThreads(s, b);
    CaptureOrder(s, b);
  }

  /** The post-processor reads the next frame, whose ring slot is still intact. */
  lemma ProcessReadsNext(s: State)
    requires Inv(s)
    ensures s.process == PRead ==> s.processed < |s.frames| && s.ring[s.inHead] == s.frames[s.processed]
  {
  }

  /** Writing output k overwrites the slot of output k-m only. */
  lemma OutputKeepsSlots(slots: seq<nat>, done: seq<nat>, m: nat, i: nat)
    requires RingHolds(slots, done, |done|, m)
    ensures RingHolds(slots[Slot(|done|, m) := i], done + [i], |done| + 1, m)
  {
    assert RingHolds(slots, done + [i], |done|, m);
    StoreKeepsRing(slots, done + [i], |done|, m);
  }

  lemma ProcessMemory(s: State)
    requires InRange(s) && Lengths(s) && Memory(s) && Threads(s) && InOrder(s) && Enabled(s, Process)
    ensures Memory(ProcessStep(s))
  {
    match s.process
    case PProcess(i, o) => OutputKeepsSlots(s.slots, s.done, s.m, i);
    case PQueue(i) => RequeueKeepsOwned(s.driver, s.frames, |s.requeued|, s.n);
    case _ =>
  }

  lemma ProcessThreads(s: State)
    requires InRange(s) && Heads(s) && Threads(s) && Enabled(s, Process)
    requires s.process == PRead ==> s.processed < |s.frames| && s.ring[s.inHead] == s.frames[s.processed]
    ensures Threads(ProcessStep(s))
  {
  }

  lemma ProcessOrder(s: State)
    requires InRange(s) && Lengths(s) && Threads(s) && InOrder(s) && Enabled(s, Process)
    ensures InOrder(ProcessStep(s))
  {
    match s.process
    case PProcess(i, o) => assert s.done + [s.frames[|s.done|]] <= s.frames;
    case PQueue(i) => assert s.requeued + [s.done[|s.requeued|]] <= s.done;
    case _ =>
  }

  lemma ProcessKeepsInv(s: State)
    requires Inv(s) && Enabled(s, Process)
    ensures Inv(ProcessStep(s))
  {
    ProcessHeads(s);
    ProcessSemaphores(s);
    ProcessLengths(s);
    ProcessMemory(s);
    ProcessReadsNext(s);
    ProcessThreads(s);
    ProcessOrder(s);
  }

  /** What the show and encode threads read from their slots is the next processed frame. */
  lemma ReadsNextOutput(s: State)
    requires Inv(s)
    ensures s.show.SOverlay? ==> |s.shown| < |s.done| && s.slots[s.show.display] == s.done[|s.shown|]
    ensures s.encode.ECopy? ==> |s.encoded| < |s.done| && s.slots[s.encode.index] == s.done[|s.encoded|]
  {
  }

  lemma ShowMemory(s: State)
    requires InRange(s) && Memory(s) && Enabled(s, Show)
    ensures Memory(ShowStep(s))
  {
  }

  lemma ShowRange(s: State)
    requires InRange(s) && Heads(s) && Enabled(s, Show)
    ensures InRange(ShowStep(s))
  {
  }

  lemma ShowThreads(s: State)
    requires InRange(s) && Heads(s) && Threads(s) && Enabled(s, Show)
    ensures Threads(ShowStep(s))
  {
  }

  lemma ShowOrder(s: State)
    requires InRange(s) && InOrder(s) && Enabled(s, Show)
    requires s.show.SOverlay? ==> |s.shown| < |s.done| && s.slots[s.show.display] == s.done[|s.shown|]
    ensures InOrder(ShowStep(s))
  {
    if s.show.SOverlay? { assert s.shown + [s.done[|s.shown|]] <= s.done; }
  }

  lemma ShowKeepsInv(s: State)
    requires Inv(s) && Enabled(s, Show)
    ensures Inv(ShowStep(s))
  {
    ShowHeads(s);
    ShowSemaphores(s);
    ShowLengths(s);
    ShowMemory(s);
    ShowRange(s);
    ReadsNextOutput(s);
    ShowThreads(s);
    ShowOrder(s);
  }

  lemma EncodeMemory(s: State)
    requires InRange(s) && Memory(s) && Enabled(s, Encode)
    ensures Memory(EncodeStep(s))
  {
  }

  lemma EncodeRange(s: State)
    requires InRange(s) && Heads(s) && Enabled(s, Encode)
    ensures InRange(EncodeStep(s))
  {
  }

  lemma EncodeThreads(s: State)
    requires InRange(s) && Heads(s) && Threads(s) && Enabled(s, Encode)
    ensures Threads(EncodeStep(s))
  {
  }

  lemma EncodeOrder(s: State)
    requires InRange(s) && InOrder(s) && Enabled(s, Encode)
    requires s.encode.ECopy? ==> |s.encoded| < |s.done| && s.slots[s.encode.index] == s.done[|s.encoded|]
    ensures InOrder(EncodeStep(s))
  {
    if s.encode.ECopy? { assert s.encoded + [s.done[|s.encoded|]] <= s.done; }
  }

  lemma EncodeKeepsInv(s: State)
    requires Inv(s) && Enabled(s, Encode)
    ensures Inv(EncodeStep(s))
  {
    EncodeHeads(s);
    EncodeSemaphores(s);
    EncodeLengths(s);
    EncodeMemory(s);
    EncodeRange(s);
    ReadsNextOutput(s);
    EncodeThreads(s);
    EncodeOrder(s);
  }

  lemma StepKeepsInv(s: State, e: Step)
    requires Inv(s) && Enabled(s, e)
    ensures Inv(Next(s, e))
  {
    match e
    case Capture(b) => CaptureKeepsInv(s, b);
    case Process => ProcessKeepsInv(s);
    case Show => ShowKeepsInv(s);
    case Encode => EncodeKeepsInv(s);
    case InstallOverlay =>
  }

  lemma StepKeepsSize(s: State, e: Step)
    requires InRange(s) && Enabled(s, e)
    ensures Next(s, e).m == s.m && Next(s, e).n == s.n
  {
  }

  // ---------- Safety ----------

  /** The frame pushed to the overlay last, once there is one. */
  function LastPushed(s: State): int {
    s.displayed - if s.show == SWaitFin || s.show == SPost then 0 else 1
  }

  /** The output the post-processor writes is not the one pushed to the overlay last, nor one
      that is still to be shown or encoded. */
  ghost predicate OutputIsSafe(s: State)
    requires s.m > 0
  {
    s.process.PProcess? ==>
      && (!s.isFirst ==> LastPushed(s) >= 0 && s.process.output != Slot(LastPushed(s), s.m))
      && (forall k :: s.finished <= k < s.processed ==> s.process.output != Slot(k, s.m))
      && (forall k :: |s.shown| <= k < s.processed ==> s.process.output != Slot(k, s.m))
  }

  /** A capture buffer goes back to the device after it was processed, and is not there yet. */
  ghost predicate RequeueIsSafe(s: State) {
    s.process.PQueue? ==>
      var r := |s.requeued|;
      r < |s.done| && s.process.input == s.done[r] && s.process.input !in s.driver
  }

  /** A capture buffer is with the post-processor, and its ring slot intact, until processed. */
  ghost predicate InputIsSafe(s: State) {
    && (s.process.PProcess? ==>
          |s.done| < |s.frames| && s.process.input == s.frames[|s.done|] && s.process.input !in s.driver)
    && (s.capture.CStore? && s.captured >= s.n ==> s.captured - s.n < |s.done|)
  }

  ghost predicate Conserved(s: State) {
    && s.dequeueSem + (Rounds(s.captured, s.capture != CWait) - s.processed) == s.n
    && s.outSem + (OutWaits(s.process, s.processed) - s.displayed) + Held(s.isFirst) == s.m
  }

  ghost predicate Safe(s: State) {
    && s.m > 0 && OutputIsSafe(s) && RequeueIsSafe(s) && InputIsSafe(s) && Conserved(s) && InOrder(s)
    && (s.capture == CDequeue ==> s.driver != {})
  }

  lemma OutputsAreSafe(s: State)
    requires Inv(s)
    ensures OutputIsSafe(s)
  {
    if s.process.PProcess? {
      var k := s.processed;
      forall j: nat | k < j + s.m && j < k
        ensures s.process.output != Slot(j, s.m)
      {
        Apart(j, k, s.m);
      }
    }
  }

  lemma InvIsSafe(s: State)
    requires Inv(s)
    ensures Safe(s)
  {
    OutputsAreSafe(s);
  }

  // ---------- Progress ----------

  ghost predicate CanRun(s: State) {
    (exists b :: Enabled(s, Capture(b))) || Enabled(s, Process) || Enabled(s, Show) || Enabled(s, Encode)
  }

  /** The threads are stuck in one case only: a single output buffer, held by the overlay, with
      every capture buffer waiting to be processed. */
  lemma StuckExactly(s: State)
    requires Inv(s)
    ensures !CanRun(s) <==>
            && s.m == 1 && !s.isFirst
            && s.capture == CWait && s.process == PWaitOut && s.show == SWait && s.encode == EWait
            && s.captured == s.processed + s.n && s.processed == s.displayed && s.processed == s.finished
  {
    InvIsSafe(s);
    if s.capture == CDequeue {
      var b :| b in s.driver;
      assert Enabled(s, Capture(b));
    } else if s.capture != CWait || s.dequeueSem > 0 {
      assert Enabled(s, Capture(0));
    }
  }

  // ---------- Runs ----------

  ghost predicate LegalRun(s: State, es: seq<Step>)
    decreases |es|
  {
    es == [] || (InRange(s) && Enabled(s, es[0]) && LegalRun(Next(s, es[0]), es[1..]))
  }

  ghost function RunAll(s: State, es: seq<Step>): State
    requires LegalRun(s, es)
    decreases |es|
  {
    if es == [] then s else RunAll(Next(s, es[0]), es[1..])
  }

  lemma RunsOn(s: State, e: Step, rest: seq<Step>) returns (es: seq<Step>)
    requires InRange(s) && Enabled(s, e) && LegalRun(Next(s, e), rest)
    ensures LegalRun(s, es) && RunAll(s, es) == RunAll(Next(s, e), rest)
  {
    es := [e] + rest;
    assert es[0] == e && es[1..] == rest;
  }

  lemma {:induction false} RunKeepsInv(s: State, es: seq<Step>)
    requires Inv(s) && LegalRun(s, es)
    ensures Inv(RunAll(s, es)) && RunAll(s, es).m == s.m
    decreases |es|
  {
    if es != [] {
      StepKeepsInv(s, es[0]);
      StepKeepsSize(s, es[0]);
      RunKeepsInv(Next(s, es[0]), es[1..]);
    }
  }

  /** Every interleaving from the start, the overlay installed at any time or never: all of the
      above, and with two output buffers no deadlock. */
  lemma EveryInterleaving(s: State, es: seq<Step>)
    requires Init(s) && LegalRun(s, es)
    ensures Safe(RunAll(s, es))
    ensures s.m >= 2 || RunAll(s, es).isFirst ==> CanRun(RunAll(s, es))
  {
    InitInv(s);
    RunKeepsInv(s, es);
    InvIsSafe(RunAll(s, es));
    StuckExactly(RunAll(s, es));
  }

  // ---------- Frames keep coming ----------

  function CaptureStage(p: CapturePc): nat {
    match p
    case CWait => 0
    case CDequeue => 1
    case CStore(_) => 2
    case CAdvance => 3
    case CPostIn => 4
  }

  function ProcessStage(p: ProcessPc): nat {
    match p
    case PWaitIn => 0
    case PWaitOut => 1
    case PRead => 2
    case PAdvanceIn(_) => 3
    case PTakeOut(_) => 4
    case PAdvanceOut(_, _) => 5
    case PProcess(_, _) => 6
    case PPostShow(_) => 7
    case PPostEnc(_) => 8
    case PQueue(_) => 9
    case PPostDequeue => 10
  }

  function ShowStage(p: ShowPc): nat {
    match p
    case SWait => 0
    case STake => 1
    case SAdvance(_) => 2
    case SOverlay(_) => 3
    case SWaitFin => 4
    case SPost => 5
  }

  function EncodeStage(p: EncodePc): nat {
    match p
    case EWait => 0
    case ETake => 1
    case EAdvance(_) => 2
    case ECopy(_) => 3
    case EPost => 4
  }

  /** How far the threads have come since the start. */
  function Progress(s: State): nat {
    5 * s.captured + CaptureStage(s.capture) + 11 * s.processed + ProcessStage(s.process)
    + 6 * s.displayed + ShowStage(s.show) + 5 * s.finished + EncodeStage(s.encode)
  }

  lemma CaptureAdvances(s: State, b: nat)
    requires InRange(s) && Enabled(s, Capture(b))
    ensures Progress(CaptureStep(s, b)) > Progress(s)
  {
  }

  lemma ProcessAdvances(s: State)
    requires InRange(s) && Enabled(s, Process)
    ensures Progress(ProcessStep(s)) > Progress(s)
  {
  }

  lemma ShowAdvances(s: State)
    requires InRange(s) && Enabled(s, Show)
    ensures Progress(ShowStep(s)) > Progress(s)
  {
  }

  lemma EncodeAdvances(s: State)
    requires InRange(s) && Enabled(s, Encode)
    ensures Progress(EncodeStep(s)) > Progress(s)
  {
  }

  lemma StepAdvances(s: State, e: Step)
    requires InRange(s) && Enabled(s, e)
    ensures Progress(Next(s, e)) + (if e == InstallOverlay then 1 else 0) > Progress(s)
    ensures Next(s, e).overlay == (s.overlay || e == InstallOverlay)
  {
    match e
    case Capture(b) => CaptureAdvances(s, b);
    case Process => ProcessAdvances(s);
    case Show => ShowAdvances(s);
    case Encode => EncodeAdvances(s);
    case InstallOverlay =>
  }

  lemma AdvancesWithInv(s: State, e: Step)
    requires Inv(s) && Enabled(s, e)
    ensures var t := Next(s, e);
            && Inv(t) && Progress(t) + (if e == InstallOverlay then 1 else 0) > Progress(s)
            && t.overlay == (s.overlay || e == InstallOverlay) && t.n == s.n && t.m == s.m
  {
    StepKeepsInv(s, e);
    StepAdvances(s, e);
    StepKeepsSize(s, e);
  }

  lemma {:induction false} RunAdvances(s: State, es: seq<Step>)
    requires Inv(s) && LegalRun(s, es)
    ensures var r := RunAll(s, es);
            && Progress(s) + |es| + (if s.overlay then 1 else 0) <= Progress(r) + (if r.overlay then 1 else 0)
            && r.n == s.n && r.m == s.m
    decreases |es|
  {
    if es != [] {
      AdvancesWithInv(s, es[0]);
      RunAdvances(Next(s, es[0]), es[1..]);
    }
  }

  /** The rounds of the threads stay together. */
  lemma RoundsStayTogether(s: State)
    requires Semaphores(s)
    ensures s.processed <= s.captured <= s.processed + s.n && s.displayed - 1 <= s.processed <= s.displayed + s.m
    ensures s.finished <= s.processed + 1 && s.displayed <= s.finished + 1
    ensures Progress(s) <= 27 * s.displayed + 5 * s.n + 21 * s.m + 28
  {
  }

  /** No thread is left behind and none runs on the spot: a run of that many steps has shown so many
      frames, and captured, processed and encoded as many, but for one. */
  lemma LongRunsShowFrames(s: State, es: seq<Step>)
    requires Init(s) && LegalRun(s, es)
    ensures var r := RunAll(s, es);
            && |es| <= 27 * r.displayed + 5 * s.n + 21 * s.m + 29
            && r.displayed <= r.processed + 1 && r.processed <= r.captured && r.displayed <= r.finished + 1
  {
    InitInv(s);
    RunAdvances(s, es);
    RunKeepsInv(s, es);
    RoundsStayTogether(RunAll(s, es));
  }

  // ---------- A single output buffer ----------

  /** A single output and an overlay: the first picture, once shown, is never given back. */
  ghost predicate SingleHeld(s: State) {
    && s.m == 1 && s.overlay && s.displayed <= 1
    && (s.isFirst ==> s.displayed == 0 && s.show != SWaitFin && s.show != SPost)
  }

  lemma SingleBounded(s: State)
    requires Semaphores(s) && SingleHeld(s)
    ensures s.processed <= 1 && s.captured <= s.n + 1 && s.finished <= 1
    ensures Progress(s) <= 5 * s.n + 60
    ensures !s.isFirst ==> s.show == SWait && s.showSem == 0
  {
  }

  lemma SingleCaptures(s: State, b: nat)
    requires InRange(s) && SingleHeld(s) && Enabled(s, Capture(b))
    ensures var t := CaptureStep(s, b); SingleHeld(t) && t.n == s.n && Progress(t) > Progress(s)
  {
  }

  lemma SingleProcesses(s: State)
    requires InRange(s) && SingleHeld(s) && Enabled(s, Process)
    ensures var t := ProcessStep(s); SingleHeld(t) && t.n == s.n && Progress(t) > Progress(s)
  {
  }

  lemma SingleShows(s: State)
    requires InRange(s) && SingleHeld(s) && Enabled(s, Show) && s.isFirst
    ensures var t := ShowStep(s); SingleHeld(t) && t.n == s.n && Progress(t) > Progress(s)
  {
  }

  lemma SingleEncodes(s: State)
    requires InRange(s) && SingleHeld(s) && Enabled(s, Encode)
    ensures var t := EncodeStep(s); SingleHeld(t) && t.n == s.n && Progress(t) > Progress(s)
  {
  }

  lemma SingleStep(s: State, e: Step)
    requires Inv(s) && SingleHeld(s) && Enabled(s, e)
    ensures SingleHeld(Next(s, e)) && Next(s, e).n == s.n && Progress(Next(s, e)) > Progress(s)
  {
    SingleBounded(s);
    match e
    case Capture(b) => SingleCaptures(s, b);
    case Process => SingleProcesses(s);
    case Show => SingleShows(s);
    case Encode => SingleEncodes(s);
    case InstallOverlay =>
  }

  lemma ComesCloser(s: State, e: Step)
    requires Inv(s) && SingleHeld(s) && Enabled(s, e)
    ensures var t := Next(s, e); Inv(t) && SingleHeld(t) && t.n == s.n && Progress(s) < Progress(t) <= 5 * s.n + 60
  {
    SingleStep(s, e);
    StepKeepsInv(s, e);
    SingleBounded(Next(s, e));
  }

  /** From there every run ends, so some run ends with all threads stuck. */
  lemma {:induction false} RunToStop(s: State) returns (es: seq<Step>)
    requires Inv(s) && SingleHeld(s)
    ensures LegalRun(s, es) && !CanRun(RunAll(s, es))
    decreases 5 * s.n + 60 - Progress(s)
  {
    es := [];
    if CanRun(s) {
      var e :| Enabled(s, e) && e != InstallOverlay;
      ComesCloser(s, e);
      var rest := RunToStop(Next(s, e));
      es := RunsOn(s, e, rest);
    }
  }

  lemma StopsFromStart(s: State) returns (es: seq<Step>)
    requires Init(s) && s.m == 1
    ensures LegalRun(s, es) && !CanRun(RunAll(s, es))
  {
    var t := s.(overlay := true);
    InitInv(t);
    es := RunToStop(t);
    if !s.overlay {
      es := RunsOn(s, InstallOverlay, es);
    } else {
      assert t == s;
    }
  }

  ghost predicate NeverStuck(s: State) {
    forall es :: LegalRun(s, es) ==> CanRun(RunAll(s, es))
  }

  /** Whether the threads can ever be stuck depends on the number of output buffers alone. */
  lemma NeverStuckExactly(s: State)
    requires Init(s)
    ensures NeverStuck(s) <==> s.m >= 2
  {
    if s.m >= 2 {
      forall es | LegalRun(s, es)
        ensures CanRun(RunAll(s, es))
      {
        InitInv(s);
        RunKeepsInv(s, es);
        EveryInterleaving(s, es);
      }
    } else {
      var es := StopsFromStart(s);
      assert LegalRun(s, es) && !CanRun(RunAll(s, es));
    }
  }
}
