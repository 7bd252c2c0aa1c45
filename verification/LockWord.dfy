/** The reader/writer lock of a gralloc buffer: one 32-bit word changed by compare-and-swap,
    a write owner, a flush flag, and a mapping made on first use.  Each load, store and
    compare-and-swap of gralloc_lock and gralloc_unlock is one step of one thread; the steps
    of different threads interleave in any order. */
module LockWord {

  type Tid = t: nat | t > 0 witness 1

  // ---------- The word ----------

  const LOCK_WRITE: nat := 0x8000_0000
  const LOCK_MAPPED: nat := 0x4000_0000
  const READ_MASK: nat := 0x3FFF_FFFF

  /** lockState by its fields: bit 31, bit 30, and the 30-bit count of holders. */
  datatype LockState = LockState(write: bool, mapped: bool, count: nat)
  type Word = w: LockState | w.count <= READ_MASK witness LockState(false, false, 0)

  function Bits(w: Word): nat {
    (if w.write then LOCK_WRITE else 0) + (if w.mapped then LOCK_MAPPED else 0) + w.count
  }

  /** The word plus one in 32 bits: a full count carries into MAPPED, and that into WRITE. */
  function Plus1(w: Word): Word {
    if w.count < READ_MASK then w.(count := w.count + 1)
    else LockState(if w.mapped then !w.write else w.write, !w.mapped, 0)
  }

  function Minus1(w: Word): Word {
    if w.count > 0 then w.(count := w.count - 1)
    else LockState(if w.mapped then w.write else !w.write, !w.mapped, READ_MASK)
  }

  /** The fields determine the 32 bits and the bits the fields, and counting on the fields is
      counting on the bits. */
  lemma FieldsAreBits(w: Word, v: Word)
    ensures Bits(w) < 0x1_0000_0000 && (Bits(w) == Bits(v) ==> w == v)
    ensures Bits(Plus1(w)) == (Bits(w) + 1) % 0x1_0000_0000
    ensures Bits(Minus1(w)) == (Bits(w) + 0xFFFF_FFFF) % 0x1_0000_0000
    ensures Bits(w) % LOCK_MAPPED == w.count && (Bits(w) >= LOCK_WRITE <==> w.write)
  {
  }

  /** One more holder leaves the flags alone exactly while the count has room. */
  lemma CountHasRoom(w: Word)
    ensures w.count < READ_MASK <==> Plus1(w).write == w.write && Plus1(w).mapped == w.mapped
  {
  }

  // ---------- Threads ----------

  datatype Usage = Usage(swRead: bool, swWrite: bool, hwRender: bool) {
    predicate WantsWrite() { swWrite || hwRender }
    predicate WantsAddress() { swRead || swWrite }
  }

  datatype Pc =
    | Idle
    // gralloc_lock
    | LockLoad(usage: Usage)
    | LockCas(usage: Usage, current: Word)
    | LockOwner(usage: Usage, current: Word)
    | LockFlag(usage: Usage, current: Word)
    | LockMap(usage: Usage, current: Word)
    | MapEnter
    | MapCheck
    | MapDo
    | MapSet
    | MapLeave(err: bool)
    | LockAddress(err: bool)
    // gralloc_unlock
    | UnlockFlush
    | UnlockDoFlush
    | UnlockLoad
    | UnlockOwner(current: Word)
    | UnlockClear(current: Word)
    | UnlockCas(current: Word, next: Word)
  {
    /** Past the compare-and-swap that took the lock, and not yet past the one that drops it. */
    predicate Holding() {
      !(Idle? || LockLoad? || LockCas?)
    }

    predicate InMap() { MapCheck? || MapDo? || MapSet? || MapLeave? }

    /** In gralloc_unlock, past the flush. */
    predicate Flushed() {
      UnlockLoad? || UnlockOwner? || UnlockClear? || UnlockCas?
    }
  }

  /** The handle and its threads.  holders, writer, dirty, failed and maps only observe: who took
      the lock and has not dropped it, who took it for writing, whether a software write to pmem
      memory is not flushed yet, whether the flush for the last such write failed, and how often
      mapping succeeded. */
  datatype State = State(
    pmem: bool, framebuffer: bool,
    word: Word, writeOwner: nat, needsFlush: bool, base: nat,
    mapLock: nat, pc: map<Tid, Pc>,
    holders: multiset<Tid>, writer: nat, dirty: bool, failed: bool, maps: nat)

  /** One step of thread t.  `addr` is the address mmap returned; for mapping and for flushing, 0
      says that the kernel failed. */
  datatype Step = BeginLock(t: Tid, usage: Usage) | BeginUnlock(t: Tid) | Run(t: Tid, addr: nat)

  predicate CachedPmem(s: State, u: Usage) {
    u.swWrite && s.pmem && !s.framebuffer
  }

  function At(s: State, t: Tid, p: Pc): State { s.(pc := s.pc[t := p]) }

  ghost predicate Enabled(s: State, e: Step) {
    match e
    case BeginLock(t, _) => t in s.pc && s.pc[t] == Idle
    case BeginUnlock(t) => t in s.pc && s.pc[t] == Idle && t in s.holders
    case Run(t, _) =>
      && t in s.pc && s.pc[t] != Idle
      && (s.pc[t] == MapEnter ==> s.mapLock == 0)
      && (s.pc[t].LockCas? ==> |s.holders| < READ_MASK)
  }

  /** gralloc_unlock once it has worked out its new value: -EINVAL if nobody holds the lock. */
  function CountDownFrom(s: State, t: Tid, current: Word, next: Word): State {
    At(s, t, if next.count == 0 then Idle else UnlockCas(current, Minus1(next)))
  }

  function Next(s: State, e: Step): State
    requires Enabled(s, e)
  {
    match e
    case BeginLock(t, u) => At(s, t, LockLoad(u))
    case BeginUnlock(t) => At(s, t, UnlockFlush)
    case Run(t, addr) =>
      if Locking(s.pc[t]) then LockStep(s, t)
      else if Mapping(s.pc[t]) then MapStep(s, t, addr)
      else UnlockStep(s, t, addr)
  }

  predicate Locking(p: Pc) {
    p.LockLoad? || p.LockCas? || p.LockOwner? || p.LockFlag? || p.LockMap? || p.LockAddress?
  }

  predicate Mapping(p: Pc) { p.MapEnter? || p.InMap() }

  /** gralloc_lock but for the mapping. */
  function LockStep(s: State, t: Tid): State
    requires t in s.pc && Locking(s.pc[t])
  {
    match s.pc[t]
    case LockLoad(u) =>
      if s.word.write || (s.word.count != 0 && u.WantsWrite()) then At(s, t, Idle)
      else At(s, t, LockCas(u, s.word))
    case LockCas(u, current) =>
      if s.word != current then At(s, t, LockLoad(u))
      else
        At(s.(word := Plus1(if u.WantsWrite() then current.(write := true) else current),
              holders := s.holders + multiset{t},
              writer := if u.WantsWrite() then t else s.writer,
              dirty := s.dirty || CachedPmem(s, u),
              failed := s.failed && !CachedPmem(s, u)),
           t, LockOwner(u, current))
    case LockOwner(u, current) =>
      At(if u.WantsWrite() || current.write then s.(writeOwner := t) else s, t, LockFlag(u, current))
    case LockFlag(u, current) =>
      At(if CachedPmem(s, u) then s.(needsFlush := true) else s, t, LockMap(u, current))
    case LockMap(u, current) =>
      At(s, t, if !u.WantsAddress() then Idle else if current.mapped then LockAddress(false) else MapEnter)
    case LockAddress(err) => At(s, t, Idle)
  }

  /** The mapping, under sMapLock. */
  function MapStep(s: State, t: Tid, addr: nat): State
    requires t in s.pc && Mapping(s.pc[t])
  {
    match s.pc[t]
    case MapEnter => At(s.(mapLock := t), t, MapCheck)
    case MapCheck => At(s, t, if s.word.mapped then MapLeave(false) else MapDo)
    case MapDo =>
      // gralloc_map leaves the framebuffer alone
      var ok := s.framebuffer || addr != 0;
      At(s.(base := if s.framebuffer then s.base else addr, maps := s.maps + if ok then 1 else 0),
         t, if ok then MapSet else MapLeave(true))
    case MapSet => At(s.(word := s.word.(mapped := true)), t, MapLeave(false))
    case MapLeave(err) => At(s.(mapLock := 0), t, LockAddress(err))
  }

  /** gralloc_unlock. */
  function UnlockStep(s: State, t: Tid, addr: nat): State
    requires t in s.pc && s.pc[t] != Idle && !Locking(s.pc[t]) && !Mapping(s.pc[t])
  {
    match s.pc[t]
    case UnlockFlush => At(s, t, if s.needsFlush then UnlockDoFlush else UnlockLoad)
    case UnlockDoFlush =>
      At(s.(needsFlush := false, dirty := s.dirty && addr == 0, failed := addr == 0), t, UnlockLoad)
    case UnlockLoad => At(s, t, UnlockOwner(s.word))
    case UnlockOwner(current) =>
      if current.write && s.writeOwner == t then At(s, t, UnlockClear(current))
      else CountDownFrom(s, t, current, current)
    case UnlockClear(current) =>
      CountDownFrom(s.(writeOwner := 0), t, current, current.(write := false))
    case UnlockCas(current, next) =>
      if s.word != current then At(s, t, UnlockLoad)
      else
        At(s.(word := next, holders := s.holders - multiset{t},
              writer := if current.write && !next.write then 0 else s.writer), t, Idle)
  }

  /** What the observing fields see of gralloc_lock: a thread holds the lock once its swap succeeded,
      as the writer if it wants to write, and a software write to cached pmem memory is not flushed
      from then on. */
  lemma TakingIsObserved(s: State, t: Tid)
    requires t in s.pc && s.pc[t].LockCas? && s.word == s.pc[t].current
    ensures var s', u := LockStep(s, t), s.pc[t].usage;
            && s'.holders == s.holders + multiset{t} && s'.writer == (if u.swWrite || u.hwRender then t else s.writer)
            && (if u.swWrite && s.pmem && !s.framebuffer then s'.dirty && !s'.failed
                else s'.dirty == s.dirty && s'.failed == s.failed)
  {
  }

  /** A thread stops holding the lock when its swap succeeded. */
  lemma DroppingIsObserved(s: State, t: Tid, addr: nat)
    requires t in s.pc && s.pc[t].UnlockCas? && s.word == s.pc[t].current
    ensures var s' := UnlockStep(s, t, addr);
            && s'.holders == s.holders - multiset{t}
            && s'.writer == (if s.word.write && !s.pc[t].next.write then 0 else s.writer)
            && s'.dirty == s.dirty && s'.failed == s.failed
  {
  }

  /** Only a flush that succeeded cleans the memory. */
  lemma FlushIsObserved(s: State, t: Tid, addr: nat)
    requires t in s.pc && s.pc[t].UnlockDoFlush?
    ensures var s' := UnlockStep(s, t, addr);
            s'.dirty == (s.dirty && addr == 0) && s'.failed == (addr == 0) && s'.holders == s.holders
  {
  }

  /** Mapping succeeds unless the kernel fails, and the framebuffer needs none. */
  lemma MappingIsObserved(s: State, t: Tid, addr: nat)
    requires t in s.pc && s.pc[t].MapDo?
    ensures MapStep(s, t, addr).maps == if s.framebuffer || addr != 0 then s.maps + 1 else s.maps
  {
  }

  // ---------- The invariant ----------

  ghost predicate ThreadInv(s: State, t: Tid)
    requires t in s.pc
  {
    && (s.pc[t].Holding() ==> t in s.holders)
    && match s.pc[t]
       case LockCas(u, current) => !current.write && (u.WantsWrite() ==> current.count == 0) && Remembers(s, current)
       case LockOwner(u, current) => !current.write && (u.WantsWrite() <==> s.writer == t) && Remembers(s, current)
       case LockFlag(u, current) => (u.WantsWrite() <==> s.writer == t) && Remembers(s, current)
       case LockMap(u, current) => Remembers(s, current)
       case MapDo => !s.word.mapped
       case MapSet => !s.word.mapped
       case MapLeave(err) => !err ==> s.word.mapped
       case LockAddress(err) => !err ==> s.word.mapped
       case UnlockOwner(current) => current.count > 0 && OwnWord(s, t, current)
       case UnlockClear(current) => current.write && current.count > 0 && OwnWord(s, t, current)
       case UnlockCas(current, next) =>
         && current.count > 0 && OwnWord(s, t, current)
         && next == Minus1(current.(write := false))
       case _ => true
  }

  /** A MAPPED bit once seen stays. */
  ghost predicate Remembers(s: State, current: Word) { current.mapped ==> s.word.mapped }

  /** A word loaded by an unlocking thread shows WRITE only if the thread is the writer, and
      then it is still the word. */
  ghost predicate OwnWord(s: State, t: Tid, current: Word) {
    if current.write then s.writer == t && s.word == current else s.writer != t
  }

  ghost predicate WordInv(s: State) {
    && s.word.count == |s.holders|
    && (s.word.write <==> s.writer != 0)
    && (s.writer != 0 ==> s.holders == multiset{s.writer})
    && (forall t :: t in s.holders ==> t in s.pc)
  }

  /** Nothing is left to flush but what a flush has failed for. */
  predicate Settled(s: State) { !s.needsFlush && (s.dirty ==> s.failed) }

  /** What the write owner field, the flush flag and the unflushed data have to do with the
      writer's position in the code. */
  ghost predicate WriterInv(s: State) {
    if s.writer == 0 then s.writeOwner == 0 && Settled(s)
    else
      && s.writer in s.pc
      && var p := s.pc[s.writer];
      && s.writeOwner == (if p.LockOwner? || p.UnlockCas? then 0 else s.writer)
      && (p.Flushed() ==> Settled(s))
      && (s.dirty && !s.failed ==> s.needsFlush || ((p.LockOwner? || p.LockFlag?) && CachedPmem(s, p.usage)))
  }

  ghost predicate MapInv(s: State) {
    && (s.mapLock != 0 ==> s.mapLock in s.pc && s.pc[s.mapLock].InMap())
    && (forall t :: t in s.pc && s.pc[t].InMap() ==> s.mapLock == t)
    && var set_ := s.mapLock != 0 && s.mapLock in s.pc && s.pc[s.mapLock].MapSet?;
    && s.maps == (if s.word.mapped || set_ then 1 else 0)
    && (s.word.mapped || set_ || s.framebuffer ==> s.base != 0)
  }

  ghost predicate Inv(s: State) {
    WordInv(s) && WriterInv(s) && MapInv(s) && forall t :: t in s.pc ==> ThreadInv(s, t)
  }

  /** A handle as it is registered (nothing set) or created already mapped. */
  ghost predicate Init(s: State) {
    && (Bits(s.word) == 0 || Bits(s.word) == LOCK_MAPPED) && s.writeOwner == 0 && !s.needsFlush
    && (s.word.mapped || s.framebuffer ==> s.base != 0)
    && s.mapLock == 0 && (forall t :: t in s.pc ==> s.pc[t] == Idle)
    && s.holders == multiset{} && s.writer == 0 && !s.dirty && !s.failed
    && s.maps == if s.word.mapped then 1 else 0
  }

  lemma InitInv(s: State)
    requires Init(s)
    ensures Inv(s)
  {
  }

  /** What a step of t may do to the state as the other threads see it. */
  ghost predicate Interferes(s: State, s': State, t: Tid) {
    && s'.pc.Keys == s.pc.Keys && (forall u :: u in s.pc && u != t ==> s'.pc[u] == s.pc[u])
    && (forall u :: u != t && u in s.holders ==> u in s'.holders)
    && (s.word.mapped ==> s'.word.mapped)
    && (s'.word.mapped && !s.word.mapped ==> s.mapLock == t)
    && (s.writer != 0 && s.writer != t ==> s'.word == s.word)
    && (s'.writer == s.writer || s'.writer == 0 || s'.writer == t)
    && (s.writer != 0 && s.writer != t ==> s'.writer == s.writer)
  }

  lemma OthersKeepInv(s: State, s': State, t: Tid)
    requires Inv(s) && t in s.pc && Interferes(s, s', t)
    ensures forall u :: u in s'.pc && u != t ==> ThreadInv(s', u)
  {
    forall u | u in s'.pc && u != t
      ensures ThreadInv(s', u)
    {
      assert ThreadInv(s, u);
    }
  }

  lemma InvFrom(s: State, s': State, t: Tid)
    requires Inv(s) && t in s.pc && Interferes(s, s', t)
    requires ThreadInv(s', t) && WordInv(s') && WriterInv(s') && MapInv(s')
    ensures Inv(s')
  {
    OthersKeepInv(s, s', t);
  }

  /** A step that only moves t on, within or outside the mapping section as before. */
  lemma MoveKeepsInv(s: State, t: Tid, p: Pc)
    requires Inv(s) && t in s.pc && s.pc[t].InMap() == p.InMap() && s.pc[t].MapSet? == p.MapSet?
    requires ThreadInv(At(s, t, p), t) && WriterInv(At(s, t, p))
    ensures Inv(At(s, t, p))
  {
    var s' := At(s, t, p);
    assert Interferes(s, s', t);
    assert MapInv(s');
    InvFrom(s, s', t);
  }

  lemma TakingKeepsWord(s: State, t: Tid, addr: nat)
    requires Inv(s) && Enabled(s, Run(t, addr)) && s.pc[t].LockCas? && s.word == s.pc[t].current
    ensures WordInv(Next(s, Run(t, addr))) && Interferes(s, Next(s, Run(t, addr)), t)
  {
    assert ThreadInv(s, t);
  }

  lemma TakingKeepsInv(s: State, t: Tid, addr: nat)
    requires Inv(s) && Enabled(s, Run(t, addr)) && s.pc[t].LockCas? && s.word == s.pc[t].current
    ensures Inv(Next(s, Run(t, addr)))
  {
    var s' := Next(s, Run(t, addr));
    assert ThreadInv(s, t);
    TakingKeepsWord(s, t, addr);
    InvFrom(s, s', t);
  }

  lemma DroppingKeepsWord(s: State, t: Tid, addr: nat)
    requires Inv(s) && Enabled(s, Run(t, addr)) && s.pc[t].UnlockCas? && s.word == s.pc[t].current
    ensures WordInv(Next(s, Run(t, addr))) && Interferes(s, Next(s, Run(t, addr)), t)
  {
    assert ThreadInv(s, t);
  }

  lemma DroppingKeepsWriter(s: State, t: Tid, addr: nat)
    requires t in s.pc && ThreadInv(s, t) && WordInv(s) && WriterInv(s)
    requires s.pc[t].UnlockCas? && s.word == s.pc[t].current
    ensures WriterInv(UnlockStep(s, t, addr))
  {
  }

  lemma DroppingKeepsMap(s: State, t: Tid, addr: nat)
    requires t in s.pc && ThreadInv(s, t) && MapInv(s)
    requires s.pc[t].UnlockCas? && s.word == s.pc[t].current
    ensures MapInv(UnlockStep(s, t, addr))
  {
  }

  lemma DroppingKeepsInv(s: State, t: Tid, addr: nat)
    requires Inv(s) && Enabled(s, Run(t, addr)) && s.pc[t].UnlockCas? && s.word == s.pc[t].current
    ensures Inv(Next(s, Run(t, addr)))
  {
    var s' := Next(s, Run(t, addr));
    assert ThreadInv(s, t);
    DroppingKeepsWord(s, t, addr);
    DroppingKeepsWriter(s, t, addr);
    DroppingKeepsMap(s, t, addr);
    InvFrom(s, s', t);
  }

  /** A step that leaves the word, its holders and its writer alone. */
  lemma QuietStep(s: State, s': State, t: Tid, p: Pc)
    requires WordInv(s) && t in s.pc && s'.pc == s.pc[t := p]
    requires s'.word == s.word && s'.holders == s.holders && s'.writer == s.writer
    ensures WordInv(s') && Interferes(s, s', t)
  {
  }

  /** A step outside the mapping section. */
  lemma UnmappedStep(s: State, s': State, t: Tid, p: Pc)
    requires MapInv(s) && t in s.pc && s'.pc == s.pc[t := p] && !s.pc[t].InMap() && !p.InMap()
    requires s'.word == s.word && s'.mapLock == s.mapLock && s'.maps == s.maps
    requires s'.base == s.base && s'.framebuffer == s.framebuffer
    ensures MapInv(s')
  {
  }

  lemma LockOwnerKeepsInv(s: State, t: Tid, addr: nat)
    requires Inv(s) && Enabled(s, Run(t, addr))
    requires s.pc[t].LockOwner?
    ensures Inv(Next(s, Run(t, addr)))
  {
    var s' := Next(s, Run(t, addr));
    assert ThreadInv(s, t);
    QuietStep(s, s', t, s'.pc[t]);
    UnmappedStep(s, s', t, s'.pc[t]);
    InvFrom(s, s', t);
  }

  lemma LockFlagKeepsInv(s: State, t: Tid, addr: nat)
    requires Inv(s) && Enabled(s, Run(t, addr))
    requires s.pc[t].LockFlag?
    ensures Inv(Next(s, Run(t, addr)))
  {
    var s' := Next(s, Run(t, addr));
    assert ThreadInv(s, t);
    QuietStep(s, s', t, s'.pc[t]);
    UnmappedStep(s, s', t, s'.pc[t]);
    InvFrom(s, s', t);
  }

  lemma UnlockDoFlushKeepsInv(s: State, t: Tid, addr: nat)
    requires Inv(s) && Enabled(s, Run(t, addr))
    requires s.pc[t].UnlockDoFlush?
    ensures Inv(Next(s, Run(t, addr)))
  {
    var s' := Next(s, Run(t, addr));
    assert ThreadInv(s, t);
    QuietStep(s, s', t, s'.pc[t]);
    UnmappedStep(s, s', t, s'.pc[t]);
    InvFrom(s, s', t);
  }

  lemma UnlockClearKeepsInv(s: State, t: Tid, addr: nat)
    requires Inv(s) && Enabled(s, Run(t, addr))
    requires s.pc[t].UnlockClear?
    ensures Inv(Next(s, Run(t, addr)))
  {
    var s' := Next(s, Run(t, addr));
    assert ThreadInv(s, t);
    QuietStep(s, s', t, s'.pc[t]);
    UnmappedStep(s, s', t, s'.pc[t]);
    InvFrom(s, s', t);
  }

  lemma MapLockKeepsInv(s: State, t: Tid, addr: nat)
    requires Inv(s) && Enabled(s, Run(t, addr)) && (s.pc[t].MapEnter? || s.pc[t].MapLeave?)
    ensures Inv(Next(s, Run(t, addr)))
  {
    var s' := Next(s, Run(t, addr));
    assert ThreadInv(s, t);
    InvFrom(s, s', t);
  }

  lemma MapDoKeepsMap(s: State, t: Tid, addr: nat)
    requires Inv(s) && Enabled(s, Run(t, addr)) && s.pc[t].MapDo?
    ensures MapInv(Next(s, Run(t, addr)))
  {
    assert ThreadInv(s, t);
  }

  lemma MapDoKeepsWriter(s: State, t: Tid, addr: nat)
    requires WriterInv(s) && Enabled(s, Run(t, addr)) && s.pc[t].MapDo?
    ensures WriterInv(Next(s, Run(t, addr)))
  {
  }

  lemma MapDoKeepsInv(s: State, t: Tid, addr: nat)
    requires Inv(s) && Enabled(s, Run(t, addr)) && s.pc[t].MapDo?
    ensures Inv(Next(s, Run(t, addr)))
  {
    var s' := Next(s, Run(t, addr));
    assert ThreadInv(s, t);
    assert s'.pc[t] == if addr == 0 && !s.framebuffer then MapLeave(true) else MapSet;
    QuietStep(s, s', t, s'.pc[t]);
    MapDoKeepsMap(s, t, addr);
    MapDoKeepsWriter(s, t, addr);
    InvFrom(s, s', t);
  }

  lemma MapSetKeepsInv(s: State, t: Tid, addr: nat)
    requires Inv(s) && Enabled(s, Run(t, addr)) && s.pc[t].MapSet?
    ensures Inv(Next(s, Run(t, addr)))
  {
    var s' := Next(s, Run(t, addr));
    assert ThreadInv(s, t);
    InvFrom(s, s', t);
  }

  lemma LoadMoveKeepsInv(s: State, t: Tid, addr: nat)
    requires Inv(s) && Enabled(s, Run(t, addr))
    requires s.pc[t].LockLoad? || (s.pc[t].LockCas? && s.word != s.pc[t].current)
    ensures Inv(Next(s, Run(t, addr)))
  {
    var u := s.pc[t].usage;
    if s.pc[t].LockCas? {
      MoveKeepsInv(s, t, LockLoad(u));
    } else if s.word.write || (s.word.count != 0 && u.WantsWrite()) {
      MoveKeepsInv(s, t, Idle);
    } else {
      MoveKeepsInv(s, t, LockCas(u, s.word));
    }
  }

  lemma MapMoveKeepsInv(s: State, t: Tid, addr: nat)
    requires Inv(s) && Enabled(s, Run(t, addr)) && (s.pc[t].LockMap? || s.pc[t].LockAddress? || s.pc[t].MapCheck?)
    ensures Inv(Next(s, Run(t, addr)))
  {
    assert ThreadInv(s, t);
    MoveKeepsInv(s, t, Next(s, Run(t, addr)).pc[t]);
  }

  lemma UnlockMoveKeepsInv(s: State, t: Tid, addr: nat)
    requires Inv(s) && Enabled(s, Run(t, addr))
    requires s.pc[t].UnlockFlush? || s.pc[t].UnlockLoad? || s.pc[t].UnlockOwner? ||
             (s.pc[t].UnlockCas? && s.word != s.pc[t].current)
    ensures Inv(Next(s, Run(t, addr)))
  {
    assert ThreadInv(s, t);
    MoveKeepsInv(s, t, Next(s, Run(t, addr)).pc[t]);
  }

  lemma StepKeepsInv(s: State, e: Step)
    requires Inv(s) && Enabled(s, e)
    ensures Inv(Next(s, e))
  {
    var t := e.t;
    match e
    case BeginLock(_, u) => MoveKeepsInv(s, t, LockLoad(u));
    case BeginUnlock(_) => MoveKeepsInv(s, t, UnlockFlush);
    case Run(_, addr) =>
      match s.pc[t] {
        case LockLoad(_) => LoadMoveKeepsInv(s, t, addr);
        case LockCas(_, current) =>
          if s.word == current { TakingKeepsInv(s, t, addr); } else { LoadMoveKeepsInv(s, t, addr); }
        case LockOwner(_, _) => LockOwnerKeepsInv(s, t, addr);
        case LockFlag(_, _) => LockFlagKeepsInv(s, t, addr);
        case LockMap(_, _) => MapMoveKeepsInv(s, t, addr);
        case MapEnter => MapLockKeepsInv(s, t, addr);
        case MapLeave(_) => MapLockKeepsInv(s, t, addr);
        case LockAddress(_) => MapMoveKeepsInv(s, t, addr);
        case UnlockDoFlush => UnlockDoFlushKeepsInv(s, t, addr);
        case UnlockClear(_) => UnlockClearKeepsInv(s, t, addr);
        case UnlockCas(current, _) =>
          if s.word == current { DroppingKeepsInv(s, t, addr); } else { UnlockMoveKeepsInv(s, t, addr); }
        case UnlockFlush => UnlockMoveKeepsInv(s, t, addr);
        case UnlockLoad => UnlockMoveKeepsInv(s, t, addr);
        case UnlockOwner(_) => UnlockMoveKeepsInv(s, t, addr);
        case MapCheck => MapMoveKeepsInv(s, t, addr);
        case MapDo => MapDoKeepsInv(s, t, addr);
        case MapSet => MapSetKeepsInv(s, t, addr);
        case Idle =>
      }
  }

  // ---------- What the invariant means ----------

  /** The count is the number of holders; WRITE means exactly one; nobody shares with a writer. */
  lemma Exclusion(s: State)
    requires Inv(s)
    ensures s.word.count == |s.holders|
    ensures s.word.write ==> |s.holders| == 1 && s.writer in s.holders
    ensures forall t, u :: t in s.pc && u in s.pc && t != u && s.pc[t].Holding() && s.pc[u].Holding() ==> s.writer == 0
  {
    forall t, u | t in s.pc && u in s.pc && t != u && s.pc[t].Holding() && s.pc[u].Holding()
      ensures s.writer == 0
    {
      assert ThreadInv(s, t) && ThreadInv(s, u);
    }
  }

  /** -EBUSY is returned exactly when the lock is held in a way that excludes the request, and
      changes nothing but the caller's own position. */
  lemma BusyChangesNothing(s: State, t: Tid, addr: nat, u: Usage)
    requires Inv(s) && Enabled(s, Run(t, addr)) && s.pc[t] == LockLoad(u)
    ensures var s' := Next(s, Run(t, addr));
            s'.pc[t] == Idle <==> s.writer != 0 || (u.WantsWrite() && s.holders != multiset{})
    ensures var s' := Next(s, Run(t, addr));
            s'.pc[t] == Idle ==> s' == s.(pc := s.pc[t := Idle])
  {
  }

  /** The writer's unlock wins its first compare-and-swap: it is the writer that clears the owner,
      the word is still the one it loaded, and the swap releases WRITE with the owner at 0. */
  lemma WriterUnlocksFirstTime(s: State, t: Tid, addr: nat)
    requires Inv(s) && Enabled(s, Run(t, addr)) && s.pc[t].UnlockCas? && s.pc[t].current.write
    ensures s.writer == t && s.word == s.pc[t].current && s.writeOwner == 0
    ensures var s' := Next(s, Run(t, addr));
            s'.pc[t] == Idle && !s'.word.write && s'.writer == 0 && s'.holders == multiset{} && s'.word.count == 0
  {
    assert ThreadInv(s, t);
  }

  /** Between clearing the owner and that swap, no step of any other thread changes the word or
      the owner, so neither the next owner nor the WRITE bit can be lost. */
  lemma NobodyTouchesAWriteHeldWord(s: State, e: Step)
    requires Inv(s) && Enabled(s, e) && s.writer != 0 && e.t != s.writer
    ensures var s' := Next(s, e);
            && s'.word == s.word && s'.writeOwner == s.writeOwner && s'.writer == s.writer
            && s'.needsFlush == s.needsFlush && s'.base == s.base && s'.holders == s.holders
  {
    assert ThreadInv(s, e.t);
  }

  /** An unlock by a thread that holds the lock never finds the count at zero. */
  lemma UnlockNeverInvalid(s: State, t: Tid, addr: nat)
    requires Inv(s) && Enabled(s, Run(t, addr)) && (s.pc[t].UnlockOwner? || s.pc[t].UnlockClear?)
    ensures Next(s, Run(t, addr)).pc[t] != Idle
  {
    assert ThreadInv(s, t);
  }

  lemma SettledWithoutWrite(s: State)
    requires WordInv(s) && WriterInv(s) && !s.word.write
    ensures Settled(s)
  {
  }

  lemma LockKeepsWrite(s: State, t: Tid)
    requires t in s.pc && Locking(s.pc[t]) && ThreadInv(s, t) && s.word.write
    ensures LockStep(s, t).word.write
  {
  }

  lemma MapKeepsWrite(s: State, t: Tid, addr: nat)
    requires t in s.pc && Mapping(s.pc[t]) && s.word.write
    ensures MapStep(s, t, addr).word.write
  {
  }

  /** WRITE is dropped by the last step of its owner's unlock only. */
  lemma ReleaseIsUnlock(s: State, t: Tid, addr: nat)
    requires t in s.pc && s.pc[t] != Idle && !Locking(s.pc[t]) && !Mapping(s.pc[t]) && ThreadInv(s, t)
    requires WordInv(s) && WriterInv(s) && s.word.write && !UnlockStep(s, t, addr).word.write
    ensures s.writer == t && s.pc[t].UnlockCas?
  {
  }

  /** Software writes to pmem memory are flushed before WRITE is released, and while the word is
      not write-held there is nothing to flush, except what the kernel failed to flush. */
  lemma FlushedBeforeRelease(s: State, e: Step)
    requires Inv(s) && Enabled(s, e)
    ensures !s.word.write ==> Settled(s)
    ensures var t := Next(s, e);
            s.word.write && !t.word.write ==> Settled(s) && Settled(t)
  {
    StepKeepsInv(s, e);
    if !s.word.write {
      SettledWithoutWrite(s);
    } else if !Next(s, e).word.write {
      SettledWithoutWrite(Next(s, e));
      assert ThreadInv(s, e.t);
      if Locking(s.pc[e.t]) {
        LockKeepsWrite(s, e.t);
      } else if Mapping(s.pc[e.t]) {
        MapKeepsWrite(s, e.t, e.addr);
      } else {
        ReleaseIsUnlock(s, e.t, e.addr);
      }
    }
  }

  /** The buffer is mapped at most once, and an address returned without error is a mapped one. */
  lemma MappedOnce(s: State, t: Tid)
    requires Inv(s) && t in s.pc
    ensures s.maps <= 1
    ensures s.pc[t] == LockAddress(false) ==> s.base != 0
  {
    assert ThreadInv(s, t);
  }

  // ---------- Runs ----------

  ghost predicate LegalRun(s: State, es: seq<Step>)
    decreases |es|
  {
    es == [] || (Enabled(s, es[0]) && LegalRun(Next(s, es[0]), es[1..]))
  }

  ghost function RunAll(s: State, es: seq<Step>): State
    requires LegalRun(s, es)
    decreases |es|
  {
    if es == [] then s else RunAll(Next(s, es[0]), es[1..])
  }

  lemma {:induction false} RunKeepsInv(s: State, es: seq<Step>)
    requires Inv(s) && LegalRun(s, es)
    ensures Inv(RunAll(s, es))
    decreases |es|
  {
    if es != [] {
      StepKeepsInv(s, es[0]);
      RunKeepsInv(Next(s, es[0]), es[1..]);
    }
  }

  /** Under every interleaving from a fresh handle: count, exclusion, one mapping, and nothing left
      to flush without WRITE. */
  lemma EveryInterleaving(s: State, es: seq<Step>)
    requires Init(s) && LegalRun(s, es)
    ensures var r := RunAll(s, es);
            && r.word.count == |r.holders| && (r.word.write ==> |r.holders| == 1) && r.maps <= 1
            && (!r.word.write ==> Settled(r))
            && forall t, u :: t in r.pc && u in r.pc && t != u && r.pc[t].Holding() && r.pc[u].Holding() ==>
                 !r.word.write
  {
    InitInv(s);
    RunKeepsInv(s, es);
    var r := RunAll(s, es);
    Exclusion(r);
  }

  /** What one more step of a run may do, from r to t. */
  ghost predicate StepIsSafe(r: State, e: Step, t: State) {
    // WRITE is released by its owner only, with nothing left to flush
    && (r.word.write && !t.word.write ==> e.t == r.writer && Settled(r) && Settled(t))
    // another thread's step leaves a write-held word, its owner and its flush flag alone
    && (r.word.write && e.t != r.writer ==>
          t.word == r.word && t.writeOwner == r.writeOwner && t.needsFlush == r.needsFlush && t.base == r.base)
    && (e.Run? ==> UnlockIsSafe(r, t, e.t) && LockIsSafe(r, t, e.t))
  }

  /** The write owner's first compare-and-swap succeeds, and an unlock does not fail. */
  ghost predicate UnlockIsSafe(r: State, t: State, u: Tid) {
    && u in r.pc
    && (r.pc[u].UnlockCas? && r.pc[u].current.write ==>
          u in t.pc && t.pc[u] == Idle && !t.word.write && t.holders == multiset{})
    && (r.pc[u].UnlockOwner? || r.pc[u].UnlockClear? ==> u in t.pc && t.pc[u] != Idle)
  }

  /** A lock call that is refused changes nothing. */
  ghost predicate LockIsSafe(r: State, t: State, u: Tid) {
    u in r.pc && (r.pc[u].LockLoad? ==> u in t.pc && (t.pc[u] == Idle ==> t == r.(pc := r.pc[u := Idle])))
  }

  /** Every step of every run from a fresh handle. */
  lemma EveryStepOfEveryRun(s: State, es: seq<Step>, e: Step)
    requires Init(s) && LegalRun(s, es) && Enabled(RunAll(s, es), e)
    ensures StepIsSafe(RunAll(s, es), e, Next(RunAll(s, es), e))
  {
    InitInv(s);
    RunKeepsInv(s, es);
    InvStepIsSafe(RunAll(s, es), e);
  }

  lemma InvStepIsSafe(r: State, e: Step)
    requires Inv(r) && Enabled(r, e)
    ensures StepIsSafe(r, e, Next(r, e))
  {
    FlushedBeforeRelease(r, e);
    if r.writer != 0 && e.t != r.writer { NobodyTouchesAWriteHeldWord(r, e); }
    if e.Run? {
      InvUnlockIsSafe(r, e.t, e.addr);
      InvLockIsSafe(r, e.t, e.addr);
    }
  }

  lemma InvUnlockIsSafe(r: State, u: Tid, addr: nat)
    requires Inv(r) && Enabled(r, Run(u, addr))
    ensures UnlockIsSafe(r, Next(r, Run(u, addr)), u)
  {
    var p := r.pc[u];
    if p.UnlockCas? && p.current.write { WriterUnlocksFirstTime(r, u, addr); }
    if p.UnlockOwner? || p.UnlockClear? { UnlockNeverInvalid(r, u, addr); }
  }

  lemma InvLockIsSafe(r: State, u: Tid, addr: nat)
    requires Inv(r) && Enabled(r, Run(u, addr))
    ensures LockIsSafe(r, Next(r, Run(u, addr)), u)
  {
    var p := r.pc[u];
    if p.LockLoad? { BusyChangesNothing(r, u, addr, p.usage); }
  }

  // ---------- What a lock call returns ----------

  /** A thread's last lock call: what it asked for, whether its own mmap failed, and what came of
      it.  An address is stored at the end of the call, whatever the error. */
  datatype Call =
    | NoCall
    | Running(usage: Usage, mmapFailed: bool)
    | Refused
    | Returned(usage: Usage, mmapFailed: bool, err: bool, address: nat)

  /** The call after a step of its thread from p to q; addr is the step's, base the address then. */
  function Track(c: Call, p: Pc, q: Pc, framebuffer: bool, addr: nat, base: nat): Call {
    if !c.Running? then c
    else if q != Idle then Running(c.usage, c.mmapFailed || (p.MapDo? && !framebuffer && addr == 0))
    else if p.LockLoad? then Refused
    else Returned(c.usage, c.mmapFailed, p == LockAddress(true), base)
  }

  function AfterStep(c: Call, s: State, e: Step, s': State): Call {
    match e
    case BeginLock(_, u) => Running(u, false)
    case BeginUnlock(_) => c
    case Run(t, addr) =>
      if t in s.pc && t in s'.pc then Track(c, s.pc[t], s'.pc[t], s.framebuffer, addr, s.base) else c
  }

  /** Thread t's last lock call after a run that begins with c. */
  ghost function LastCall(s: State, es: seq<Step>, t: Tid, c: Call): Call
    requires LegalRun(s, es)
    decreases |es|
  {
    if es == [] then c
    else
      var s' := Next(s, es[0]);
      LastCall(s', es[1..], t, if es[0].t == t then AfterStep(c, s, es[0], s') else c)
  }

  /** Where the thread of a call may be, during it and after. */
  predicate CallInv(p: Pc, c: Call, mapped: bool, base: nat) {
    && (c.Running? ==> During(p, c.usage, c.mmapFailed))
    && ReturnedRight(c, mapped, base)
  }

  predicate During(p: Pc, u: Usage, failed: bool) {
    match p
    case LockLoad(v) => u == v && !failed
    case LockCas(v, _) => u == v && !failed
    case LockOwner(v, _) => u == v && !failed
    case LockFlag(v, _) => u == v && !failed
    case LockMap(v, _) => u == v && !failed
    case MapLeave(err) => u.WantsAddress() && err == failed
    case LockAddress(err) => u.WantsAddress() && err == failed
    case _ => (p == MapEnter || p == MapCheck || p == MapDo || p == MapSet) && u.WantsAddress() && !failed
  }

  /** A call that took the lock reports an error exactly if it tried to map the buffer and that
      failed; if it asked for an address and reports none, the buffer is mapped at the one stored. */
  predicate ReturnedRight(c: Call, mapped: bool, base: nat) {
    c.Returned? ==>
      && c.err == c.mmapFailed && (c.err ==> c.usage.WantsAddress())
      && (c.usage.WantsAddress() && !c.err ==> mapped && base != 0 && c.address == base)
  }

  /** The other threads stay where they are. */
  ghost predicate OnlyMoves(s: State, s': State, t: Tid) {
    t in s'.pc && forall u :: u in s.pc && u != t ==> u in s'.pc && s'.pc[u] == s.pc[u]
  }

  /** Once the buffer is mapped its address stays. */
  ghost predicate KeepsAddress(s: State, s': State) { s.word.mapped ==> s'.word.mapped && s'.base == s.base }

  lemma LockMovesOne(s: State, t: Tid)
    requires t in s.pc && Locking(s.pc[t])
    ensures OnlyMoves(s, LockStep(s, t), t)
  {
  }

  lemma LockKeepsAddress(s: State, t: Tid)
    requires t in s.pc && Locking(s.pc[t])
    requires s.pc[t].LockCas? && s.word == s.pc[t].current ==> s.word.count < READ_MASK
    ensures KeepsAddress(s, LockStep(s, t))
  {
  }

  lemma EntryMovesOne(s: State, t: Tid, addr: nat)
    requires t in s.pc && (s.pc[t].MapEnter? || s.pc[t].MapCheck?)
    ensures OnlyMoves(s, MapStep(s, t, addr), t)
  {
  }

  lemma MapMovesOne(s: State, t: Tid, addr: nat)
    requires t in s.pc && Mapping(s.pc[t])
    ensures OnlyMoves(s, MapStep(s, t, addr), t)
  {
    if s.pc[t].MapEnter? || s.pc[t].MapCheck? { EntryMovesOne(s, t, addr); }
  }

  lemma MapKeepsAddress(s: State, t: Tid, addr: nat)
    requires t in s.pc && Mapping(s.pc[t]) && (s.pc[t].MapDo? ==> !s.word.mapped)
    ensures KeepsAddress(s, MapStep(s, t, addr))
  {
  }

  lemma UnlockLoadMovesOne(s: State, t: Tid, addr: nat)
    requires t in s.pc && (s.pc[t].UnlockFlush? || s.pc[t].UnlockDoFlush? || s.pc[t].UnlockLoad?)
    ensures OnlyMoves(s, UnlockStep(s, t, addr), t)
  {
  }

  lemma UnlockMovesOne(s: State, t: Tid, addr: nat)
    requires t in s.pc && s.pc[t] != Idle && !Locking(s.pc[t]) && !Mapping(s.pc[t])
    ensures OnlyMoves(s, UnlockStep(s, t, addr), t)
  {
    if s.pc[t].UnlockFlush? || s.pc[t].UnlockDoFlush? || s.pc[t].UnlockLoad? { UnlockLoadMovesOne(s, t, addr); }
  }

  lemma UnlockKeepsAddress(s: State, t: Tid, addr: nat)
    requires t in s.pc && s.pc[t] != Idle && !Locking(s.pc[t]) && !Mapping(s.pc[t])
    requires s.pc[t].UnlockCas? ==> s.pc[t].next.mapped == s.pc[t].current.mapped
    ensures KeepsAddress(s, UnlockStep(s, t, addr))
  {
  }

  lemma StepLeaves(s: State, e: Step)
    requires Inv(s) && Enabled(s, e)
    ensures OnlyMoves(s, Next(s, e), e.t) && KeepsAddress(s, Next(s, e))
  {
    assert ThreadInv(s, e.t);
    if e.Run? {
      if Locking(s.pc[e.t]) {
        LockMovesOne(s, e.t);
        LockKeepsAddress(s, e.t);
      } else if Mapping(s.pc[e.t]) {
        MapMovesOne(s, e.t, e.addr);
        MapKeepsAddress(s, e.t, e.addr);
      } else {
        UnlockMovesOne(s, e.t, e.addr);
        UnlockKeepsAddress(s, e.t, e.addr);
      }
    }
  }

  /** Where a step of gralloc_lock leads. */
  lemma LockMoves(s: State, t: Tid)
    requires t in s.pc && Locking(s.pc[t])
    ensures var p, q := s.pc[t], LockStep(s, t).pc[t];
            && (p.LockLoad? ==> q == Idle || (q.LockCas? && q.usage == p.usage))
            && (p.LockCas? ==> (q.LockLoad? || q.LockOwner?) && q.usage == p.usage)
            && (p.LockOwner? ==> q.LockFlag? && q.usage == p.usage)
            && (p.LockFlag? ==> q.LockMap? && q.usage == p.usage)
  {
  }

  lemma LockEnds(s: State, t: Tid)
    requires t in s.pc && Locking(s.pc[t])
    ensures var p, q := s.pc[t], LockStep(s, t).pc[t];
            && (p.LockMap? && p.usage.WantsAddress() ==> q == MapEnter || (p.current.mapped && q == LockAddress(false)))
            && (p.LockMap? && !p.usage.WantsAddress() ==> q == Idle)
            && (p.LockAddress? ==> q == Idle)
  {
  }

  lemma MapMoves(s: State, t: Tid, addr: nat)
    requires t in s.pc && Mapping(s.pc[t])
    ensures var p, q := s.pc[t], MapStep(s, t, addr).pc[t];
            && (p.MapEnter? ==> q == MapCheck)
            && (p.MapCheck? ==> q == MapDo || q == MapLeave(false))
            && (p.MapDo? ==> q == if s.framebuffer || addr != 0 then MapSet else MapLeave(true))
            && (p.MapSet? ==> q == MapLeave(false))
            && (p.MapLeave? ==> q == LockAddress(p.err))
  {
  }

  lemma LockKeepsCall(p: Pc, q: Pc, c: Call, framebuffer: bool, addr: nat, mapped: bool, base: nat)
    requires Locking(p) && c.Running? && During(p, c.usage, c.mmapFailed)
    requires p.LockLoad? ==> q == Idle || (q.LockCas? && q.usage == p.usage)
    requires p.LockCas? ==> (q.LockLoad? || q.LockOwner?) && q.usage == p.usage
    requires p.LockOwner? ==> q.LockFlag? && q.usage == p.usage
    requires p.LockFlag? ==> q.LockMap? && q.usage == p.usage
    requires p.LockMap? && p.usage.WantsAddress() ==> q == MapEnter || (p.current.mapped && q == LockAddress(false))
    requires p.LockMap? && !p.usage.WantsAddress() ==> q == Idle
    requires p.LockAddress? ==> q == Idle && (!p.err ==> mapped)
    requires mapped ==> base != 0
    ensures CallInv(q, Track(c, p, q, framebuffer, addr, base), mapped, base)
  {
  }

  lemma MapKeepsCall(p: Pc, q: Pc, c: Call, framebuffer: bool, addr: nat, base: nat, mapped': bool, base': nat)
    requires Mapping(p) && c.Running? && During(p, c.usage, c.mmapFailed)
    requires p.MapEnter? ==> q == MapCheck
    requires p.MapCheck? ==> q == MapDo || q == MapLeave(false)
    requires p.MapDo? ==> q == if framebuffer || addr != 0 then MapSet else MapLeave(true)
    requires p.MapSet? ==> q == MapLeave(false)
    requires p.MapLeave? ==> q == LockAddress(p.err)
    ensures CallInv(q, Track(c, p, q, framebuffer, addr, base), mapped', base')
  {
  }

  lemma LockingKeepsCall(s: State, t: Tid, addr: nat, c: Call)
    requires t in s.pc && Locking(s.pc[t]) && c.Running? && During(s.pc[t], c.usage, c.mmapFailed)
    requires s.pc[t] == LockAddress(false) ==> s.word.mapped
    requires s.word.mapped ==> s.base != 0
    ensures var s' := LockStep(s, t);
            && t in s'.pc
            && CallInv(s'.pc[t], Track(c, s.pc[t], s'.pc[t], s.framebuffer, addr, s.base), s.word.mapped, s.base)
  {
    LockMoves(s, t);
    LockEnds(s, t);
    LockKeepsCall(s.pc[t], LockStep(s, t).pc[t], c, s.framebuffer, addr, s.word.mapped, s.base);
  }

  lemma MappingKeepsCall(s: State, t: Tid, addr: nat, c: Call, mapped: bool, base: nat)
    requires t in s.pc && Mapping(s.pc[t]) && c.Running? && During(s.pc[t], c.usage, c.mmapFailed)
    ensures var s' := MapStep(s, t, addr);
            t in s'.pc && CallInv(s'.pc[t], Track(c, s.pc[t], s'.pc[t], s.framebuffer, addr, s.base), mapped, base)
  {
    MapMoves(s, t, addr);
    MapKeepsCall(s.pc[t], MapStep(s, t, addr).pc[t], c, s.framebuffer, addr, s.base, mapped, base);
  }

  /** CallInv of a call that goes on, or has returned, with the word and the address as they were. */
  lemma LaterCallInv(p: Pc, c: Call, mapped: bool, base: nat, mapped': bool, base': nat)
    requires CallInv(p, c, mapped, base) && (mapped ==> mapped' && base' == base)
    ensures CallInv(p, c, mapped', base')
  {
  }

  lemma RunKeepsCall(s: State, t: Tid, addr: nat, c: Call)
    requires Inv(s) && Enabled(s, Run(t, addr)) && c.Running? && During(s.pc[t], c.usage, c.mmapFailed)
    ensures var s' := Next(s, Run(t, addr));
            t in s'.pc && CallInv(s'.pc[t], AfterStep(c, s, Run(t, addr), s'), s'.word.mapped, s'.base)
  {
    var s' := Next(s, Run(t, addr));
    StepLeaves(s, Run(t, addr));
    if Locking(s.pc[t]) {
      assert ThreadInv(s, t);
      LockingKeepsCall(s, t, addr, c);
      LaterCallInv(s'.pc[t], AfterStep(c, s, Run(t, addr), s'), s.word.mapped, s.base, s'.word.mapped, s'.base);
    } else {
      MappingKeepsCall(s, t, addr, c, s'.word.mapped, s'.base);
    }
  }

  lemma StepKeepsCall(s: State, e: Step, c: Call)
    requires Inv(s) && Enabled(s, e) && CallInv(s.pc[e.t], c, s.word.mapped, s.base)
    ensures var s' := Next(s, e);
            e.t in s'.pc && CallInv(s'.pc[e.t], AfterStep(c, s, e, s'), s'.word.mapped, s'.base)
  {
    StepLeaves(s, e);
    if e.Run? && c.Running? {
      RunKeepsCall(s, e.t, e.addr, c);
    }
  }

  lemma {:induction false} CallsAreTracked(s: State, es: seq<Step>, t: Tid, c: Call)
    requires Inv(s) && LegalRun(s, es) && t in s.pc && CallInv(s.pc[t], c, s.word.mapped, s.base)
    ensures var r := RunAll(s, es);
            t in r.pc && CallInv(r.pc[t], LastCall(s, es, t, c), r.word.mapped, r.base)
    decreases |es|
  {
    if es != [] {
      StepKeepsInv(s, es[0]);
      StepLeaves(s, es[0]);
      if es[0].t == t { StepKeepsCall(s, es[0], c); }
      CallsAreTracked(Next(s, es[0]), es[1..], t, if es[0].t == t then AfterStep(c, s, es[0], Next(s, es[0])) else c);
    }
  }

  /** After every legal run from a fresh handle every call that took the lock returned what it
      should, and a thread that is idle has returned from its call. */
  lemma EveryLockReturnsRight(s: State, es: seq<Step>, t: Tid)
    requires Init(s) && LegalRun(s, es) && t in s.pc
    ensures var r, c := RunAll(s, es), LastCall(s, es, t, NoCall);
            t in r.pc && ReturnedRight(c, r.word.mapped, r.base) && (r.pc[t] == Idle ==> !c.Running?)
  {
    InitInv(s);
    CallsAreTracked(s, es, t, NoCall);
  }

  // ---------- Calls end ----------

  function PcRank(p: Pc): nat {
    match p
    case Idle => 0
    case LockLoad(_) => 12
    case LockCas(_, _) => 11
    case LockOwner(_, _) => 10
    case LockFlag(_, _) => 9
    case LockMap(_, _) => 8
    case MapEnter => 7
    case MapCheck => 6
    case MapDo => 5
    case MapSet => 4
    case MapLeave(_) => 3
    case LockAddress(_) => 2
    case UnlockFlush => 9
    case UnlockDoFlush => 8
    case UnlockLoad => 7
    case UnlockOwner(_) => 6
    case UnlockClear(_) => 5
    case UnlockCas(_, _) => 4
  }

  /** The steps a thread has before it at most, if no other interferes: a swap whose word has changed
      since it was loaded will be tried once more. */
  function StepsLeft(p: Pc, word: Word): nat {
    var stale := (p.LockCas? || p.UnlockOwner? || p.UnlockClear? || p.UnlockCas?) && p.current != word;
    PcRank(p) + if stale then 13 else 0
  }

  /** Thread t has fewer steps left in s' than in s. */
  ghost predicate GoesOn(s: State, s': State, t: Tid) {
    t in s.pc && t in s'.pc && StepsLeft(s'.pc[t], s'.word) < StepsLeft(s.pc[t], s.word)
  }

  lemma LoadGoesOn(s: State, t: Tid)
    requires t in s.pc && s.pc[t].LockLoad?
    ensures GoesOn(s, LockStep(s, t), t)
  {
  }

  lemma SwapGoesOn(s: State, t: Tid)
    requires t in s.pc && s.pc[t].LockCas?
    ensures GoesOn(s, LockStep(s, t), t)
  {
  }

  lemma LockGoesOn(s: State, t: Tid)
    requires t in s.pc && Locking(s.pc[t])
    ensures GoesOn(s, LockStep(s, t), t)
  {
    if s.pc[t].LockLoad? { LoadGoesOn(s, t); }
    if s.pc[t].LockCas? { SwapGoesOn(s, t); }
  }

  lemma EntryGoesOn(s: State, t: Tid, addr: nat)
    requires t in s.pc && (s.pc[t].MapEnter? || s.pc[t].MapCheck?)
    ensures GoesOn(s, MapStep(s, t, addr), t)
  {
  }

  lemma MmapGoesOn(s: State, t: Tid, addr: nat)
    requires t in s.pc && s.pc[t].MapDo?
    ensures GoesOn(s, MapStep(s, t, addr), t)
  {
  }

  lemma ExitGoesOn(s: State, t: Tid, addr: nat)
    requires t in s.pc && (s.pc[t].MapSet? || s.pc[t].MapLeave?)
    ensures GoesOn(s, MapStep(s, t, addr), t)
  {
  }

  lemma MapGoesOn(s: State, t: Tid, addr: nat)
    requires t in s.pc && Mapping(s.pc[t])
    ensures GoesOn(s, MapStep(s, t, addr), t)
  {
    if s.pc[t].MapEnter? || s.pc[t].MapCheck? {
      EntryGoesOn(s, t, addr);
    } else if s.pc[t].MapDo? {
      MmapGoesOn(s, t, addr);
    } else {
      ExitGoesOn(s, t, addr);
    }
  }

  lemma FlushGoesOn(s: State, t: Tid, addr: nat)
    requires t in s.pc && (s.pc[t].UnlockFlush? || s.pc[t].UnlockDoFlush? || s.pc[t].UnlockLoad?)
    ensures GoesOn(s, UnlockStep(s, t, addr), t)
  {
  }

  lemma OwnerGoesOn(s: State, t: Tid, addr: nat)
    requires t in s.pc && s.pc[t].UnlockOwner?
    ensures GoesOn(s, UnlockStep(s, t, addr), t)
  {
  }

  lemma ClearGoesOn(s: State, t: Tid, addr: nat)
    requires t in s.pc && s.pc[t].UnlockClear?
    ensures GoesOn(s, UnlockStep(s, t, addr), t)
  {
  }

  lemma DropGoesOn(s: State, t: Tid, addr: nat)
    requires t in s.pc && s.pc[t].UnlockCas?
    ensures GoesOn(s, UnlockStep(s, t, addr), t)
  {
  }

  lemma UnlockGoesOn(s: State, t: Tid, addr: nat)
    requires t in s.pc && s.pc[t] != Idle && !Locking(s.pc[t]) && !Mapping(s.pc[t])
    ensures GoesOn(s, UnlockStep(s, t, addr), t)
  {
    if s.pc[t].UnlockFlush? || s.pc[t].UnlockDoFlush? || s.pc[t].UnlockLoad? {
      FlushGoesOn(s, t, addr);
    } else if s.pc[t].UnlockCas? {
      DropGoesOn(s, t, addr);
    } else if s.pc[t].UnlockClear? {
      ClearGoesOn(s, t, addr);
    } else {
      OwnerGoesOn(s, t, addr);
    }
  }

  /** A thread that runs alone is through with its call after 24 steps at most, whatever the others
      were doing: nothing but a lost swap and the map lock ever makes it wait for them. */
  lemma {:induction false} AloneFinishes(s: State, es: seq<Step>, t: Tid)
    requires LegalRun(s, es) && t in s.pc && forall e :: e in es ==> e.Run? && e.t == t
    ensures |es| <= StepsLeft(s.pc[t], s.word) <= 24
    decreases |es|
  {
    if es != [] {
      if Locking(s.pc[t]) {
        LockGoesOn(s, t);
      } else if Mapping(s.pc[t]) {
        MapGoesOn(s, t, es[0].addr);
      } else {
        UnlockGoesOn(s, t, es[0].addr);
      }
      AloneFinishes(Next(s, es[0]), es[1..], t);
    }
  }
}
