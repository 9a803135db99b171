/** The launcher's worker lane: generations, cooperative cancellation and serialized operations.
  *
  * Threads interleave arbitrarily. Each action below is one step of one thread; a step that takes a
  * lock is enabled only while the lock is free. A worker thread carries the number of its job; any
  * other number is a thread outside the lane. */
module Workers {
  import opened Foundations

  type Tid = nat
  type Key = string

  datatype Job = Job(key: Key, generation: nat, cancelled: bool, serialized: bool)

  /** Where a thread stands. */
  datatype Pc =
    | Idle                       // outside the lane, between calls
    | Begin | Entered            // a started worker: before and after taking the serial lock
    | Operating                  // inside the job's operation
    | PublishLocked | Publishing // holding the publication lock: before the check, and committing
    | Leaving | Finalizing       // the operation is over: before and after giving up the serial lock
    | FinalLocked | Finished     // deregistering under the registry lock; gone
    | SubmitLocked(key: Key, expected: Option<nat>, serialized: bool)
    | RetirePub(closing: bool)   // invalidate or close, holding the publication lock
    | RetireBoth(remaining: set<Tid>) // and the registry lock: generation advanced, jobs left to cancel
    | RetireUnlocked             // the registry lock is released, the publication lock is not

  datatype State = State(
    generation: nat, closed: bool,
    jobs: map<Key, Tid>,         // the registry
    threads: set<Tid>,           // retained worker threads
    table: map<Tid, Job>,        // every job ever submitted
    pc: map<Tid, Pc>,
    tries: map<Tid, nat>,        // nested try_serialized frames
    lock: Option<Tid>, pub: Option<Tid>, serial: Option<Tid>)

  function PcOf(s: State, t: Tid): Pc {
    if t in s.pc then s.pc[t] else Idle
  }

  function Tries(s: State, t: Tid): nat {
    if t in s.tries then s.tries[t] else 0
  }

  /** Where a thread is between the calls it makes: in its operation, or outside the lane. */
  function Home(s: State, t: Tid): Pc {
    if t in s.table then Operating else Idle
  }

  predicate AtHome(s: State, t: Tid) {
    PcOf(s, t) == Home(s, t)
  }

  // ---------------------------------------------------------------- steps

  datatype Action =
    | Start(t: Tid) | CheckEntry(t: Tid)
    | PublishEnter(t: Tid) | PublishCheck(t: Tid) | PublishExit(t: Tid)
    | Leave(t: Tid) | ReleaseSerial(t: Tid)
    | FinalEnter(t: Tid) | FinalExit(t: Tid)
    | SubmitEnter(t: Tid, key: Key, expected: Option<nat>, serialized: bool) | SubmitDecide(t: Tid, worker: Tid)
    | RetireEnter(t: Tid, closing: bool) | RetireAdvance(t: Tid) | RetireCancel(t: Tid, job: Tid)
    | RetireUnlock(t: Tid) | RetireExit(t: Tid)
    | TryEnter(t: Tid) | TryExit(t: Tid)

  /** `submit` refuses once closed, for a stale caller, and while an uncancelled job has the key. */
  predicate Refuses(s: State, key: Key, expected: Option<nat>) {
    || s.closed
    || (expected.Some? && expected.value != s.generation)
    || (key in s.jobs && s.jobs[key] in s.table && !s.table[s.jobs[key]].cancelled)
  }

  function Move(s: State, t: Tid, pc: Pc): State {
    s.(pc := s.pc[t := pc])
  }

  /** A started worker takes the serial lock if its job is serialized. */
  predicate CanStart(s: State, t: Tid) {
    PcOf(s, t) == Begin && t in s.table && (s.table[t].serialized ==> s.serial.None?)
  }

  function DoStart(s: State, t: Tid): State
    requires CanStart(s, t)
  {
    Move(s, t, Entered).(serial := if s.table[t].serialized then Some(t) else s.serial)
  }

  /** The job checks for cancellation before its operation. */
  predicate CanCheckEntry(s: State, t: Tid) {
    PcOf(s, t) == Entered && t in s.table
  }

  function DoCheckEntry(s: State, t: Tid): State
    requires CanCheckEntry(s, t)
  {
    Move(s, t, if s.table[t].cancelled then Leaving else Operating)
  }

  /** A publication takes its lock, checks for cancellation under it, commits, and gives the lock back. */
  predicate CanPublishEnter(s: State, t: Tid) {
    PcOf(s, t) == Operating && s.pub.None?
  }

  function DoPublishEnter(s: State, t: Tid): State
    requires CanPublishEnter(s, t)
  {
    Move(s, t, PublishLocked).(pub := Some(t))
  }

  predicate CanPublishCheck(s: State, t: Tid) {
    PcOf(s, t) == PublishLocked && t in s.table
  }

  function DoPublishCheck(s: State, t: Tid): State
    requires CanPublishCheck(s, t)
  {
    var cancelled := s.table[t].cancelled;
    Move(s, t, if cancelled then Operating else Publishing).(pub := if cancelled then None else s.pub)
  }

  predicate CanPublishExit(s: State, t: Tid) {
    PcOf(s, t) == Publishing
  }

  function DoPublishExit(s: State, t: Tid): State
    requires CanPublishExit(s, t)
  {
    Move(s, t, Operating).(pub := None)
  }

  /** The operation is over: the serial lock goes back, then the job deregisters under the registry lock. */
  predicate CanLeave(s: State, t: Tid) {
    PcOf(s, t) == Operating && Tries(s, t) == 0
  }

  function DoLeave(s: State, t: Tid): State
    requires CanLeave(s, t)
  {
    Move(s, t, Leaving)
  }

  predicate CanReleaseSerial(s: State, t: Tid) {
    PcOf(s, t) == Leaving && t in s.table
  }

  function DoReleaseSerial(s: State, t: Tid): State
    requires CanReleaseSerial(s, t)
  {
    Move(s, t, Finalizing).(serial := if s.table[t].serialized then None else s.serial)
  }

  predicate CanFinalEnter(s: State, t: Tid) {
    PcOf(s, t) == Finalizing && s.lock.None?
  }

  function DoFinalEnter(s: State, t: Tid): State
    requires CanFinalEnter(s, t)
  {
    Move(s, t, FinalLocked).(lock := Some(t))
  }

  predicate CanFinalExit(s: State, t: Tid) {
    PcOf(s, t) == FinalLocked && t in s.table
  }

  function DoFinalExit(s: State, t: Tid): State
    requires CanFinalExit(s, t)
  {
    var key := s.table[t].key;
    Move(s, t, Finished).(
      lock := None,
      threads := s.threads - {t},
      jobs := if key in s.jobs && s.jobs[key] == t then s.jobs - {key} else s.jobs)
  }

  /** A submission decides under the registry lock; an accepted one registers its job and starts a worker. */
  predicate CanSubmitEnter(s: State, t: Tid, key: Key, expected: Option<nat>, serialized: bool) {
    AtHome(s, t) && s.lock.None?
  }

  function DoSubmitEnter(s: State, t: Tid, key: Key, expected: Option<nat>, serialized: bool): State
    requires CanSubmitEnter(s, t, key, expected, serialized)
  {
    Move(s, t, SubmitLocked(key, expected, serialized)).(lock := Some(t))
  }

  predicate CanSubmitDecide(s: State, t: Tid, worker: Tid) {
    PcOf(s, t).SubmitLocked? && worker !in s.table && worker !in s.pc && worker !in s.tries && worker != t
  }

  function DoSubmitDecide(s: State, t: Tid, worker: Tid): State
    requires CanSubmitDecide(s, t, worker)
  {
    var call := PcOf(s, t);
    var m := Move(s, t, Home(s, t)).(lock := None);
    if Refuses(s, call.key, call.expected) then m
    else m.(
      jobs := m.jobs[call.key := worker],
      threads := m.threads + {worker},
      table := m.table[worker := Job(call.key, s.generation, false, call.serialized)],
      pc := m.pc[worker := Begin])
  }

  /** A retirement takes both locks, advances the generation, cancels every registered job, and gives the locks back. */
  predicate CanRetireEnter(s: State, t: Tid, closing: bool) {
    AtHome(s, t) && s.pub.None?
  }

  function DoRetireEnter(s: State, t: Tid, closing: bool): State
    requires CanRetireEnter(s, t, closing)
  {
    Move(s, t, RetirePub(closing)).(pub := Some(t))
  }

  predicate CanRetireAdvance(s: State, t: Tid) {
    PcOf(s, t).RetirePub? && s.lock.None?
  }

  function DoRetireAdvance(s: State, t: Tid): State
    requires CanRetireAdvance(s, t)
  {
    Move(s, t, RetireBoth(s.jobs.Values)).(
      lock := Some(t), generation := s.generation + 1, closed := s.closed || PcOf(s, t).closing)
  }

  predicate CanRetireCancel(s: State, t: Tid, job: Tid) {
    PcOf(s, t).RetireBoth? && job in PcOf(s, t).remaining && job in s.table
  }

  function DoRetireCancel(s: State, t: Tid, job: Tid): State
    requires CanRetireCancel(s, t, job)
  {
    Move(s, t, RetireBoth(PcOf(s, t).remaining - {job})).(table := s.table[job := s.table[job].(cancelled := true)])
  }

  predicate CanRetireUnlock(s: State, t: Tid) {
    PcOf(s, t).RetireBoth? && PcOf(s, t).remaining == {}
  }

  function DoRetireUnlock(s: State, t: Tid): State
    requires CanRetireUnlock(s, t)
  {
    Move(s, t, RetireUnlocked).(lock := None)
  }

  predicate CanRetireExit(s: State, t: Tid) {
    PcOf(s, t) == RetireUnlocked
  }

  function DoRetireExit(s: State, t: Tid): State
    requires CanRetireExit(s, t)
  {
    Move(s, t, Home(s, t)).(pub := None)
  }

  /** The try operation enters the lane only if it is free or already its own. */
  predicate CanTryEnter(s: State, t: Tid) {
    AtHome(s, t) && (s.serial.None? || s.serial == Some(t))
  }

  function DoTryEnter(s: State, t: Tid): State
    requires CanTryEnter(s, t)
  {
    s.(serial := Some(t), tries := s.tries[t := Tries(s, t) + 1])
  }

  predicate CanTryExit(s: State, t: Tid) {
    AtHome(s, t) && 0 < Tries(s, t)
  }

  predicate OutsideOperation(pc: Pc) {
    pc.Begin? || pc.Finalizing? || pc.FinalLocked? || pc.Finished?
  }

  /** Inside an operation that claims the serialized lane. */
  predicate InSerial(s: State, t: Tid) {
    0 < Tries(s, t) || (t in s.table && s.table[t].serialized && !OutsideOperation(PcOf(s, t)))
  }

  function DoTryExit(s: State, t: Tid): State
    requires CanTryExit(s, t)
  {
    var m := s.(tries := s.tries[t := Tries(s, t) - 1]);
    m.(serial := if InSerial(m, t) then s.serial else None)
  }

  predicate Enabled(s: State, a: Action) {
    match a
    case Start(t) => CanStart(s, t)
    case CheckEntry(t) => CanCheckEntry(s, t)
    case PublishEnter(t) => CanPublishEnter(s, t)
    case PublishCheck(t) => CanPublishCheck(s, t)
    case PublishExit(t) => CanPublishExit(s, t)
    case Leave(t) => CanLeave(s, t)
    case ReleaseSerial(t) => CanReleaseSerial(s, t)
    case FinalEnter(t) => CanFinalEnter(s, t)
    case FinalExit(t) => CanFinalExit(s, t)
    case SubmitEnter(t, key, expected, serialized) => CanSubmitEnter(s, t, key, expected, serialized)
    case SubmitDecide(t, worker) => CanSubmitDecide(s, t, worker)
    case RetireEnter(t, closing) => CanRetireEnter(s, t, closing)
    case RetireAdvance(t) => CanRetireAdvance(s, t)
    case RetireCancel(t, job) => CanRetireCancel(s, t, job)
    case RetireUnlock(t) => CanRetireUnlock(s, t)
    case RetireExit(t) => CanRetireExit(s, t)
    case TryEnter(t) => CanTryEnter(s, t)
    case TryExit(t) => CanTryExit(s, t)
  }

  function Apply(s: State, a: Action): State
    requires Enabled(s, a)
  {
    match a
    case Start(t) => DoStart(s, t)
    case CheckEntry(t) => DoCheckEntry(s, t)
    case PublishEnter(t) => DoPublishEnter(s, t)
    case PublishCheck(t) => DoPublishCheck(s, t)
    case PublishExit(t) => DoPublishExit(s, t)
    case Leave(t) => DoLeave(s, t)
    case ReleaseSerial(t) => DoReleaseSerial(s, t)
    case FinalEnter(t) => DoFinalEnter(s, t)
    case FinalExit(t) => DoFinalExit(s, t)
    case SubmitEnter(t, key, expected, serialized) => DoSubmitEnter(s, t, key, expected, serialized)
    case SubmitDecide(t, worker) => DoSubmitDecide(s, t, worker)
    case RetireEnter(t, closing) => DoRetireEnter(s, t, closing)
    case RetireAdvance(t) => DoRetireAdvance(s, t)
    case RetireCancel(t, job) => DoRetireCancel(s, t, job)
    case RetireUnlock(t) => DoRetireUnlock(s, t)
    case RetireExit(t) => DoRetireExit(s, t)
    case TryEnter(t) => DoTryEnter(s, t)
    case TryExit(t) => DoTryExit(s, t)
  }

  function Initial(): State {
    State(0, false, map[], {}, map[], map[], map[], None, None, None)
  }

  // ---------------------------------------------------------------- the invariant

  predicate HoldsLock(pc: Pc) {
    pc.SubmitLocked? || pc.RetireBoth? || pc.FinalLocked?
  }

  predicate HoldsPub(pc: Pc) {
    pc.PublishLocked? || pc.Publishing? || pc.RetirePub? || pc.RetireBoth? || pc.RetireUnlocked?
  }

  predicate Alive(s: State, j: Tid) {
    j in s.table && PcOf(s, j) != Finished
  }

  /** A job that some retiring thread has yet to reach. */
  predicate AwaitingCancel(s: State, j: Tid) {
    s.lock.Some? && PcOf(s, s.lock.value).RetireBoth? && j in PcOf(s, s.lock.value).remaining
  }

  predicate LaneOk(s: State, t: Tid) {
    InSerial(s, t) <==> s.serial == Some(t)
  }

  /** The locks belong to the threads whose position says so, and the lane to whoever is inside. */
  predicate LocksOk(s: State, t: Tid) {
    && (HoldsLock(PcOf(s, t)) <==> s.lock == Some(t))
    && (HoldsPub(PcOf(s, t)) <==> s.pub == Some(t))
    && LaneOk(s, t)
  }

  predicate ThreadOk(s: State, t: Tid) {
    && (t in s.table ==> PcOf(s, t) != Idle)
    && (t !in s.table ==> PcOf(s, t) == Idle || PcOf(s, t).SubmitLocked? || PcOf(s, t).RetirePub? || PcOf(s, t).RetireBoth?
                          || PcOf(s, t).RetireUnlocked?)
    && (t in s.table && (OutsideOperation(PcOf(s, t)) || PcOf(s, t).Entered? || PcOf(s, t).Leaving?) ==> Tries(s, t) == 0)
    && (t in s.threads <==> Alive(s, t))
  }

  predicate Registered(s: State, j: Tid)
    requires j in s.table
  {
    s.table[j].key in s.jobs && s.jobs[s.table[j].key] == j
  }

  /** A live uncancelled job is registered, and is of the current generation of an open lane unless a
    * retiring thread is about to cancel it. A publication is running only for an uncancelled job. */
  predicate JobOk(s: State, j: Tid) {
    j in s.table ==>
      && s.table[j].generation <= s.generation
      && (Alive(s, j) && !s.table[j].cancelled ==>
            Registered(s, j) && ((s.table[j].generation == s.generation && !s.closed) || AwaitingCancel(s, j)))
      && (PcOf(s, j) == Publishing ==> !s.table[j].cancelled)
  }

  predicate KeyOk(s: State, k: Key) {
    k in s.jobs ==> Alive(s, s.jobs[k]) && s.table[s.jobs[k]].key == k
  }

  predicate CancelOk(s: State, j: Tid) {
    AwaitingCancel(s, j) ==> Alive(s, j)
  }

  predicate Ok(s: State, t: Tid) {
    LocksOk(s, t) && ThreadOk(s, t) && JobOk(s, t) && CancelOk(s, t)
  }

  /** What a step by `t` may rely on about thread `x` and key `k`. */
  predicate Around(s: State, t: Tid, x: Tid, k: Key) {
    && Ok(s, x) && Ok(s, t) && KeyOk(s, k)
    && (s.lock.Some? ==> Ok(s, s.lock.value))
    && (x in s.table ==> KeyOk(s, s.table[x].key))
    && (x in s.jobs.Values ==> Alive(s, x))
  }

  predicate Kept(s: State, x: Tid, k: Key) {
    Ok(s, x) && KeyOk(s, k)
  }

  ghost predicate Inv(s: State) {
    (forall t: Tid :: Ok(s, t)) && (forall k: Key :: KeyOk(s, k))
  }

  lemma InitialInv()
    ensures Inv(Initial())
  {}

  // Each step keeps each thread and each key in order.

  lemma StartKeepsLocks(s: State, t: Tid, x: Tid)
    requires CanStart(s, t) && LocksOk(s, x) && ThreadOk(s, x) && LocksOk(s, t) && ThreadOk(s, t)
    ensures LocksOk(DoStart(s, t), x)
  {}

  lemma StartKeepsThread(s: State, t: Tid, x: Tid)
    requires CanStart(s, t) && ThreadOk(s, x) && ThreadOk(s, t)
    ensures ThreadOk(DoStart(s, t), x)
  {}

  lemma StartKeepsJob(s: State, t: Tid, x: Tid)
    requires CanStart(s, t) && JobOk(s, x) && ThreadOk(s, t) && LocksOk(s, t) && (s.lock.Some? ==> LocksOk(s, s.lock.value))
    ensures JobOk(DoStart(s, t), x)
  {}

  lemma StartKeepsCancel(s: State, t: Tid, x: Tid)
    requires CanStart(s, t) && LocksOk(s, t) && ThreadOk(s, t) && CancelOk(s, x) && (s.lock.Some? ==> LocksOk(s, s.lock.value))
    ensures CancelOk(DoStart(s, t), x)
  {}

  lemma StartKeepsKey(s: State, t: Tid, x: Tid, k: Key)
    requires CanStart(s, t) && KeyOk(s, k) && ThreadOk(s, t)
    ensures KeyOk(DoStart(s, t), k)
  {}

  lemma StartKeeps(s: State, t: Tid, x: Tid, k: Key)
    requires CanStart(s, t) && Around(s, t, x, k)
    ensures Kept(DoStart(s, t), x, k)
  {
    StartKeepsLocks(s, t, x);
    StartKeepsThread(s, t, x);
    StartKeepsJob(s, t, x);
    StartKeepsCancel(s, t, x);
    StartKeepsKey(s, t, x, k);
  }

  lemma CheckEntryKeeps(s: State, t: Tid, x: Tid, k: Key)
    requires CanCheckEntry(s, t) && Around(s, t, x, k)
    ensures Kept(DoCheckEntry(s, t), x, k)
  {}

  lemma PublishEnterKeeps(s: State, t: Tid, x: Tid, k: Key)
    requires CanPublishEnter(s, t) && Around(s, t, x, k)
    ensures Kept(DoPublishEnter(s, t), x, k)
  {}

  lemma PublishCheckKeepsLocks(s: State, t: Tid, x: Tid)
    requires CanPublishCheck(s, t) && LocksOk(s, x) && ThreadOk(s, x) && LocksOk(s, t) && ThreadOk(s, t)
    ensures LocksOk(DoPublishCheck(s, t), x)
  {}

  lemma PublishCheckKeeps(s: State, t: Tid, x: Tid, k: Key)
    requires CanPublishCheck(s, t) && Around(s, t, x, k)
    ensures Kept(DoPublishCheck(s, t), x, k)
  {
    PublishCheckKeepsLocks(s, t, x);
  }

  lemma PublishExitKeeps(s: State, t: Tid, x: Tid, k: Key)
    requires CanPublishExit(s, t) && Around(s, t, x, k)
    ensures Kept(DoPublishExit(s, t), x, k)
  {}

  lemma LeaveKeeps(s: State, t: Tid, x: Tid, k: Key)
    requires CanLeave(s, t) && Around(s, t, x, k)
    ensures Kept(DoLeave(s, t), x, k)
  {}

  lemma ReleaseSerialKeepsLocks(s: State, t: Tid, x: Tid)
    requires CanReleaseSerial(s, t) && LocksOk(s, x) && ThreadOk(s, x) && LocksOk(s, t) && ThreadOk(s, t)
    ensures LocksOk(DoReleaseSerial(s, t), x)
  {}

  lemma ReleaseSerialKeepsThread(s: State, t: Tid, x: Tid)
    requires CanReleaseSerial(s, t) && ThreadOk(s, x) && ThreadOk(s, t)
    ensures ThreadOk(DoReleaseSerial(s, t), x)
  {}

  lemma ReleaseSerialKeepsJob(s: State, t: Tid, x: Tid)
    requires CanReleaseSerial(s, t) && JobOk(s, x) && ThreadOk(s, t) && LocksOk(s, t) && (s.lock.Some? ==> LocksOk(s, s.lock.value))
    ensures JobOk(DoReleaseSerial(s, t), x)
  {}

  lemma ReleaseSerialKeepsCancel(s: State, t: Tid, x: Tid)
    requires CanReleaseSerial(s, t) && LocksOk(s, t) && ThreadOk(s, t) && CancelOk(s, x) && (s.lock.Some? ==> LocksOk(s, s.lock.value))
    ensures CancelOk(DoReleaseSerial(s, t), x)
  {}

  lemma ReleaseSerialKeepsKey(s: State, t: Tid, x: Tid, k: Key)
    requires CanReleaseSerial(s, t) && KeyOk(s, k) && ThreadOk(s, t)
    ensures KeyOk(DoReleaseSerial(s, t), k)
  {}

  lemma ReleaseSerialKeeps(s: State, t: Tid, x: Tid, k: Key)
    requires CanReleaseSerial(s, t) && Around(s, t, x, k)
    ensures Kept(DoReleaseSerial(s, t), x, k)
  {
    ReleaseSerialKeepsLocks(s, t, x);
    ReleaseSerialKeepsThread(s, t, x);
    ReleaseSerialKeepsJob(s, t, x);
    ReleaseSerialKeepsCancel(s, t, x);
    ReleaseSerialKeepsKey(s, t, x, k);
  }

  lemma FinalEnterKeeps(s: State, t: Tid, x: Tid, k: Key)
    requires CanFinalEnter(s, t) && Around(s, t, x, k)
    ensures Kept(DoFinalEnter(s, t), x, k)
  {}

  lemma FinalExitKeeps(s: State, t: Tid, x: Tid, k: Key)
    requires CanFinalExit(s, t) && Around(s, t, x, k)
    ensures Kept(DoFinalExit(s, t), x, k)
  {}

  lemma SubmitEnterKeeps(s: State, t: Tid, key: Key, expected: Option<nat>, serialized: bool, x: Tid, k: Key)
    requires CanSubmitEnter(s, t, key, expected, serialized) && Around(s, t, x, k)
    ensures Kept(DoSubmitEnter(s, t, key, expected, serialized), x, k)
  {}

  lemma SubmitDecideKeepsLocks(s: State, t: Tid, worker: Tid, x: Tid)
    requires CanSubmitDecide(s, t, worker) && LocksOk(s, x) && ThreadOk(s, x) && LocksOk(s, t) && ThreadOk(s, t)
    ensures LocksOk(DoSubmitDecide(s, t, worker), x)
  {}

  lemma SubmitDecideKeepsThread(s: State, t: Tid, worker: Tid, x: Tid)
    requires CanSubmitDecide(s, t, worker) && ThreadOk(s, x) && ThreadOk(s, t)
    ensures ThreadOk(DoSubmitDecide(s, t, worker), x)
  {}

  lemma SubmitDecideKeepsJob(s: State, t: Tid, worker: Tid, x: Tid)
    requires CanSubmitDecide(s, t, worker) && JobOk(s, x) && ThreadOk(s, x) && LocksOk(s, t) && ThreadOk(s, t) && (x in s.table ==> KeyOk(s, s.table[x].key))
    ensures JobOk(DoSubmitDecide(s, t, worker), x)
  {}

  lemma SubmitDecideKeepsCancel(s: State, t: Tid, worker: Tid, x: Tid)
    requires CanSubmitDecide(s, t, worker) && LocksOk(s, t) && ThreadOk(s, t) && CancelOk(s, x)
    ensures CancelOk(DoSubmitDecide(s, t, worker), x)
  {}

  lemma SubmitDecideKeepsKey(s: State, t: Tid, worker: Tid, x: Tid, k: Key)
    requires CanSubmitDecide(s, t, worker) && KeyOk(s, k) && ThreadOk(s, t)
    ensures KeyOk(DoSubmitDecide(s, t, worker), k)
  {}

  lemma SubmitDecideKeeps(s: State, t: Tid, worker: Tid, x: Tid, k: Key)
    requires CanSubmitDecide(s, t, worker) && Around(s, t, x, k)
    ensures Kept(DoSubmitDecide(s, t, worker), x, k)
  {
    SubmitDecideKeepsLocks(s, t, worker, x);
    SubmitDecideKeepsThread(s, t, worker, x);
    SubmitDecideKeepsJob(s, t, worker, x);
    SubmitDecideKeepsCancel(s, t, worker, x);
    SubmitDecideKeepsKey(s, t, worker, x, k);
  }

  lemma RetireEnterKeeps(s: State, t: Tid, closing: bool, x: Tid, k: Key)
    requires CanRetireEnter(s, t, closing) && Around(s, t, x, k)
    ensures Kept(DoRetireEnter(s, t, closing), x, k)
  {}

  lemma RetireAdvanceKeeps(s: State, t: Tid, x: Tid, k: Key)
    requires CanRetireAdvance(s, t) && Around(s, t, x, k)
    ensures Kept(DoRetireAdvance(s, t), x, k)
  {}

  lemma RetireCancelKeeps(s: State, t: Tid, job: Tid, x: Tid, k: Key)
    requires CanRetireCancel(s, t, job) && Around(s, t, x, k)
    ensures Kept(DoRetireCancel(s, t, job), x, k)
  {}

  lemma RetireUnlockKeeps(s: State, t: Tid, x: Tid, k: Key)
    requires CanRetireUnlock(s, t) && Around(s, t, x, k)
    ensures Kept(DoRetireUnlock(s, t), x, k)
  {}

  lemma RetireExitKeeps(s: State, t: Tid, x: Tid, k: Key)
    requires CanRetireExit(s, t) && Around(s, t, x, k)
    ensures Kept(DoRetireExit(s, t), x, k)
  {}

  lemma TryEnterKeeps(s: State, t: Tid, x: Tid, k: Key)
    requires CanTryEnter(s, t) && Around(s, t, x, k)
    ensures Kept(DoTryEnter(s, t), x, k)
  {}

  lemma TryExitKeepsLane(s: State, t: Tid, x: Tid)
    requires CanTryExit(s, t) && LaneOk(s, x) && ThreadOk(s, x) && LaneOk(s, t) && ThreadOk(s, t)
    ensures LaneOk(DoTryExit(s, t), x)
  {}

  lemma TryExitKeeps(s: State, t: Tid, x: Tid, k: Key)
    requires CanTryExit(s, t) && Around(s, t, x, k)
    ensures Kept(DoTryExit(s, t), x, k)
  {
    TryExitKeepsLane(s, t, x);
  }

  lemma EachStepKeeps(s: State, a: Action, x: Tid, k: Key)
    requires Enabled(s, a) && Around(s, a.t, x, k)
    ensures Kept(Apply(s, a), x, k)
  {
    match a
    case Start(t) => StartKeeps(s, t, x, k);
    case CheckEntry(t) => CheckEntryKeeps(s, t, x, k);
    case PublishEnter(t) => PublishEnterKeeps(s, t, x, k);
    case PublishCheck(t) => PublishCheckKeeps(s, t, x, k);
    case PublishExit(t) => PublishExitKeeps(s, t, x, k);
    case Leave(t) => LeaveKeeps(s, t, x, k);
    case ReleaseSerial(t) => ReleaseSerialKeeps(s, t, x, k);
    case FinalEnter(t) => FinalEnterKeeps(s, t, x, k);
    case FinalExit(t) => FinalExitKeeps(s, t, x, k);
    case SubmitEnter(t, key, expected, serialized) => SubmitEnterKeeps(s, t, key, expected, serialized, x, k);
    case SubmitDecide(t, worker) => SubmitDecideKeeps(s, t, worker, x, k);
    case RetireEnter(t, closing) => RetireEnterKeeps(s, t, closing, x, k);
    case RetireAdvance(t) => RetireAdvanceKeeps(s, t, x, k);
    case RetireCancel(t, job) => RetireCancelKeeps(s, t, job, x, k);
    case RetireUnlock(t) => RetireUnlockKeeps(s, t, x, k);
    case RetireExit(t) => RetireExitKeeps(s, t, x, k);
    case TryEnter(t) => TryEnterKeeps(s, t, x, k);
    case TryExit(t) => TryExitKeeps(s, t, x, k);
  }

  lemma InvAround(s: State, t: Tid, x: Tid, k: Key)
    requires Inv(s)
    ensures Around(s, t, x, k)
  {
    if x in s.jobs.Values {
      var own :| own in s.jobs && s.jobs[own] == x;
      assert KeyOk(s, own);
    }
  }

  lemma StepKeepsInv(s: State, a: Action)
    requires Inv(s) && Enabled(s, a)
    ensures Inv(Apply(s, a))
  {
    forall x: Tid, k: Key ensures Kept(Apply(s, a), x, k) {
      InvAround(s, a.t, x, k);
      EachStepKeeps(s, a, x, k);
    }
    forall x: Tid ensures Ok(Apply(s, a), x) {
      assert Kept(Apply(s, a), x, "");
    }
    forall k: Key ensures KeyOk(Apply(s, a), k) {
      assert Kept(Apply(s, a), 0, k);
    }
  }

  // ---------------------------------------------------------------- what every reachable state satisfies

  predicate PublishingNow(s: State, j: Tid) {
    j in s.table && PcOf(s, j) == Publishing
  }

  /** A publication runs only for the registered, uncancelled job of the current, open generation. */
  lemma PublicationIsCurrent(s: State, j: Tid)
    requires Inv(s) && PublishingNow(s, j)
    ensures !s.table[j].cancelled && s.table[j].generation == s.generation && !s.closed && Registered(s, j)
  {
    assert Ok(s, j);
    if s.lock.Some? { assert Ok(s, s.lock.value); }
  }

  /** Outside a retirement in progress, a live uncancelled job is registered and current. */
  lemma LiveJobIsCurrent(s: State, j: Tid)
    requires Inv(s) && Alive(s, j) && !s.table[j].cancelled
    ensures Registered(s, j)
    ensures !AwaitingCancel(s, j) ==> s.table[j].generation == s.generation && !s.closed
  {
    assert Ok(s, j);
  }

  lemma OneUncancelledJobPerKey(s: State, i: Tid, j: Tid)
    requires Inv(s) && Alive(s, i) && Alive(s, j) && !s.table[i].cancelled && !s.table[j].cancelled
    requires s.table[i].key == s.table[j].key
    ensures i == j
  {
    assert Ok(s, i) && Ok(s, j);
  }

  lemma SerializedNeverOverlap(s: State, i: Tid, j: Tid)
    requires Inv(s) && InSerial(s, i) && InSerial(s, j)
    ensures i == j
  {
    assert Ok(s, i) && Ok(s, j);
  }

  /** Every worker thread is retained until it is gone. */
  lemma LiveWorkersAreRetained(s: State, j: Tid)
    requires Inv(s)
    ensures j in s.threads <==> Alive(s, j)
  {
    assert Ok(s, j);
  }

  lemma TouchesJobs(s: State, a: Action)
    requires Enabled(s, a) && !a.FinalExit? && !a.SubmitDecide?
    ensures Apply(s, a).jobs == s.jobs
  {}

  lemma TouchesTable(s: State, a: Action)
    requires Enabled(s, a) && !a.RetireCancel? && !a.SubmitDecide?
    ensures Apply(s, a).table == s.table
  {}

  lemma SubmissionDisplaces(s: State, t: Tid, worker: Tid, k: Key)
    requires Inv(s) && CanSubmitDecide(s, t, worker) && k in s.jobs && s.jobs[k] in s.table
    ensures var jobs := DoSubmitDecide(s, t, worker).jobs;
            k in jobs && (jobs[k] != s.jobs[k] ==> s.table[s.jobs[k]].cancelled)
  {
    assert KeyOk(s, k) && Ok(s, t);
  }

  /** An entry leaves the registry only by its own worker, and is displaced only once cancelled. */
  lemma RetiredJobKeepsItsReplacement(s: State, a: Action, k: Key)
    requires Inv(s) && Enabled(s, a) && k in s.jobs
    ensures s.jobs[k] in s.table
    ensures k !in Apply(s, a).jobs ==> a == FinalExit(s.jobs[k])
    ensures k in Apply(s, a).jobs && Apply(s, a).jobs[k] != s.jobs[k] ==> s.table[s.jobs[k]].cancelled
  {
    assert KeyOk(s, k);
    if a.SubmitDecide? {
      SubmissionDisplaces(s, a.t, a.worker, k);
    } else if !a.FinalExit? {
      TouchesJobs(s, a);
    }
  }

  ghost function Above(used: set<Tid>): (u: Tid)
    ensures forall x | x in used :: x < u
  {
    if used == {} then 0
    else
      var x :| x in used;
      var rest := Above(used - {x});
      assert forall y | y in used :: y == x || y in used - {x};
      Max(rest, x + 1)
  }

  ghost function UnusedTid(s: State, t: Tid): (u: Tid)
    ensures u !in s.table && u !in s.pc && u !in s.tries && u != t
  {
    var used := s.table.Keys + s.pc.Keys + s.tries.Keys + {t};
    var u := Above(used);
    assert u !in used;
    u
  }

  /** The call that a submitting thread has made, decided on the registry, the job table and the threads. */
  lemma SubmissionDecision(s: State, t: Tid, worker: Tid)
    requires Enabled(s, SubmitDecide(t, worker))
    ensures t in s.pc && s.pc[t].SubmitLocked?
    ensures var call, y := s.pc[t], Apply(s, SubmitDecide(t, worker));
            var stale := call.expected.Some? && call.expected.value != s.generation;
            var busy := call.key in s.jobs && s.jobs[call.key] in s.table && !s.table[s.jobs[call.key]].cancelled;
            if s.closed || stale || busy then
              y.jobs == s.jobs && y.table == s.table && y.threads == s.threads
            else
              && y.jobs == s.jobs[call.key := worker] && y.threads == s.threads + {worker}
              && y.table == s.table[worker := Job(call.key, s.generation, false, call.serialized)]
    ensures var y := Apply(s, SubmitDecide(t, worker)); y.generation == s.generation && y.closed == s.closed
  {}

  /** No stale submission of any reachable state adds a job, and a current one adds its job exactly when the lane is
    * open and no live uncancelled job has its key. */
  lemma SubmissionAccepted(s: State, t: Tid, worker: Tid)
    requires Inv(s) && Enabled(s, SubmitDecide(t, worker))
    ensures t in s.pc && s.pc[t].SubmitLocked?
    ensures var call, table := s.pc[t], Apply(s, SubmitDecide(t, worker)).table;
            && (call.expected.Some? && call.expected.value != s.generation ==> table == s.table)
            && (worker in table <==>
                  && !s.closed && (call.expected.None? || call.expected.value == s.generation)
                  && forall j | j in s.table && s.table[j].key == call.key && !s.table[j].cancelled :: PcOf(s, j) == Finished)
  {
    SubmissionDecision(s, t, worker);
    var key := s.pc[t].key;
    assert KeyOk(s, key);
    forall j | j in s.table && s.table[j].key == key && !s.table[j].cancelled && PcOf(s, j) != Finished
      ensures key in s.jobs && s.jobs[key] == j
    {
      assert Ok(s, j);
    }
  }

  /** The retirement advances the generation by one, closes the lane if it is a closing one, and goes on to cancel
    * every registered job. */
  lemma RetirementAdvances(s: State, t: Tid)
    requires Enabled(s, RetireAdvance(t))
    ensures t in s.pc && s.pc[t].RetirePub?
    ensures var y := Apply(s, RetireAdvance(t));
            && y.generation == s.generation + 1 && (y.closed <==> s.closed || s.pc[t].closing)
            && y.pc[t].RetireBoth? && forall j: Tid :: j in y.pc[t].remaining <==> exists key | key in s.jobs :: s.jobs[key] == j
  {}

  /** Each cancellation leaves one job fewer to cancel; with none left the registry lock is given up. */
  lemma RetirementProceeds(s: State, t: Tid)
    ensures forall job | Enabled(s, RetireCancel(t, job)) ::
              var y := Apply(s, RetireCancel(t, job));
              s.pc[t].RetireBoth? && job in s.pc[t].remaining && y.pc[t] == RetireBoth(s.pc[t].remaining - {job})
    ensures Enabled(s, RetireUnlock(t)) <==> t in s.pc && s.pc[t] == RetireBoth({})
    ensures Enabled(s, RetireUnlock(t)) ==> Apply(s, RetireUnlock(t)).lock == None
  {}

  lemma GenerationStands(s: State, a: Action)
    requires Enabled(s, a) && !a.RetireAdvance?
    ensures Apply(s, a).generation == s.generation && Apply(s, a).closed == s.closed
  {}

  /** A worker takes the lane if its job is serialized, and never begins the operation of a job already cancelled. */
  lemma WorkerEntry(s: State, t: Tid)
    requires t in s.table
    ensures Enabled(s, Start(t)) <==> PcOf(s, t) == Begin && (s.table[t].serialized ==> s.serial == None)
    ensures Enabled(s, Start(t)) ==> Apply(s, Start(t)).serial == if s.table[t].serialized then Some(t) else s.serial
    ensures Enabled(s, CheckEntry(t)) ==>
              var y := Apply(s, CheckEntry(t));
              (y.pc[t] == Operating <==> !s.table[t].cancelled) && (y.pc[t] == Leaving <==> s.table[t].cancelled)
    ensures Enabled(s, PublishCheck(t)) ==>
              var y := Apply(s, PublishCheck(t));
              (y.pc[t] == Publishing <==> !s.table[t].cancelled) && (y.pc[t] == Operating <==> s.table[t].cancelled)
  {}

  /** The lane belongs to the serialized job whose operation runs, and to a thread inside a try operation; a try
    * operation is entered exactly while no other thread has the lane. */
  lemma LaneIsHeld(s: State, t: Tid)
    requires Inv(s)
    ensures t in s.table && s.table[t].serialized && PcOf(s, t) in {Entered, Operating, PublishLocked, Publishing, Leaving} ==>
              s.serial == Some(t)
    ensures t in s.tries && 0 < s.tries[t] ==> s.serial == Some(t)
    ensures s.serial == Some(t) ==> (t in s.tries && 0 < s.tries[t]) || (t in s.table && s.table[t].serialized)
    ensures (t !in s.table && PcOf(s, t) == Idle) || (t in s.table && PcOf(s, t) == Operating) ==>
              (Enabled(s, TryEnter(t)) <==> s.serial == None || s.serial == Some(t))
  {
    assert Ok(s, t);
  }

  /** The internal locks never deadlock: the registry lock's holder can step, and so can the
    * publication lock's holder once the registry lock is free. */
  lemma LockHoldersCanStep(s: State, t: Tid) returns (a: Action)
    requires Inv(s) && (s.lock == Some(t) || (s.pub == Some(t) && s.lock.None?))
    ensures a.t == t && Enabled(s, a)
  {
    assert Ok(s, t);
    match PcOf(s, t)
    case SubmitLocked(_, _, _) => a := SubmitDecide(t, UnusedTid(s, t));
    case FinalLocked => a := FinalExit(t);
    case RetireBoth(remaining) =>
      if remaining == {} {
        a := RetireUnlock(t);
      } else {
        var j :| j in remaining;
        assert Ok(s, j);
        a := RetireCancel(t, j);
      }
    case PublishLocked => a := PublishCheck(t);
    case Publishing => a := PublishExit(t);
    case RetirePub(_) => a := RetireAdvance(t);
    case RetireUnlocked => a := RetireExit(t);
  }

  /** Leaving a try operation undoes entering it: the lane is where it was, and as many operations are nested. */
  lemma TryUndone(s: State, t: Tid)
    requires Inv(s) && Enabled(s, TryEnter(t))
    ensures Enabled(Apply(s, TryEnter(t)), TryExit(t))
    ensures var y := Apply(Apply(s, TryEnter(t)), TryExit(t));
            && y == s.(tries := y.tries)
            && forall x: Tid :: (if x in y.tries then y.tries[x] else 0) == if x in s.tries then s.tries[x] else 0
  {
    assert Ok(s, t);
  }

  /** A try operation can be left exactly by a thread inside one that is not in the middle of another call. */
  lemma TryExitEnabled(s: State, t: Tid)
    requires (t !in s.table && PcOf(s, t) == Idle) || (t in s.table && PcOf(s, t) == Operating)
    ensures Enabled(s, TryExit(t)) <==> t in s.tries && s.tries[t] >= 1
  {}

  // ---------------------------------------------------------------- whole runs

  predicate StepAt(states: seq<State>, actions: seq<Action>, i: nat) {
    i + 1 < |states| && i < |actions| && Enabled(states[i], actions[i]) && states[i + 1] == Apply(states[i], actions[i])
  }

  ghost predicate Run(states: seq<State>, actions: seq<Action>) {
    && |states| == |actions| + 1 && states[0] == Initial()
    && forall i: nat | i < |actions| :: StepAt(states, actions, i)
  }

  /** A run goes on with any step that its last state allows. */
  lemma RunExtends(states: seq<State>, actions: seq<Action>, a: Action)
    requires Run(states, actions) && Enabled(states[|actions|], a)
    ensures Run(states + [Apply(states[|actions|], a)], actions + [a])
  {
    var n := |actions|;
    var more, steps := states + [Apply(states[n], a)], actions + [a];
    forall i: nat | i < |steps| ensures StepAt(more, steps, i) {
      if i < n { assert StepAt(states, actions, i); }
    }
  }

  lemma {:induction false} RunInv(states: seq<State>, actions: seq<Action>, i: nat)
    requires Run(states, actions) && i < |states|
    ensures Inv(states[i])
  {
    if i == 0 {
      InitialInv();
    } else {
      RunInv(states, actions, i - 1);
      assert StepAt(states, actions, i - 1);
      StepKeepsInv(states[i - 1], actions[i - 1]);
    }
  }

  /** Generations never fall, a closed lane stays closed, and a job keeps its generation and its
    * cancellation. */
  ghost predicate Later(s: State, y: State) {
    && s.generation <= y.generation && (s.closed ==> y.closed)
    && forall j | j in s.table ::
         j in y.table && y.table[j].generation == s.table[j].generation && (s.table[j].cancelled ==> y.table[j].cancelled)
  }

  lemma JobsForward(s: State, a: Action, j: Tid)
    requires Enabled(s, a) && j in s.table
    ensures var y := Apply(s, a);
            j in y.table && y.table[j].generation == s.table[j].generation && (s.table[j].cancelled ==> y.table[j].cancelled)
  {
    if a.SubmitDecide? {
      assert Apply(s, a) == DoSubmitDecide(s, a.t, a.worker);
    } else if a.RetireCancel? {
      assert Apply(s, a) == DoRetireCancel(s, a.t, a.job);
    } else {
      TouchesTable(s, a);
    }
  }

  /** Only a retirement cancels, and only the one job its step names; only a retirement moves the generation or
    * closes the lane. */
  lemma OnlyRetirementCancels(s: State, a: Action, j: Tid)
    requires Enabled(s, a) && j in s.table
    ensures var y := Apply(s, a);
            && (j in y.table && y.table[j].cancelled != s.table[j].cancelled ==> a == RetireCancel(a.t, j))
            && (y.generation != s.generation || y.closed != s.closed ==> a.RetireAdvance?)
    ensures a == RetireCancel(a.t, j) ==> Apply(s, a).table[j] == s.table[j].(cancelled := true)
  {
    if !a.RetireAdvance? {
      GenerationStands(s, a);
    }
    if !a.RetireCancel? && !a.SubmitDecide? {
      TouchesTable(s, a);
    }
  }

  lemma StepForward(s: State, a: Action)
    requires Enabled(s, a)
    ensures Later(s, Apply(s, a))
  {
    forall j | j in s.table
      ensures j in Apply(s, a).table && Apply(s, a).table[j].generation == s.table[j].generation
      ensures s.table[j].cancelled ==> Apply(s, a).table[j].cancelled
    {
      JobsForward(s, a, j);
    }
  }

  lemma NextIsLater(states: seq<State>, actions: seq<Action>, k: nat)
    requires Run(states, actions) && k < |actions|
    ensures Later(states[k], states[k + 1])
  {
    assert StepAt(states, actions, k);
    StepForward(states[k], actions[k]);
  }

  lemma LaterStill(s: State, m: State, y: State)
    requires Later(s, m) && Later(m, y)
    ensures Later(s, y)
  {
    forall j | j in s.table
      ensures j in y.table && y.table[j].generation == s.table[j].generation && (s.table[j].cancelled ==> y.table[j].cancelled)
    {
      assert j in m.table;
    }
  }

  lemma {:induction false} RunForward(states: seq<State>, actions: seq<Action>, i: nat, k: nat)
    requires Run(states, actions) && i <= k < |states|
    ensures Later(states[i], states[k])
  {
    if i < k {
      RunForward(states, actions, i, k - 1);
      NextIsLater(states, actions, k - 1);
      var s, m, y := states[i], states[k - 1], states[k];
      LaterStill(s, m, y);
    }
  }

  function Retirements(actions: seq<Action>): nat {
    if actions == [] then 0
    else Retirements(actions[..|actions| - 1]) + if actions[|actions| - 1].RetireAdvance? then 1 else 0
  }

  /** The generation is the number of retirements so far. */
  lemma {:induction false} GenerationCountsRetirements(states: seq<State>, actions: seq<Action>, i: nat)
    requires Run(states, actions) && i < |states|
    ensures states[i].generation == Retirements(actions[..i])
  {
    if 0 < i {
      GenerationCountsRetirements(states, actions, i - 1);
      assert StepAt(states, actions, i - 1);
      var s, a := states[i - 1], actions[i - 1];
      assert actions[..i][..i - 1] == actions[..i - 1];
      if a.RetireAdvance? {
        RetirementAdvances(s, a.t);
      } else {
        GenerationStands(s, a);
      }
    }
  }

  /** Once a retirement has advanced the generation, no job submitted before it ever publishes again:
    * none is publishing when the retirement returns or at any later moment. */
  lemma RetirementIsFinal(states: seq<State>, actions: seq<Action>, i: nat, k: nat, j: Tid)
    requires Run(states, actions) && i < |actions| && actions[i].RetireAdvance? && i < k < |states|
    requires j in states[i].table
    ensures !PublishingNow(states[k], j)
  {
    RunInv(states, actions, i);
    assert Ok(states[i], j);
    assert StepAt(states, actions, i);
    RunForward(states, actions, i + 1, k);
    RunInv(states, actions, k);
    if PublishingNow(states[k], j) {
      PublicationIsCurrent(states[k], j);
    }
  }

  lemma NoSubmissionWhenClosed(s: State, a: Action)
    requires Enabled(s, a) && s.closed
    ensures Apply(s, a).table.Keys == s.table.Keys
  {}

  /** After `close` has taken hold nothing is published at all and nothing is submitted. */
  lemma ClosedIsSilent(states: seq<State>, actions: seq<Action>, i: nat, k: nat)
    requires Run(states, actions) && i <= k < |states| && states[i].closed
    ensures forall j: Tid :: !PublishingNow(states[k], j)
    ensures k + 1 < |states| ==> states[k + 1].table.Keys == states[k].table.Keys
  {
    RunForward(states, actions, i, k);
    RunInv(states, actions, k);
    forall j: Tid ensures !PublishingNow(states[k], j) {
      if PublishingNow(states[k], j) { PublicationIsCurrent(states[k], j); }
    }
    if k + 1 < |states| {
      assert StepAt(states, actions, k);
      NoSubmissionWhenClosed(states[k], actions[k]);
    }
  }
}
