/**
 * The reader/writer lock of lib/rdwr.c as a step machine: any number of threads, one step per source
 * statement, a mutex, and a condition variable with spurious wake-ups.
 */
module RwLock {
  import opened Basics

  type Tid = nat

  /** Where a thread stands; the numbers are lines of lib/rdwr.c. */
  datatype Point =
    | Outside
    | RLockEnter    // 32: waits for the mutex
    | RLockTest     // 34
    | RLockSleep    // 35: in the wait set
    | RLockWoken    // 35: out of the wait set, waits for the mutex
    | RLockTake     // 37
    | RLockLeave    // 39
    | WLockEnter    // 47
    | WLockTest     // 49
    | WLockSleep    // 50
    | WLockWoken    // 50
    | WLockTake     // 53
    | WLockLeave    // 55
    | RUnlockEnter  // 63
    | RUnlockTest   // 65
    | RUnlockFail   // 66
    | RUnlockDrop   // 69
    | RUnlockSignal // 71
    | RUnlockLeave  // 74
    | WUnlockEnter  // 83
    | WUnlockTest   // 85
    | WUnlockFail   // 86
    | WUnlockClear  // 89
    | WUnlockBroadcast // 91
    | WUnlockLeave  // 93

  /** A thread: where it stands, how many read locks it has, and whether it has the write lock. */
  datatype Pc = Pc(at: Point, shares: nat, writing: bool)

  /** `readers_reading`, `writer_writing`, the owner of the mutex, and where each thread stands. */
  datatype State = State(readers: int, writer: int, owner: Option<Tid>, pc: map<Tid, Pc>)

  datatype Operation = RLock | WLock | RUnlock | WUnlock

  /** A thread calls an operation, makes one step (waking the given sleepers if it signals), or wakes up spuriously. */
  datatype Event = Call(t: Tid, op: Operation) | Go(t: Tid, woken: set<Tid>) | Spurious(t: Tid)

  function Init(threads: set<Tid>): State {
    State(0, 0, None, map t | t in threads :: Pc(Outside, 0, false))
  }

  predicate Asleep(q: Pc) {
    q.at.RLockSleep? || q.at.WLockSleep?
  }

  predicate Woken(q: Pc) {
    q.at.RLockWoken? || q.at.WLockWoken?
  }

  predicate WantsMutex(q: Pc) {
    q.at.RLockEnter? || q.at.WLockEnter? || q.at.RUnlockEnter? || q.at.WUnlockEnter? || Woken(q)
  }

  /** A thread in the wait set leaves it. */
  function Wake(q: Pc): Pc {
    if q.at.RLockSleep? then q.(at := RLockWoken) else if q.at.WLockSleep? then q.(at := WLockWoken) else q
  }

  function WakeAll(pc: map<Tid, Pc>, woken: set<Tid>): map<Tid, Pc> {
    map t | t in pc :: if t in woken then Wake(pc[t]) else pc[t]
  }

  ghost function Sleepers(pc: map<Tid, Pc>): set<Tid> {
    set t | t in pc && Asleep(pc[t])
  }

  function At(s: State, t: Tid, q: Pc): State {
    s.(pc := s.pc[t := q])
  }

  function To(s: State, t: Tid, p: Point): State
    requires t in s.pc
  {
    At(s, t, s.pc[t].(at := p))
  }

  /** The thread acquires the mutex, which must be free. */
  function Acquire(s: State, t: Tid, p: Point): Option<State>
    requires t in s.pc
  {
    if s.owner.None? then Some(To(s, t, p).(owner := Some(t))) else None
  }

  function Release(s: State, t: Tid, p: Point): Option<State>
    requires t in s.pc
  {
    Some(To(s, t, p).(owner := None))
  }

  /** One step of thread `t`; None if the thread cannot move or does not move on its own. */
  function Step(s: State, t: Tid, woken: set<Tid>): Option<State>
    requires t in s.pc
  {
    var q := s.pc[t];
    match q.at
    case RLockEnter => Acquire(s, t, RLockTest)
    case RLockWoken => Acquire(s, t, RLockTest)
    case RLockTest => if s.writer != 0 then Release(s, t, RLockSleep) else Some(To(s, t, RLockTake))
    case RLockTake => Some(At(s, t, Pc(RLockLeave, q.shares + 1, q.writing)).(readers := s.readers + 1))
    case RLockLeave => Release(s, t, Outside)
    case WLockEnter => Acquire(s, t, WLockTest)
    case WLockWoken => Acquire(s, t, WLockTest)
    case WLockTest => if s.writer != 0 || s.readers != 0 then Release(s, t, WLockSleep) else Some(To(s, t, WLockTake))
    case WLockTake => Some(At(s, t, Pc(WLockLeave, q.shares, true)).(writer := s.writer + 1))
    case WLockLeave => Release(s, t, Outside)
    case RUnlockEnter => Acquire(s, t, RUnlockTest)
    case RUnlockTest => Some(To(s, t, if s.readers == 0 then RUnlockFail else RUnlockDrop))
    case RUnlockFail => Release(s, t, Outside)
    case RUnlockDrop =>
      Some(At(s, t, Pc(RUnlockSignal, if q.shares == 0 then 0 else q.shares - 1, q.writing)).(readers := s.readers - 1))
    case RUnlockSignal =>
      if s.readers == 0 then
        if Signal(s.pc, woken) then Some(At(s.(pc := WakeAll(s.pc, woken)), t, q.(at := RUnlockLeave))) else None
      else
        Some(To(s, t, RUnlockLeave))
    case RUnlockLeave => Release(s, t, Outside)
    case WUnlockEnter => Acquire(s, t, WUnlockTest)
    case WUnlockTest => Some(To(s, t, if s.writer == 0 then WUnlockFail else WUnlockClear))
    case WUnlockFail => Release(s, t, Outside)
    case WUnlockClear => Some(At(s, t, Pc(WUnlockBroadcast, q.shares, false)).(writer := 0))
    case WUnlockBroadcast => Some(At(s.(pc := WakeAll(s.pc, s.pc.Keys)), t, q.(at := WUnlockLeave)))
    case WUnlockLeave => Release(s, t, Outside)
    case _ => None
  }

  /** `pthread_cond_signal` wakes at least one of the sleepers, if there is one. */
  predicate Signal(pc: map<Tid, Pc>, woken: set<Tid>) {
    && (forall t :: t in woken ==> t in pc && Asleep(pc[t]))
    && ((exists t :: t in pc && Asleep(pc[t])) ==> woken != {})
  }

  function Entry(op: Operation): Point {
    match op
    case RLock => RLockEnter
    case WLock => WLockEnter
    case RUnlock => RUnlockEnter
    case WUnlock => WUnlockEnter
  }

  function Do(s: State, e: Event): Option<State> {
    if e.t !in s.pc then None else
    match e
    case Call(t, op) => if s.pc[t].at.Outside? then Some(To(s, t, Entry(op))) else None
    case Go(t, woken) => Step(s, t, woken)
    case Spurious(t) => if Asleep(s.pc[t]) then Some(At(s, t, Wake(s.pc[t]))) else None
  }

  /** No thread gives back what another one holds: an unlock without a lock finds the counter zero and fails. */
  predicate Disciplined(s: State, e: Event) {
    e.Go? && e.t in s.pc ==>
      && (s.pc[e.t].at.RUnlockTest? && s.pc[e.t].shares == 0 ==> s.readers == 0)
      && (s.pc[e.t].at.WUnlockTest? && !s.pc[e.t].writing ==> s.writer == 0)
  }

  function Run(s: State, es: seq<Event>): Option<State>
    decreases |es|
  {
    if es == [] then Some(s)
    else
      var n := Do(s, es[0]);
      if n.None? then None else Run(n.value, es[1..])
  }

  predicate DisciplinedRun(s: State, es: seq<Event>)
    decreases |es|
  {
    es == [] || (Disciplined(s, es[0]) && var n := Do(s, es[0]); n.Some? ==> DisciplinedRun(n.value, es[1..]))
  }

  // ----- the invariant -----

  predicate HoldsMutex(q: Pc) {
    !WantsMutex(q) && !Asleep(q) && !q.at.Outside?
  }

  /** The thread will look at the lock again, or wake somebody up, before it can sleep. */
  predicate Pending(q: Pc) {
    Woken(q) || q.at.RLockTest? || q.at.RLockTake? || q.at.WLockTest? || q.at.WLockTake? || q.at.RUnlockSignal?
    || q.at.WUnlockBroadcast?
  }

  /** One pair for every read lock that a thread has. */
  ghost function CountedIn(pc: map<Tid, Pc>): set<(Tid, nat)> {
    set t, k | t in pc && k in Below(pc[t].shares) :: (t, k)
  }

  ghost function ExclusiveIn(pc: map<Tid, Pc>): set<Tid> {
    set t | t in pc && pc[t].writing
  }

  ghost function Below(n: nat): (r: set<nat>)
    ensures |r| == n && forall k: nat :: k in r <==> k < n
  {
    if n == 0 then {} else Below(n - 1) + {n - 1}
  }

  ghost predicate MutexInv(s: State) {
    && (s.owner.Some? ==> s.owner.value in s.pc)
    && (forall t :: t in s.pc ==> (HoldsMutex(s.pc[t]) <==> s.owner == Some(t)))
  }

  ghost predicate CountInv(s: State) {
    && s.readers == |CountedIn(s.pc)| && s.writer == |ExclusiveIn(s.pc)|
    && s.writer <= 1 && (s.writer == 0 || s.readers == 0)
    && (forall t :: t in s.pc && s.pc[t].at.RLockTake? ==> s.writer == 0)
    && (forall t :: t in s.pc && s.pc[t].at.WLockTake? ==> s.writer == 0 && s.readers == 0)
    && (forall t :: t in s.pc && s.pc[t].at.RUnlockDrop? ==> s.pc[t].shares > 0)
    && (forall t :: t in s.pc && s.pc[t].at.WUnlockClear? ==> s.pc[t].writing)
    && (forall t :: t in s.pc && (s.pc[t].at.RUnlockSignal? || s.pc[t].at.WUnlockBroadcast?) ==> s.writer == 0)
  }

  /** A reader sleeps only while a writer holds the lock, or is just about to wake everybody. */
  ghost predicate SleepInv(s: State) {
    forall t :: t in s.pc && s.pc[t].at.RLockSleep? ==>
      s.writer == 1 || (exists u :: u in s.pc && s.pc[u].at.WUnlockBroadcast?)
  }

  /** No wake-up is lost: a free lock with sleepers has a thread that is on its way. */
  ghost predicate WakeInv(s: State) {
    s.readers == 0 && s.writer == 0 && (exists t :: t in s.pc && Asleep(s.pc[t])) ==>
      exists u :: u in s.pc && Pending(s.pc[u])
  }

  ghost predicate Inv(s: State) {
    MutexInv(s) && CountInv(s) && SleepInv(s) && WakeInv(s)
  }

  lemma InitInv(threads: set<Tid>)
    ensures Inv(Init(threads))
  {
    assert CountedIn(Init(threads).pc) == {} && ExclusiveIn(Init(threads).pc) == {};
  }

  /** How one thread's move changes the two counts. */
  lemma Recount(pc: map<Tid, Pc>, t: Tid, q: Pc)
    requires t in pc
    ensures |CountedIn(pc[t := q])| == |CountedIn(pc)| - pc[t].shares + q.shares
    ensures |ExclusiveIn(pc[t := q])| == |ExclusiveIn(pc)| - One(pc[t].writing) + One(q.writing)
  {
    CardSplit(pc, t);
    CardSplit(pc[t := q], t);
    assert Others(pc[t := q], t) == Others(pc, t);
    CardMove(ExclusiveIn(pc), ExclusiveIn(pc[t := q]), t, q.writing);
  }

  function One(b: bool): int {
    if b then 1 else 0
  }

  /** The pairs of the other threads. */
  ghost function Others(pc: map<Tid, Pc>, t: Tid): set<(Tid, nat)> {
    set u, k | u in pc && u != t && k in Below(pc[u].shares) :: (u, k)
  }

  ghost function Column(t: Tid, n: nat): (r: set<(Tid, nat)>)
    ensures |r| == n && forall p: (Tid, nat) :: p in r <==> p.0 == t && p.1 < n
  {
    if n == 0 then {} else Column(t, n - 1) + {(t, n - 1)}
  }

  lemma CardSplit(pc: map<Tid, Pc>, t: Tid)
    requires t in pc
    ensures |CountedIn(pc)| == |Others(pc, t)| + pc[t].shares
  {
    assert CountedIn(pc) == Others(pc, t) + Column(t, pc[t].shares);
    assert Others(pc, t) !! Column(t, pc[t].shares);
  }

  lemma CardMove(a: set<Tid>, b: set<Tid>, t: Tid, now: bool)
    requires b - {t} == a - {t} && (t in b <==> now)
    ensures |b| == |a| - One(t in a) + One(now)
  {
    var c := a - {t};
    assert a == if t in a then c + {t} else c;
    assert b == if now then c + {t} else c;
  }

  lemma WakeKeepsCounts(pc: map<Tid, Pc>, woken: set<Tid>)
    ensures CountedIn(WakeAll(pc, woken)) == CountedIn(pc) && ExclusiveIn(WakeAll(pc, woken)) == ExclusiveIn(pc)
  {
  }

  lemma CountedMember(pc: map<Tid, Pc>, t: Tid)
    requires t in pc
    ensures pc[t].shares > 0 ==> |CountedIn(pc)| > 0
    ensures pc[t].writing ==> |ExclusiveIn(pc)| > 0
  {
    if pc[t].shares > 0 { assert (t, 0) in CountedIn(pc); }
    if pc[t].writing { assert t in ExclusiveIn(pc); }
  }

  lemma KeepsMutex(s: State, e: Event)
    requires MutexInv(s) && Do(s, e).Some?
    ensures MutexInv(Do(s, e).value)
  {
    StepMoves(s, e);
    MutexMove(s, e);
  }

  /** The moving thread has the mutex afterwards exactly when it is recorded as the owner. */
  ghost predicate OwnerMoves(s: State, s': State, t: Tid)
    requires t in s'.pc
  {
    && (HoldsMutex(s'.pc[t]) <==> s'.owner == Some(t))
    && (s'.owner == s.owner || ((s.owner == None || s.owner == Some(t)) && (s'.owner == None || s'.owner == Some(t))))
  }

  lemma MutexMove(s: State, e: Event)
    requires MutexInv(s) && Do(s, e).Some?
    ensures OwnerMoves(s, Do(s, e).value, e.t)
  {
    if e.Go? && Locking(s.pc[e.t]) {
      MutexMoveLocking(s, e.t, e.woken);
    } else if e.Go? {
      MutexMoveUnlocking(s, e.t, e.woken);
    }
  }

  /** The thread is inside `pthread_rdwr_rlock` or `pthread_rdwr_wlock`. */
  predicate Locking(q: Pc) {
    || q.at.RLockEnter? || q.at.RLockTest? || q.at.RLockSleep? || q.at.RLockWoken?
    || q.at.RLockTake? || q.at.RLockLeave?
    || q.at.WLockEnter? || q.at.WLockTest? || q.at.WLockSleep? || q.at.WLockWoken?
    || q.at.WLockTake? || q.at.WLockLeave?
  }

  lemma MutexMoveLocking(s: State, t: Tid, woken: set<Tid>)
    requires MutexInv(s) && t in s.pc && Locking(s.pc[t]) && Step(s, t, woken).Some?
    ensures OwnerMoves(s, Step(s, t, woken).value, t)
  {
    hide Signal;
  }

  lemma MutexMoveUnlocking(s: State, t: Tid, woken: set<Tid>)
    requires MutexInv(s) && t in s.pc && !Locking(s.pc[t]) && Step(s, t, woken).Some?
    ensures OwnerMoves(s, Step(s, t, woken).value, t)
  {
    hide Signal, WakeAll;
  }

  /** The threads after the sleepers that step `e` wakes have left the wait set. */
  ghost function AfterWake(s: State, e: Event): map<Tid, Pc>
    requires e.t in s.pc
  {
    if e.Go? && s.pc[e.t].at.WUnlockBroadcast? then WakeAll(s.pc, s.pc.Keys)
    else if e.Go? && s.pc[e.t].at.RUnlockSignal? && s.readers == 0 then WakeAll(s.pc, e.woken)
    else s.pc
  }

  /** A step changes the place of the moving thread only, after waking sleepers. */
  lemma StepPc(s: State, e: Event)
    requires Do(s, e).Some?
    ensures e.t in s.pc && Do(s, e).value.pc == AfterWake(s, e)[e.t := Do(s, e).value.pc[e.t]]
  {
    hide WakeAll, Signal;
    if e.Go? { GoPc(s, e); }
  }

  lemma GoPc(s: State, e: Event)
    requires Do(s, e).Some? && e.Go?
    ensures e.t in s.pc && Do(s, e).value.pc == AfterWake(s, e)[e.t := Do(s, e).value.pc[e.t]]
  {
    hide WakeAll, Signal;
    if s.pc[e.t].at.RUnlockSignal? || s.pc[e.t].at.WUnlockBroadcast? {
    } else {
      assert AfterWake(s, e) == s.pc;
    }
  }

  lemma StepMoves(s: State, e: Event)
    requires Do(s, e).Some?
    ensures var s' := Do(s, e).value;
      e.t in s.pc && s'.pc.Keys == s.pc.Keys
      && forall u :: u in s.pc && u != e.t ==> s'.pc[u] == s.pc[u] || s'.pc[u] == Wake(s.pc[u])
  {
    hide Do, Wake;
    StepPc(s, e);
  }

  /** The two counted sets move by the change in what the moving thread counts for. */
  lemma StepCounts(s: State, e: Event)
    requires Do(s, e).Some?
    ensures var s' := Do(s, e).value;
      && |CountedIn(s'.pc)| == |CountedIn(s.pc)| - s.pc[e.t].shares + s'.pc[e.t].shares
      && |ExclusiveIn(s'.pc)| == |ExclusiveIn(s.pc)| - One(s.pc[e.t].writing) + One(s'.pc[e.t].writing)
  {
    hide CountedIn, ExclusiveIn, Do;
    StepPc(s, e);
    if e.Go? { WakeKeepsCounts(s.pc, e.woken); }
    WakeKeepsCounts(s.pc, s.pc.Keys);
    Recount(AfterWake(s, e), e.t, Do(s, e).value.pc[e.t]);
  }

  /** What `CountInv` says about the counters and the moving thread alone. */
  ghost predicate CountMoves(s: State, s': State, t: Tid) {
    && t in s'.pc
    && s'.readers == |CountedIn(s'.pc)| && s'.writer == |ExclusiveIn(s'.pc)|
    && s'.writer <= 1 && (s'.writer == 0 || s'.readers == 0)
    && (s'.pc[t].at.RLockTake? ==> s'.writer == 0) && (s'.pc[t].at.WLockTake? ==> s'.writer == 0 && s'.readers == 0)
    && (s'.pc[t].at.RUnlockDrop? ==> s'.pc[t].shares > 0) && (s'.pc[t].at.WUnlockClear? ==> s'.pc[t].writing)
    && (s'.pc[t].at.RUnlockSignal? || s'.pc[t].at.WUnlockBroadcast? ==> s'.writer == 0)
    && (s.owner != Some(t) ==> s'.readers == s.readers && s'.writer == s.writer)
  }

  lemma CountMove(s: State, e: Event)
    requires MutexInv(s) && CountInv(s) && Disciplined(s, e) && Do(s, e).Some?
    ensures CountMoves(s, Do(s, e).value, e.t)
  {
    if e.Go? && HoldsMutex(s.pc[e.t]) {
      OwnerCounts(s, e);
    } else {
      OutsiderCounts(s, e);
    }
  }

  lemma OwnerCounts(s: State, e: Event)
    requires MutexInv(s) && CountInv(s) && Disciplined(s, e) && Do(s, e).Some? && e.Go? && HoldsMutex(s.pc[e.t])
    ensures CountMoves(s, Do(s, e).value, e.t)
  {
    hide CountedIn, ExclusiveIn, WakeAll, Signal;
    CountedMember(s.pc, e.t);
    StepCounts(s, e);
  }

  lemma OutsiderCounts(s: State, e: Event)
    requires MutexInv(s) && CountInv(s) && Disciplined(s, e) && Do(s, e).Some?
    requires !(e.Go? && HoldsMutex(s.pc[e.t]))
    ensures CountMoves(s, Do(s, e).value, e.t)
  {
    hide CountedIn, ExclusiveIn, WakeAll, Signal;
    CountedMember(s.pc, e.t);
    StepCounts(s, e);
  }

  lemma KeepsCount(s: State, e: Event)
    requires MutexInv(s) && CountInv(s) && Disciplined(s, e) && Do(s, e).Some?
    ensures CountInv(Do(s, e).value)
  {
    hide CountedIn, ExclusiveIn, Do;
    CountMove(s, e);
    StepMoves(s, e);
  }

  /** The moving thread goes to sleep only behind a writer, and ends the writing only on its way to the broadcast. */
  lemma SleepSelf(s: State, e: Event)
    requires Do(s, e).Some? && 0 <= s.writer <= 1 && (s.pc[e.t].at.WLockTake? ==> s.writer == 0)
    ensures var s' := Do(s, e).value;
      && (s'.pc[e.t].at.RLockSleep? ==> s'.writer == 1)
      && (s.writer == 1 && s'.writer != 1 ==> s'.pc[e.t].at.WUnlockBroadcast?)
  {
    hide WakeAll, Signal;
  }

  lemma BroadcastWakes(s: State, e: Event)
    requires Do(s, e).Some? && s.pc[e.t].at.WUnlockBroadcast?
    ensures forall u :: u in Do(s, e).value.pc ==> !Do(s, e).value.pc[u].at.RLockSleep?
  {
  }

  lemma KeepsSleep(s: State, e: Event)
    requires Inv(s) && Disciplined(s, e) && Do(s, e).Some?
    ensures SleepInv(Do(s, e).value)
  {
    hide CountedIn, ExclusiveIn, Do;
    var s' := Do(s, e).value;
    StepMoves(s, e);
    CountedMember(s.pc, e.t);
    SleepSelf(s, e);
    if s.pc[e.t].at.WUnlockBroadcast? {
      BroadcastWakes(s, e);
    } else {
      forall t | t in s'.pc && s'.pc[t].at.RLockSleep?
        ensures s'.writer == 1 || exists u :: u in s'.pc && s'.pc[u].at.WUnlockBroadcast?
      {
        if t != e.t && s.writer != 1 {
          var u :| u in s.pc && s.pc[u].at.WUnlockBroadcast?;
          assert s'.pc[u].at.WUnlockBroadcast?;
        }
      }
    }
  }

  /** While the lock stays free, a pending thread stays pending until it has woken somebody. */
  lemma PendingSelf(s: State, e: Event)
    requires Do(s, e).Some? && s.readers == 0 && s.writer == 0 && Pending(s.pc[e.t])
    requires var s' := Do(s, e).value; s'.readers == 0 && s'.writer == 0
    requires !s.pc[e.t].at.RUnlockSignal? && !s.pc[e.t].at.WUnlockBroadcast?
    ensures Pending(Do(s, e).value.pc[e.t])
  {
    hide WakeAll, Signal;
  }

  /** The lock becomes free only by a thread that goes on to wake the sleepers. */
  lemma FreedBy(s: State, e: Event)
    requires Do(s, e).Some? && s.readers >= 0 && s.writer >= 0 && s.readers + s.writer > 0
    requires var s' := Do(s, e).value; s'.readers == 0 && s'.writer == 0
    ensures Pending(Do(s, e).value.pc[e.t])
  {
    hide WakeAll, Signal;
  }

  /** A signal or broadcast leaves nobody asleep, or somebody woken. */
  lemma SignalWakes(s: State, e: Event, w: Tid)
    requires Do(s, e).Some? && e.Go? && s.readers == 0
    requires s.pc[e.t].at.RUnlockSignal? || s.pc[e.t].at.WUnlockBroadcast?
    requires w in Do(s, e).value.pc && Asleep(Do(s, e).value.pc[w])
    ensures exists v :: v in Do(s, e).value.pc && Pending(Do(s, e).value.pc[v])
  {
    var s' := Do(s, e).value;
    assert w in s.pc && w != e.t;
    assert s.pc[e.t].at.RUnlockSignal?;
    assert Asleep(s.pc[w]);
    var v :| v in e.woken;
    assert Woken(s'.pc[v]);
  }

  /** Nobody falls asleep on a free lock. */
  lemma SleptBefore(s: State, e: Event, w: Tid)
    requires Do(s, e).Some? && w in Do(s, e).value.pc && Asleep(Do(s, e).value.pc[w])
    requires var s' := Do(s, e).value; s'.readers == 0 && s'.writer == 0
    ensures w in s.pc && Asleep(s.pc[w])
  {
    if w != e.t {
      hide Do;
      StepMoves(s, e);
    } else {
      hide WakeAll, Signal;
    }
  }

  lemma KeepsWake(s: State, e: Event)
    requires Inv(s) && Disciplined(s, e) && Do(s, e).Some?
    ensures WakeInv(Do(s, e).value)
  {
    hide CountedIn, ExclusiveIn, Do;
    var s' := Do(s, e).value;
    StepMoves(s, e);
    if w :| w in s'.pc && Asleep(s'.pc[w]) && s'.readers == 0 && s'.writer == 0 {
      SleptBefore(s, e, w);
      if s.readers == 0 && s.writer == 0 {
        var u :| u in s.pc && Pending(s.pc[u]);
        if u != e.t {
          assert Pending(s'.pc[u]);
        } else if s.pc[u].at.RUnlockSignal? || s.pc[u].at.WUnlockBroadcast? {
          OnlyGo(s, e);
          SignalWakes(s, e, w);
        } else {
          PendingSelf(s, e);
        }
      } else {
        FreedBy(s, e);
        assert e.t in s'.pc;
      }
    }
  }

  lemma OnlyGo(s: State, e: Event)
    requires Do(s, e).Some? && (s.pc[e.t].at.RUnlockSignal? || s.pc[e.t].at.WUnlockBroadcast?)
    ensures e.Go?
  {
  }

  // ----- theorems over all runs -----

  lemma {:induction false} RunKeepsInv(s: State, es: seq<Event>)
    requires Inv(s) && DisciplinedRun(s, es) && Run(s, es).Some?
    ensures Inv(Run(s, es).value)
    decreases |es|
  {
    hide Inv, Do;
    if es != [] {
      DoKeepsInv(s, es[0]);
      RunKeepsInv(Do(s, es[0]).value, es[1..]);
    }
  }

  lemma DoKeepsInv(s: State, e: Event)
    requires Inv(s) && Disciplined(s, e) && Do(s, e).Some?
    ensures Inv(Do(s, e).value)
  {
    hide MutexInv, CountInv, SleepInv, WakeInv, Do;
    KeepsMutex(s, e);
    KeepsCount(s, e);
    KeepsSleep(s, e);
    KeepsWake(s, e);
  }

  /** A state that some disciplined run of the given threads reaches. */
  ghost predicate Reachable(threads: set<Tid>, s: State) {
    exists es :: DisciplinedRun(Init(threads), es) && Run(Init(threads), es) == Some(s)
  }

  lemma ReachableInv(threads: set<Tid>, s: State)
    requires Reachable(threads, s)
    ensures Inv(s)
  {
    var es :| DisciplinedRun(Init(threads), es) && Run(Init(threads), es) == Some(s);
    InitInv(threads);
    RunKeepsInv(Init(threads), es);
  }

  /** A writer never overlaps a reader or another writer. */
  lemma MutualExclusion(threads: set<Tid>, s: State, t: Tid, u: Tid)
    requires Reachable(threads, s) && t in s.pc && u in s.pc && t != u && s.pc[t].writing
    ensures !s.pc[u].writing && s.pc[u].shares == 0
  {
    ReachableInv(threads, s);
    CountedMember(s.pc, t);
    CountedMember(s.pc, u);
    if s.pc[u].writing {
      assert {t, u} <= ExclusiveIn(s.pc);
      SubsetCard({t, u}, ExclusiveIn(s.pc));
    }
  }

  lemma {:induction false} SubsetCard(a: set<Tid>, b: set<Tid>)
    requires a <= b
    ensures |a| <= |b|
  {
    if x :| x in a {
      SubsetCard(a - {x}, b - {x});
    }
  }

  /** The single signal on line 72 meets sleeping writers only, so it always reaches a writer. */
  lemma SignalReachesWriter(threads: set<Tid>, s: State, t: Tid, woken: set<Tid>)
    requires Reachable(threads, s) && t in s.pc && s.pc[t].at.RUnlockSignal? && s.readers == 0
    requires Signal(s.pc, woken)
    ensures forall u :: u in woken ==> s.pc[u].at.WLockSleep?
    ensures (exists u :: u in s.pc && Asleep(s.pc[u])) ==> exists u :: u in woken && s.pc[u].at.WLockSleep?
  {
    ReachableInv(threads, s);
    forall u | u in s.pc && s.pc[u].at.RLockSleep? ensures false {
      assert false;
    }
    if u :| u in s.pc && Asleep(s.pc[u]) {
      var v :| v in woken;
    }
  }

  /** No wake-up is lost: with the mutex free, a free lock with sleepers has a woken thread. */
  lemma NoLostWakeup(threads: set<Tid>, s: State)
    requires Reachable(threads, s) && s.owner.None? && s.readers == 0 && s.writer == 0
    requires exists t :: t in s.pc && Asleep(s.pc[t])
    ensures exists u :: u in s.pc && Woken(s.pc[u])
  {
    ReachableInv(threads, s);
    var u :| u in s.pc && Pending(s.pc[u]);
    assert !HoldsMutex(s.pc[u]);
  }

  /** No thread can make a step. */
  ghost predicate Stuck(s: State) {
    forall t, woken :: t in s.pc ==> Step(s, t, woken).None?
  }

  lemma FreeMutexTaken(s: State, t: Tid)
    requires t in s.pc && WantsMutex(s.pc[t]) && s.owner.None?
    ensures Step(s, t, {}).Some?
  {
  }

  /** The thread has the lock in one way or the other. */
  predicate Holding(q: Pc) {
    q.shares > 0 || q.writing
  }

  /**
   * If nothing moves, every thread is outside the lock code or asleep, and sleepers wait for a thread that has
   * the lock: one outside, unless a sleeper itself has it because it asked again for what it excludes.
   */
  lemma NoDeadlock(threads: set<Tid>, s: State)
    requires Reachable(threads, s) && Stuck(s)
    ensures forall t :: t in s.pc ==> s.pc[t].at.Outside? || Asleep(s.pc[t])
    ensures (exists t :: t in s.pc && Asleep(s.pc[t])) ==> exists u :: u in s.pc && Holding(s.pc[u])
    ensures
      (exists t :: t in s.pc && Asleep(s.pc[t])) && (forall t :: t in s.pc && Asleep(s.pc[t]) ==> !Holding(s.pc[t]))
      ==> exists u :: u in s.pc && s.pc[u].at.Outside? && Holding(s.pc[u])
  {
    ReachableInv(threads, s);
    forall t | t in s.pc ensures s.pc[t].at.Outside? || Asleep(s.pc[t]) {
      if s.owner.Some? {
        OwnerMovesOn(s, s.owner.value);
      } else if WantsMutex(s.pc[t]) {
        FreeMutexTaken(s, t);
      }
    }
    if t :| t in s.pc && Asleep(s.pc[t]) {
      if s.readers == 0 && s.writer == 0 {
        NoLostWakeup(threads, s);
      } else if s.readers > 0 {
        var p :| p in CountedIn(s.pc);
        assert Holding(s.pc[p.0]);
      } else {
        var u :| u in ExclusiveIn(s.pc);
        assert Holding(s.pc[u]);
      }
    }
  }

  lemma OwnerMovesOn(s: State, t: Tid)
    requires Inv(s) && s.owner == Some(t)
    ensures Step(s, t, Sleepers(s.pc)).Some?
  {
    assert forall u :: u in s.pc && Asleep(s.pc[u]) ==> u in Sleepers(s.pc);
  }

  // ----- why the discipline is needed -----

  /** Thread `t` steps `n` times without waking anybody. */
  function Steps(t: Tid, n: nat): seq<Event> {
    if n == 0 then [] else [Go(t, {})] + Steps(t, n - 1)
  }

  lemma RunCons(s: State, e: Event, es: seq<Event>)
    requires Do(s, e).Some?
    ensures Run(s, [e] + es) == Run(Do(s, e).value, es)
  {
    assert ([e] + es)[1..] == es;
  }

  lemma OneStep(s: State, t: Tid, s': State, n: nat)
    requires Do(s, Go(t, {})) == Some(s')
    ensures Run(s, Steps(t, n + 1)) == Run(s', Steps(t, n))
  {
    RunCons(s, Go(t, {}), Steps(t, n));
  }

  /** The state with the counters and thread `t` as given. */
  function With(s: State, readers: int, writer: int, owner: Option<Tid>, t: Tid, q: Pc): State {
    State(readers, writer, owner, s.pc[t := q])
  }

  /** Thread `t`, alone in the code, calls `op` and stands at the test with the mutex. */
  lemma Enters(s: State, t: Tid, op: Operation, test: Point, n: nat)
    requires t in s.pc && s.pc[t].at.Outside? && s.owner.None?
    requires test == match op
        case RLock => RLockTest case WLock => WLockTest case RUnlock => RUnlockTest case WUnlock => WUnlockTest
    ensures Run(s, [Call(t, op)] + Steps(t, n + 1)) ==
            Run(With(s, s.readers, s.writer, Some(t), t, s.pc[t].(at := test)), Steps(t, n))
  {
    hide Run, Signal, WakeAll;
    var s1 := With(s, s.readers, s.writer, None, t, s.pc[t].(at := Entry(op)));
    var s2 := With(s, s.readers, s.writer, Some(t), t, s.pc[t].(at := test));
    RunCons(s, Call(t, op), Steps(t, n + 1));
    assert s1.pc[t := s.pc[t].(at := test)] == s2.pc;
    OneStep(s1, t, s2, n);
  }

  lemma WriterLocks(s: State, t: Tid)
    requires t in s.pc && s.pc[t].at.Outside? && s.owner.None? && s.readers == 0 && s.writer == 0
    ensures Run(s, [Call(t, WLock)] + Steps(t, 4)) == Some(With(s, 0, 1, None, t, s.pc[t].(writing := true)))
  {
    var q := s.pc[t];
    var s2 := With(s, 0, 0, Some(t), t, q.(at := WLockTest));
    var s3 := With(s, 0, 0, Some(t), t, q.(at := WLockTake));
    var s4 := With(s, 0, 1, Some(t), t, Pc(WLockLeave, q.shares, true));
    var s5 := With(s, 0, 1, None, t, q.(writing := true));
    assert Run(s5, Steps(t, 0)) == Some(s5);
    hide Run, Signal, WakeAll;
    Enters(s, t, WLock, WLockTest, 3);
    assert s2.pc[t := s3.pc[t]] == s3.pc && s3.pc[t := s4.pc[t]] == s4.pc && s4.pc[t := s5.pc[t]] == s5.pc;
    OneStep(s2, t, s3, 2);
    OneStep(s3, t, s4, 1);
    OneStep(s4, t, s5, 0);
  }

  lemma ReaderLocks(s: State, t: Tid)
    requires t in s.pc && s.pc[t].at.Outside? && s.owner.None? && s.writer == 0
    ensures Run(s, [Call(t, RLock)] + Steps(t, 4)) ==
            Some(With(s, s.readers + 1, 0, None, t, s.pc[t].(shares := s.pc[t].shares + 1)))
  {
    var q, r := s.pc[t], s.readers;
    var s2 := With(s, r, 0, Some(t), t, q.(at := RLockTest));
    var s3 := With(s, r, 0, Some(t), t, q.(at := RLockTake));
    var s4 := With(s, r + 1, 0, Some(t), t, Pc(RLockLeave, q.shares + 1, q.writing));
    var s5 := With(s, r + 1, 0, None, t, q.(shares := q.shares + 1));
    assert Run(s5, Steps(t, 0)) == Some(s5);
    hide Run, Signal, WakeAll;
    Enters(s, t, RLock, RLockTest, 3);
    assert s2.pc[t := s3.pc[t]] == s3.pc && s3.pc[t := s4.pc[t]] == s4.pc && s4.pc[t := s5.pc[t]] == s5.pc;
    OneStep(s2, t, s3, 2);
    OneStep(s3, t, s4, 1);
    OneStep(s4, t, s5, 0);
  }

  /** With nobody asleep, waking everybody or nobody changes nothing. */
  lemma NobodyWakes(pc: map<Tid, Pc>, t: Tid, q: Pc)
    requires t in pc && Sleepers(pc) == {} && !Asleep(q)
    ensures var pc' := pc[t := q];
      WakeAll(pc', pc'.Keys) == pc' && WakeAll(pc', {}) == pc' && Signal(pc', {})
  {
    assert forall u :: u in pc && Asleep(pc[u]) ==> u in Sleepers(pc);
  }

  /** A thread without the lock frees it for writing. */
  lemma StrayWriteUnlock(s: State, t: Tid)
    requires t in s.pc && s.pc[t] == Pc(Outside, 0, false) && s.owner.None? && s.writer == 1 && Sleepers(s.pc) == {}
    ensures Run(s, [Call(t, WUnlock)] + Steps(t, 5)) == Some(s.(writer := 0))
  {
    var q, r := s.pc[t], s.readers;
    var s4 := With(s, r, 0, Some(t), t, q.(at := WUnlockBroadcast));
    StrayClears(s, t);
    NobodyWakes(s.pc, t, q.(at := WUnlockBroadcast));
    var s5 := With(s, r, 0, Some(t), t, q.(at := WUnlockLeave));
    var s6 := s.(writer := 0);
    assert Run(s6, Steps(t, 0)) == Some(s6);
    hide Run, Signal, WakeAll, Sleepers;
    assert s4.pc[t := s5.pc[t]] == s5.pc && s5.pc[t := s6.pc[t]] == s6.pc;
    OneStep(s4, t, s5, 1);
    OneStep(s5, t, s6, 0);
  }

  lemma StrayClears(s: State, t: Tid)
    requires t in s.pc && s.pc[t] == Pc(Outside, 0, false) && s.owner.None? && s.writer == 1
    ensures Run(s, [Call(t, WUnlock)] + Steps(t, 5)) ==
            Run(With(s, s.readers, 0, Some(t), t, Pc(WUnlockBroadcast, 0, false)), Steps(t, 2))
  {
    hide Run, Signal, WakeAll;
    var q, r := s.pc[t], s.readers;
    var s2 := With(s, r, 1, Some(t), t, q.(at := WUnlockTest));
    var s3 := With(s, r, 1, Some(t), t, q.(at := WUnlockClear));
    var s4 := With(s, r, 0, Some(t), t, q.(at := WUnlockBroadcast));
    Enters(s, t, WUnlock, WUnlockTest, 4);
    assert s2.pc[t := s3.pc[t]] == s3.pc && s3.pc[t := s4.pc[t]] == s4.pc;
    OneStep(s2, t, s3, 3);
    OneStep(s3, t, s4, 2);
  }

  /** A thread without the lock takes a reader's share away. */
  lemma StrayReadUnlock(s: State, t: Tid)
    requires t in s.pc && s.pc[t] == Pc(Outside, 0, false) && s.owner.None? && s.readers == 1 && Sleepers(s.pc) == {}
    ensures Run(s, [Call(t, RUnlock)] + Steps(t, 5)) == Some(s.(readers := 0))
  {
    var q, w := s.pc[t], s.writer;
    var s4 := With(s, 0, w, Some(t), t, q.(at := RUnlockSignal));
    StrayDrops(s, t);
    NobodyWakes(s.pc, t, q.(at := RUnlockSignal));
    var s5 := With(s, 0, w, Some(t), t, q.(at := RUnlockLeave));
    var s6 := s.(readers := 0);
    assert Run(s6, Steps(t, 0)) == Some(s6);
    hide Run, Signal, WakeAll, Sleepers;
    assert s4.pc[t := s5.pc[t]] == s5.pc && s5.pc[t := s6.pc[t]] == s6.pc;
    OneStep(s4, t, s5, 1);
    OneStep(s5, t, s6, 0);
  }

  lemma StrayDrops(s: State, t: Tid)
    requires t in s.pc && s.pc[t] == Pc(Outside, 0, false) && s.owner.None? && s.readers == 1
    ensures Run(s, [Call(t, RUnlock)] + Steps(t, 5)) ==
            Run(With(s, 0, s.writer, Some(t), t, Pc(RUnlockSignal, 0, false)), Steps(t, 2))
  {
    hide Run, Signal, WakeAll;
    var q, w := s.pc[t], s.writer;
    var s2 := With(s, 1, w, Some(t), t, q.(at := RUnlockTest));
    var s3 := With(s, 1, w, Some(t), t, q.(at := RUnlockDrop));
    var s4 := With(s, 0, w, Some(t), t, q.(at := RUnlockSignal));
    Enters(s, t, RUnlock, RUnlockTest, 4);
    assert s2.pc[t := s3.pc[t]] == s3.pc && s3.pc[t := s4.pc[t]] == s4.pc;
    OneStep(s2, t, s3, 3);
    OneStep(s3, t, s4, 2);
  }

  /** Two different threads write at the same time. */
  ghost predicate WritersOverlap(s: State, t: Tid, u: Tid) {
    t in s.pc && u in s.pc && t != u && s.pc[t].writing && s.pc[u].writing
  }

  /** One thread writes while another one reads. */
  ghost predicate ReaderOverlapped(s: State, t: Tid, u: Tid) {
    t in s.pc && u in s.pc && t != u && s.pc[t].shares > 0 && s.pc[u].writing
  }

  /** If a thread without the lock calls `wunlock`, any two threads can write at the same time. */
  lemma StrayWriteUnlockBreaksExclusion(threads: set<Tid>, t: Tid, u: Tid) returns (es: seq<Event>, s: State)
    requires t in threads && u in threads && t != u
    ensures Run(Init(threads), es) == Some(s) && WritersOverlap(s, t, u)
  {
    hide Run;
    var s0 := Init(threads);
    var lockT := [Call(t, WLock)] + Steps(t, 4);
    var unlockU := [Call(u, WUnlock)] + Steps(u, 5);
    var lockU := [Call(u, WLock)] + Steps(u, 4);
    WriterLocks(s0, t);
    var s1 := With(s0, 0, 1, None, t, s0.pc[t].(writing := true));
    StrayWriteUnlock(s1, u);
    WriterLocks(s1.(writer := 0), u);
    RunAppend(s0, lockT, unlockU + lockU);
    RunAppend(s1, unlockU, lockU);
    es, s := lockT + (unlockU + lockU), With(s1, 0, 1, None, u, s1.pc[u].(writing := true));
  }

  /** If a thread without the lock calls `runlock`, it can write while another one reads. */
  lemma StrayReadUnlockBreaksExclusion(threads: set<Tid>, t: Tid, u: Tid) returns (es: seq<Event>, s: State)
    requires t in threads && u in threads && t != u
    ensures Run(Init(threads), es) == Some(s) && ReaderOverlapped(s, t, u)
  {
    hide Run;
    var s0 := Init(threads);
    var lockT := [Call(t, RLock)] + Steps(t, 4);
    var unlockU := [Call(u, RUnlock)] + Steps(u, 5);
    var lockU := [Call(u, WLock)] + Steps(u, 4);
    ReaderLocks(s0, t);
    var s1 := With(s0, 1, 0, None, t, s0.pc[t].(shares := 1));
    StrayReadUnlock(s1, u);
    WriterLocks(s1.(readers := 0), u);
    RunAppend(s0, lockT, unlockU + lockU);
    RunAppend(s1, unlockU, lockU);
    es, s := lockT + (unlockU + lockU), With(s1, 0, 1, None, u, s1.pc[u].(writing := true));
  }

  lemma {:induction false} RunThreads(s: State, es: seq<Event>)
    requires Run(s, es).Some?
    ensures Run(s, es).value.pc.Keys == s.pc.Keys
    decreases |es|
  {
    if es != [] {
      StepMoves(s, es[0]);
      RunThreads(Do(s, es[0]).value, es[1..]);
    }
  }

  /**
   * Without the discipline, two writers, or a writer and a reader, can overlap
   * if and only if there are two threads.
   */
  lemma ExclusionCanFailIff(threads: set<Tid>)
    ensures (exists es, s, t, u :: Run(Init(threads), es) == Some(s) && WritersOverlap(s, t, u)) <==>
            exists t, u :: t in threads && u in threads && t != u
    ensures (exists es, s, t, u :: Run(Init(threads), es) == Some(s) && ReaderOverlapped(s, t, u)) <==>
            exists t, u :: t in threads && u in threads && t != u
  {
    if es, s, t, u :| Run(Init(threads), es) == Some(s) && (WritersOverlap(s, t, u) || ReaderOverlapped(s, t, u)) {
      RunThreads(Init(threads), es);
      assert t in threads && u in threads;
    }
    if t, u :| t in threads && u in threads && t != u {
      var es, s := StrayWriteUnlockBreaksExclusion(threads, t, u);
      var fs, s' := StrayReadUnlockBreaksExclusion(threads, t, u);
    }
  }

  lemma {:induction false} RunAppend(s: State, es: seq<Event>, fs: seq<Event>)
    ensures Run(s, es + fs) == var n := Run(s, es); if n.None? then None else Run(n.value, fs)
    decreases |es|
  {
    if es == [] {
      assert es + fs == fs;
    } else {
      assert (es + fs)[0] == es[0] && (es + fs)[1..] == es[1..] + fs;
      var n := Do(s, es[0]);
      if n.Some? { RunAppend(n.value, es[1..], fs); }
    }
  }
}
