/**
 * The backend connection pool of lib/be_cpool.c as a step machine: the pool lock, one lock per
 * connection, and the status field that `becon_return` writes without the pool lock.
 */
module BackendPool {
  import opened Basics

  type Tid = nat
  type Con = nat
  type Name = seq<char>

  datatype Status = Free | Active

  /** `becon_t`: its name, its status and the owner of `c_lock`. */
  datatype Connection = Connection(arg: Name, status: Status, lock: Option<Tid>)

  /** Where a thread stands; the numbers are lines of lib/be_cpool.c. */
  datatype Pc =
    | Away
    | PushNew(arg: Name)               // 149-156: found room
    | PushWait(con: Con)               // 158: owns the new connection's lock, waits for the pool
    | PushLink(con: Con)               // 160-174
    | PushLeave(con: Con)              // 176
    | GetWait(arg: Name)               // 202
    | GetScan(arg: Name, k: nat)       // 204-208
    | GetLock(con: Con, arg: Name)     // 213: owns the pool, waits for the connection
    | GetTake(con: Con, arg: Name)     // 215-236
    | GetLeave(got: Option<Con>, arg: Name) // 241
    | ReturnFree(con: Con)             // 256
    | ReturnUnlock(con: Con)           // 257

  /**
   * The list from head to tail, every connection ever made, the owner of the pool lock, the pool's size
   * and limit, when each connection was last acquired, and each thread with the connections it has.
   */
  datatype State = State(
    list: seq<Con>, cons: map<Con, Connection>, pool: Option<Tid>, size: nat, max: nat,
    clock: nat, acquired: map<Con, nat>, pc: map<Tid, Pc>, held: map<Tid, set<Con>>)

  datatype Event = Push(t: Tid, arg: Name) | Get(t: Tid, arg: Name) | Return(t: Tid, con: Con) | Go(t: Tid)

  function Init(threads: set<Tid>, max: nat): State {
    State([], map[], None, 0, max, 0, map[], map t | t in threads :: Away, map t | t in threads :: {})
  }

  function At(s: State, t: Tid, q: Pc): State {
    s.(pc := s.pc[t := q])
  }

  function SetStatus(s: State, b: Con, st: Status): State
    requires b in s.cons
  {
    s.(cons := s.cons[b := s.cons[b].(status := st)])
  }

  function SetLock(s: State, b: Con, owner: Option<Tid>): State
    requires b in s.cons
  {
    s.(cons := s.cons[b := s.cons[b].(lock := owner)])
  }

  /** The list without the connection `b`. */
  function Drop(list: seq<Con>, b: Con): seq<Con> {
    if list == [] then [] else if list[0] == b then list[1..] else [list[0]] + Drop(list[1..], b)
  }

  function EnterPool(s: State, t: Tid, q: Pc): Option<State> {
    if s.pool.None? then Some(At(s, t, q).(pool := Some(t))) else None
  }

  function Hold(s: State, t: Tid, b: Con): State
    requires t in s.held
  {
    s.(held := s.held[t := s.held[t] + {b}])
  }

  /** The name of the next new connection. */
  function Fresh(s: State): Con {
    |s.cons|
  }

  /** One step inside `becon_push`; None if the thread has to wait. */
  function StepPush(s: State, t: Tid): Option<State>
    requires t in s.pc && t in s.held
  {
    match s.pc[t]
    case PushNew(arg) =>
      Some(At(s, t, PushWait(Fresh(s))).(cons := s.cons[Fresh(s) := Connection(arg, Active, Some(t))]))
    case PushWait(b) => EnterPool(s, t, PushLink(b))
    case PushLink(b) =>
      Some(At(s, t, PushLeave(b)).(
        list := s.list + [b], size := s.size + 1, clock := s.clock + 1, acquired := s.acquired[b := s.clock]))
    case PushLeave(b) => Some(Hold(At(s, t, Away), t, b).(pool := None))
    case _ => None
  }

  /** One step inside `becon_get`. */
  function StepGet(s: State, t: Tid): Option<State>
    requires t in s.pc && t in s.held
  {
    match s.pc[t]
    case GetWait(arg) => EnterPool(s, t, GetScan(arg, 0))
    case GetScan(arg, k) =>
      if k >= |s.list| then Some(At(s, t, GetLeave(None, arg)))
      else if s.list[k] in s.cons && s.cons[s.list[k]].arg == arg && s.cons[s.list[k]].status.Free?
      then Some(At(s, t, GetLock(s.list[k], arg)))
      else Some(At(s, t, GetScan(arg, k + 1)))
    case GetLock(b, arg) =>
      if b in s.cons && s.cons[b].lock.None? then Some(SetLock(At(s, t, GetTake(b, arg)), b, Some(t))) else None
    case GetTake(b, arg) =>
      if b !in s.cons then None
      else Some(SetStatus(At(s, t, GetLeave(Some(b), arg)), b, Active).(
        list := Drop(s.list, b) + [b], clock := s.clock + 1, acquired := s.acquired[b := s.clock]))
    case GetLeave(got, _) =>
      Some((if got.Some? then Hold(At(s, t, Away), t, got.value) else At(s, t, Away)).(pool := None))
    case _ => None
  }

  /** One step inside `becon_return`. */
  function StepReturn(s: State, t: Tid): Option<State>
    requires t in s.pc && t in s.held
  {
    match s.pc[t]
    case ReturnFree(b) => if b in s.cons then Some(SetStatus(At(s, t, ReturnUnlock(b)), b, Free)) else None
    case ReturnUnlock(b) => if b in s.cons then Some(SetLock(At(s, t, Away), b, None)) else None
    case _ => None
  }

  predicate Pushing(q: Pc) {
    q.PushNew? || q.PushWait? || q.PushLink? || q.PushLeave?
  }

  predicate Returning(q: Pc) {
    q.ReturnFree? || q.ReturnUnlock?
  }

  function Step(s: State, t: Tid): Option<State>
    requires t in s.pc && t in s.held
  {
    if Pushing(s.pc[t]) then StepPush(s, t) else if Returning(s.pc[t]) then StepReturn(s, t) else StepGet(s, t)
  }

  function Do(s: State, e: Event): Option<State> {
    if e.t !in s.pc || e.t !in s.held then None else
    match e
    case Push(t, arg) =>
      if !s.pc[t].Away? then None
      else if s.size == s.max then Some(s)
      else Some(At(s, t, PushNew(arg)))
    case Get(t, arg) => if s.pc[t].Away? then Some(At(s, t, GetWait(arg))) else None
    case Return(t, b) =>
      if s.pc[t].Away? && b in s.held[t]
      then Some(At(s, t, ReturnFree(b)).(held := s.held[t := s.held[t] - {b}]))
      else None
    case Go(t) => Step(s, t)
  }

  function Run(s: State, es: seq<Event>): Option<State>
    decreases |es|
  {
    if es == [] then Some(s)
    else
      var n := Do(s, es[0]);
      if n.None? then None else Run(n.value, es[1..])
  }

  // ----- the invariant -----

  predicate HoldsPool(q: Pc) {
    q.PushLink? || q.PushLeave? || q.GetScan? || q.GetLock? || q.GetTake? || q.GetLeave?
  }

  /** The connection whose lock the thread owns inside the code. */
  function InHand(q: Pc): Option<Con> {
    match q
    case PushWait(b) => Some(b)
    case PushLink(b) => Some(b)
    case PushLeave(b) => Some(b)
    case GetTake(b, _) => Some(b)
    case GetLeave(got, _) => got
    case ReturnFree(b) => Some(b)
    case ReturnUnlock(b) => Some(b)
    case _ => None
  }

  /** Thread `t` has the connection: it was given to it, or it is on its way to or from it. */
  ghost predicate Has(s: State, t: Tid, b: Con) {
    (t in s.held && b in s.held[t]) || (t in s.pc && InHand(s.pc[t]) == Some(b))
  }

  ghost predicate PoolInv(s: State) {
    && s.held.Keys == s.pc.Keys
    && (s.pool.Some? ==> s.pool.value in s.pc)
    && (forall t :: t in s.pc ==> (HoldsPool(s.pc[t]) <==> s.pool == Some(t)))
  }

  /** Connections are numbered in the order they were made, and the lock of each is owned by the thread that has it. */
  ghost predicate LockInv(s: State) {
    && (forall b: Con :: b in s.cons <==> b < |s.cons|)
    && (forall t: Tid, b: Con :: Has(s, t, b) <==> b in s.cons && s.cons[b].lock == Some(t))
    && (forall t :: t in s.pc && t in s.held && InHand(s.pc[t]).Some? ==> InHand(s.pc[t]).value !in s.held[t])
  }

  /** The thread is between marking the connection and releasing it, or between locking and marking it. */
  predicate Finishing(s: State, t: Tid, b: Con) {
    t in s.pc && (s.pc[t].ReturnUnlock? || s.pc[t].GetTake?) && s.pc[t].con == b
  }

  /** A connection marked free is unlocked, or its owner is just finishing a return or a get. */
  ghost predicate StatusInv(s: State) {
    && (forall b :: b in s.cons && s.cons[b].status.Free? ==>
        s.cons[b].lock.None? || Finishing(s, s.cons[b].lock.value, b))
    && (forall t :: t in s.pc && (s.pc[t].GetLock? || s.pc[t].GetTake? || s.pc[t].ReturnUnlock?) ==>
        s.pc[t].con in s.cons && s.cons[s.pc[t].con].status.Free?)
  }

  ghost predicate Ordered(list: seq<Con>, acquired: map<Con, nat>)
    requires forall b :: b in list ==> b in acquired
  {
    forall i, j :: 0 <= i < j < |list| ==> acquired[list[i]] < acquired[list[j]]
  }

  /** The list has no duplicates and is ordered by last acquisition. */
  ghost predicate ListOk(s: State) {
    && Distinct(s.list)
    && (forall b :: b in s.list ==> b in s.cons && b in s.acquired && s.acquired[b] < s.clock)
    && Ordered(s.list, s.acquired)
  }

  ghost predicate ListInv(s: State) {
    && ListOk(s)
    && (forall t :: t in s.pc && (s.pc[t].PushWait? || s.pc[t].PushLink?) ==> s.pc[t].con !in s.list)
    && (forall t :: t in s.pc && (s.pc[t].GetLock? || s.pc[t].GetTake?) ==> s.pc[t].con in s.list)
  }

  /** A connection on its way to a caller of `becon_get` has the name that was asked for. */
  ghost predicate NameInv(s: State) {
    && (forall t :: t in s.pc && (s.pc[t].GetLock? || s.pc[t].GetTake?) ==>
        s.pc[t].con in s.cons && s.cons[s.pc[t].con].arg == s.pc[t].arg)
    && (forall t :: t in s.pc && s.pc[t].GetLeave? && s.pc[t].got.Some? ==>
        s.pc[t].got.value in s.cons && s.cons[s.pc[t].got.value].arg == s.pc[t].arg)
  }

  ghost predicate Inv(s: State) {
    PoolInv(s) && LockInv(s) && StatusInv(s) && ListInv(s) && NameInv(s)
  }

  lemma InitInv(threads: set<Tid>, max: nat)
    ensures Inv(Init(threads, max))
  {
  }

  /** A step moves one thread, and changes at most the connections that this thread has or waits for. */
  ghost predicate Local(s: State, s': State, t: Tid) {
    && s'.pc.Keys == s.pc.Keys && s'.held.Keys == s.held.Keys && s.cons.Keys <= s'.cons.Keys
    && (forall u :: u in s.pc && u != t ==> s'.pc[u] == s.pc[u])
    && (forall u :: u in s.held && u != t ==> s'.held[u] == s.held[u])
  }

  lemma StepLocal(s: State, e: Event)
    requires Do(s, e).Some?
    ensures e.t in s.pc && e.t in s.held && Local(s, Do(s, e).value, e.t)
  {
    if e.Go? { GoLocal(s, e.t); }
  }

  lemma GoLocal(s: State, t: Tid)
    requires t in s.pc && t in s.held && Step(s, t).Some?
    ensures Local(s, Step(s, t).value, t)
  {
    hide Local;
    if StepPush(s, t).Some? { PushLocal(s, t); }
    if StepGet(s, t).Some? { GetLocal(s, t); }
    if StepReturn(s, t).Some? { ReturnLocal(s, t); }
  }

  lemma PushLocal(s: State, t: Tid)
    requires t in s.pc && t in s.held && StepPush(s, t).Some?
    ensures Local(s, StepPush(s, t).value, t)
  {
  }

  lemma GetLocal(s: State, t: Tid)
    requires t in s.pc && t in s.held && StepGet(s, t).Some?
    ensures Local(s, StepGet(s, t).value, t)
  {
    hide Drop;
  }

  lemma ReturnLocal(s: State, t: Tid)
    requires t in s.pc && t in s.held && StepReturn(s, t).Some?
    ensures Local(s, StepReturn(s, t).value, t)
  {
  }

  ghost predicate PoolMoves(s: State, s': State, t: Tid)
    requires t in s'.pc
  {
    && (HoldsPool(s'.pc[t]) <==> s'.pool == Some(t))
    && (s'.pool == s.pool || ((s.pool == None || s.pool == Some(t)) && (s'.pool == None || s'.pool == Some(t))))
  }

  lemma PoolMove(s: State, e: Event)
    requires PoolInv(s) && Do(s, e).Some?
    ensures e.t in s.pc && PoolMoves(s, Do(s, e).value, e.t)
  {
    if e.Go? {
      if Pushing(s.pc[e.t]) {
        PushPool(s, e.t);
      } else if StepGet(s, e.t).Some? {
        GetPool(s, e.t);
      }
    }
    hide Drop, StepGet, StepPush;
  }

  lemma PushPool(s: State, t: Tid)
    requires PoolInv(s) && t in s.pc && StepPush(s, t).Some?
    ensures PoolMoves(s, StepPush(s, t).value, t)
  {
  }

  lemma GetPool(s: State, t: Tid)
    requires PoolInv(s) && t in s.pc && StepGet(s, t).Some?
    ensures PoolMoves(s, StepGet(s, t).value, t)
  {
    hide Drop;
  }

  lemma KeepsPool(s: State, e: Event)
    requires PoolInv(s) && Do(s, e).Some?
    ensures PoolInv(Do(s, e).value)
  {
    hide Do;
    StepLocal(s, e);
    PoolMove(s, e);
  }

  /** What `LockInv` says about the moving thread, and that the locks of the others are untouched. */
  ghost predicate LockMoves(s: State, s': State, t: Tid) {
    && (forall b: Con :: b in s'.cons <==> b < |s'.cons|)
    && (forall b: Con :: Has(s', t, b) <==> b in s'.cons && s'.cons[b].lock == Some(t))
    && (forall u: Tid, b: Con :: u != t ==>
        ((b in s'.cons && s'.cons[b].lock == Some(u)) <==> (b in s.cons && s.cons[b].lock == Some(u))))
    && (t in s'.pc && t in s'.held && InHand(s'.pc[t]).Some? ==> InHand(s'.pc[t]).value !in s'.held[t])
  }

  lemma PushLocks(s: State, t: Tid)
    requires LockInv(s) && t in s.pc && t in s.held && StepPush(s, t).Some?
    ensures LockMoves(s, StepPush(s, t).value, t)
  {
    OwnCase(s, t);
    if s.pc[t].PushNew? {
      NewLocks(s, t);
    }
  }

  lemma NewLocks(s: State, t: Tid)
    requires LockInv(s) && t in s.pc && t in s.held && s.pc[t].PushNew?
    ensures LockMoves(s, StepPush(s, t).value, t)
  {
    var b0, c := Fresh(s), Connection(s.pc[t].arg, Active, Some(t));
    NewKey(s.cons, b0, c);
    assert Fresh(s) !in s.cons && !Has(s, t, b0);
    var s' := StepPush(s, t).value;
    assert s'.cons == s.cons[b0 := c] && s'.held == s.held && s'.pc == s.pc[t := PushWait(b0)];
    assert forall b: Con :: Has(s', t, b) <==> Has(s, t, b) || b == b0;
    OwnCase(s, t);
    hide LockInv, StepPush, Has, Fresh;
  }

  lemma GetLocks(s: State, t: Tid)
    requires LockInv(s) && t in s.pc && t in s.held && StepGet(s, t).Some?
    ensures LockMoves(s, StepGet(s, t).value, t)
  {
    OwnCase(s, t);
    if s.pc[t].GetLock? || s.pc[t].GetTake? {
      TakeLocks(s, t);
    } else {
      ScanLocks(s, t);
    }
  }

  lemma TakeLocks(s: State, t: Tid)
    requires LockInv(s) && t in s.pc && t in s.held && StepGet(s, t).Some?
    requires s.pc[t].GetLock? || s.pc[t].GetTake?
    ensures LockMoves(s, StepGet(s, t).value, t)
  {
    hide Drop;
    var s' := StepGet(s, t).value;
    OwnCase(s, t);
    assert s'.cons.Keys == s.cons.Keys;
    forall b: Con ensures Has(s', t, b) <==> b in s'.cons && s'.cons[b].lock == Some(t) {
      assert Has(s, t, b) <==> b in s.cons && s.cons[b].lock == Some(t);
    }
    hide LockInv;
  }

  lemma ScanLocks(s: State, t: Tid)
    requires LockInv(s) && t in s.pc && t in s.held && StepGet(s, t).Some?
    requires !s.pc[t].GetLock? && !s.pc[t].GetTake?
    ensures LockMoves(s, StepGet(s, t).value, t)
  {
    hide Drop;
    var s' := StepGet(s, t).value;
    OwnCase(s, t);
    assert s'.cons == s.cons;
    forall b: Con ensures Has(s', t, b) <==> b in s'.cons && s'.cons[b].lock == Some(t) {
      assert Has(s, t, b) <==> b in s.cons && s.cons[b].lock == Some(t);
    }
    hide LockInv;
  }

  lemma ReturnLocks(s: State, t: Tid)
    requires LockInv(s) && t in s.pc && t in s.held && StepReturn(s, t).Some?
    ensures LockMoves(s, StepReturn(s, t).value, t)
  {
    OwnCase(s, t);
    var s' := StepReturn(s, t).value;
    assert s'.cons.Keys == s.cons.Keys;
  }

  /** `LockInv` for one thread. */
  lemma OwnCase(s: State, t: Tid)
    requires LockInv(s)
    ensures forall b: Con :: Has(s, t, b) <==> b in s.cons && s.cons[b].lock == Some(t)
  {
  }

  lemma CallLocks(s: State, e: Event)
    requires LockInv(s) && Do(s, e).Some? && !e.Go?
    ensures LockMoves(s, Do(s, e).value, e.t)
  {
    OwnCase(s, e.t);
    assert Do(s, e).value.cons == s.cons;
  }

  lemma NewKey<K, V>(m: map<K, V>, k: K, v: V)
    requires k !in m
    ensures |m[k := v]| == |m| + 1
  {
    assert m[k := v].Keys == m.Keys + {k};
    assert |m[k := v].Keys| == |m.Keys| + 1;
  }

  lemma StepLocks(s: State, e: Event)
    requires LockInv(s) && Do(s, e).Some?
    ensures LockMoves(s, Do(s, e).value, e.t)
  {
    hide LockMoves, LockInv;
    if !e.Go? {
      CallLocks(s, e);
    } else if Pushing(s.pc[e.t]) {
      PushLocks(s, e.t);
    } else if Returning(s.pc[e.t]) {
      ReturnLocks(s, e.t);
    } else {
      GetLocks(s, e.t);
    }
  }

  lemma OtherHas(s: State, s': State, t: Tid, u: Tid, b: Con)
    requires Local(s, s', t) && u != t
    ensures Has(s', u, b) <==> Has(s, u, b)
  {
  }

  lemma KeepsLock(s: State, e: Event)
    requires PoolInv(s) && LockInv(s) && Do(s, e).Some?
    ensures LockInv(Do(s, e).value)
  {
    hide Do, Has;
    var s' := Do(s, e).value;
    StepLocal(s, e);
    StepLocks(s, e);
    forall t: Tid, b: Con ensures Has(s', t, b) <==> b in s'.cons && s'.cons[b].lock == Some(t) {
      if t != e.t {
        OtherHas(s, s', e.t, t, b);
        OwnCase(s, t);
      }
    }
    forall t | t in s'.pc && t in s'.held && InHand(s'.pc[t]).Some? ensures InHand(s'.pc[t]).value !in s'.held[t] {
      if t != e.t {
        assert s'.pc[t] == s.pc[t] && s'.held[t] == s.held[t];
      }
    }
  }

  /** What `StatusInv` says about the moving thread, and which status fields it may have written. */
  ghost predicate StatusMoves(s: State, s': State, t: Tid) {
    && (forall b :: b in s'.cons && s'.cons[b].status.Free? ==>
        || s'.cons[b].lock.None?
        || (s'.cons[b].lock == Some(t) && Finishing(s', t, b))
        || (s'.cons[b].lock != Some(t) && b in s.cons && s.cons[b] == s'.cons[b]))
    && (forall b :: b in s.cons && s.cons[b].status.Free? ==>
        (b in s'.cons && s'.cons[b].status.Free?) || (t in s.pc && s.pc[t].GetTake? && s.pc[t].con == b))
    && (t in s'.pc && (s'.pc[t].GetLock? || s'.pc[t].GetTake? || s'.pc[t].ReturnUnlock?) ==>
        s'.pc[t].con in s'.cons && s'.cons[s'.pc[t].con].status.Free?)
  }

  lemma GoStatus(s: State, t: Tid)
    requires LockInv(s) && StatusInv(s) && t in s.pc && t in s.held && Step(s, t).Some?
    ensures StatusMoves(s, Step(s, t).value, t)
  {
    hide Drop;
    OwnCase(s, t);
    if StepReturn(s, t).Some? {
      ReturnStatus(s, t);
    } else if StepGet(s, t).Some? {
      GetStatus(s, t);
    } else if s.pc[t].PushNew? {
      assert Fresh(s) !in s.cons;
      hide LockInv;
    } else {
      assert Step(s, t).value.cons == s.cons;
    }
  }

  lemma ReturnStatus(s: State, t: Tid)
    requires LockInv(s) && StatusInv(s) && t in s.pc && t in s.held && StepReturn(s, t).Some?
    ensures StatusMoves(s, StepReturn(s, t).value, t)
  {
    OwnCase(s, t);
    assert Has(s, t, s.pc[t].con);
  }

  lemma GetStatus(s: State, t: Tid)
    requires LockInv(s) && StatusInv(s) && t in s.pc && t in s.held && StepGet(s, t).Some?
    ensures StatusMoves(s, StepGet(s, t).value, t)
  {
    if s.pc[t].GetTake? {
      TakeStatus(s, t);
    } else {
      ScanStatus(s, t);
    }
  }

  lemma TakeStatus(s: State, t: Tid)
    requires LockInv(s) && StatusInv(s) && t in s.pc && t in s.held && StepGet(s, t).Some? && s.pc[t].GetTake?
    ensures StatusMoves(s, StepGet(s, t).value, t)
  {
    hide Drop;
    OwnCase(s, t);
    assert Has(s, t, s.pc[t].con);
  }

  lemma ScanStatus(s: State, t: Tid)
    requires LockInv(s) && StatusInv(s) && t in s.pc && t in s.held && StepGet(s, t).Some? && !s.pc[t].GetTake?
    ensures StatusMoves(s, StepGet(s, t).value, t)
  {
    hide Drop;
    OwnCase(s, t);
  }

  lemma StepStatus(s: State, e: Event)
    requires LockInv(s) && StatusInv(s) && Do(s, e).Some?
    ensures StatusMoves(s, Do(s, e).value, e.t)
  {
    if e.Go? {
      GoStatus(s, e.t);
    } else {
      OwnCase(s, e.t);
    }
  }

  lemma KeepsStatus(s: State, e: Event)
    requires PoolInv(s) && LockInv(s) && StatusInv(s) && Do(s, e).Some?
    ensures StatusInv(Do(s, e).value)
  {
    hide Do;
    var s', t := Do(s, e).value, e.t;
    StepLocal(s, e);
    StepStatus(s, e);
    forall u | u in s'.pc && (s'.pc[u].GetLock? || s'.pc[u].GetTake? || s'.pc[u].ReturnUnlock?)
      ensures s'.pc[u].con in s'.cons && s'.cons[s'.pc[u].con].status.Free?
    {
      if u != t {
        var b := s.pc[u].con;
        assert s.pc[u].ReturnUnlock? ==> Has(s, u, b);
        assert s.pc[t].GetTake? ==> HoldsPool(s.pc[t]) && Has(s, t, s.pc[t].con);
      }
    }
  }

  // ----- the list -----

  /** Taking a connection out of the list is what the relinking in `becon_get` does before it appends. */
  lemma {:induction false} DropAt(list: seq<Con>, k: nat)
    requires Distinct(list) && k < |list|
    ensures Drop(list, list[k]) == list[..k] + list[k + 1..]
  {
    if k > 0 {
      DropAt(list[1..], k - 1);
      assert list[1..][..k - 1] == list[1..k] && list[1..][k..] == list[k + 1..];
      assert list[..k] == [list[0]] + list[1..k];
    }
  }

  lemma DropFacts(list: seq<Con>, b: Con)
    requires Distinct(list) && b in list
    ensures Distinct(Drop(list, b)) && forall x :: x in Drop(list, b) <==> x in list && x != b
  {
    var k :| 0 <= k < |list| && list[k] == b;
    DropAt(list, k);
    forall x | x in list && x != b ensures x in list[..k] + list[k + 1..] {
      var i :| 0 <= i < |list| && list[i] == x;
      assert x == (list[..k] + list[k + 1..])[if i < k then i else i - 1];
    }
  }

  lemma MoveToEndOrdered(list: seq<Con>, b: Con, acquired: map<Con, nat>, now: nat)
    requires Distinct(list) && b in list && (forall x :: x in list ==> x in acquired && acquired[x] < now)
    requires Ordered(list, acquired)
    ensures (forall x :: x in Drop(list, b) + [b] ==> x in acquired[b := now])
    ensures Ordered(Drop(list, b) + [b], acquired[b := now]) && Distinct(Drop(list, b) + [b])
  {
    DropFacts(list, b);
    var k :| 0 <= k < |list| && list[k] == b;
    DropAt(list, k);
    hide Drop;
    assert forall x :: x in Drop(list, b) + [b] ==> x in Drop(list, b) || x == b;
    RotatedOrdered(list, k, Drop(list, b) + [b], acquired, now);
  }

  lemma RotatedOrdered(list: seq<Con>, k: nat, d: seq<Con>, acquired: map<Con, nat>, now: nat)
    requires k < |list| && (forall x :: x in list ==> x in acquired && acquired[x] < now)
    requires Ordered(list, acquired) && d == list[..k] + list[k + 1..] + [list[k]]
    ensures forall x :: x in d ==> x in acquired[list[k] := now]
    ensures Ordered(d, acquired[list[k] := now])
  {
    var acq := acquired[list[k] := now];
    forall i, j | 0 <= i < j < |d| ensures acq[d[i]] < acq[d[j]] {
      var i', j' := if i < k then i else i + 1, if j < k then j else j + 1;
      assert d[i] == list[i'] && list[i'] in list;
      assert acquired[list[i']] != acquired[list[k]];
      if j < |list| - 1 {
        assert d[j] == list[j'];
        assert acquired[list[j']] != acquired[list[k]];
      }
    }
  }

  lemma AppendOrdered(list: seq<Con>, b: Con, acquired: map<Con, nat>, now: nat)
    requires Distinct(list) && b !in list && (forall x :: x in list ==> x in acquired && acquired[x] < now)
    requires Ordered(list, acquired)
    ensures (forall x :: x in list + [b] ==> x in acquired[b := now])
    ensures Ordered(list + [b], acquired[b := now]) && Distinct(list + [b])
  {
  }

  lemma StepList(s: State, e: Event)
    requires ListInv(s) && LockInv(s) && Do(s, e).Some?
    ensures ListOk(Do(s, e).value) && ListMoves(s, Do(s, e).value, e)
  {
    hide Ordered, Drop, ListOk, ListMoves;
    if e.Go? && s.pc[e.t].PushLink? {
      LinkList(s, e.t);
    } else if e.Go? && s.pc[e.t].GetTake? {
      hide LockInv;
      TakeList(s, e.t);
    } else {
      hide LockInv;
      SameList(s, e);
    }
  }

  lemma LinkList(s: State, t: Tid)
    requires ListInv(s) && LockInv(s) && t in s.pc && t in s.held && s.pc[t].PushLink?
    ensures ListOk(Step(s, t).value) && ListMoves(s, Step(s, t).value, Go(t))
  {
    hide Ordered;
    assert Has(s, t, s.pc[t].con);
    hide LockInv;
    AppendOrdered(s.list, s.pc[t].con, s.acquired, s.clock);
  }

  lemma TakeList(s: State, t: Tid)
    requires ListInv(s) && t in s.pc && t in s.held && s.pc[t].GetTake? && s.pc[t].con in s.cons
    ensures ListOk(Step(s, t).value) && ListMoves(s, Step(s, t).value, Go(t))
  {
    hide Ordered, Drop;
    MoveToEndOrdered(s.list, s.pc[t].con, s.acquired, s.clock);
    DropFacts(s.list, s.pc[t].con);
  }

  lemma SameList(s: State, e: Event)
    requires ListInv(s) && Do(s, e).Some? && !(e.Go? && (s.pc[e.t].PushLink? || s.pc[e.t].GetTake?))
    ensures ListOk(Do(s, e).value) && ListMoves(s, Do(s, e).value, e)
  {
    StepLocal(s, e);
    SameListFields(s, e);
    hide Ordered, Drop, Do;
  }

  lemma SameListFields(s: State, e: Event)
    requires Do(s, e).Some? && !(e.Go? && (s.pc[e.t].PushLink? || s.pc[e.t].GetTake?))
    ensures var s' := Do(s, e).value; s'.list == s.list && s'.acquired == s.acquired && s'.clock == s.clock
  {
    hide Drop;
  }

  /** Only linking a new connection changes which connections are in the list. */
  ghost predicate ListMoves(s: State, s': State, e: Event) {
    forall x: Con :: x in s'.list <==> x in s.list || (e.Go? && e.t in s.pc && s.pc[e.t] == PushLink(x))
  }

  /** Where the moving thread goes, as far as the list is concerned. */
  lemma ListSelf(s: State, e: Event)
    requires ListInv(s) && LockInv(s) && Do(s, e).Some?
    ensures var (s', t) := (Do(s, e).value, e.t);
      && (s'.pc[t].PushWait? || s'.pc[t].PushLink? ==> s'.pc[t].con !in s.list && s.pc[t] != PushLink(s'.pc[t].con))
      && (s'.pc[t].GetLock? || s'.pc[t].GetTake? ==> s'.pc[t].con in s.list)
  {
    hide Drop, Ordered;
    if e.Go? { GoListSelf(s, e.t); }
  }

  lemma GoListSelf(s: State, t: Tid)
    requires ListInv(s) && LockInv(s) && t in s.pc && t in s.held && Step(s, t).Some?
    ensures var s' := Step(s, t).value;
      && (s'.pc[t].PushWait? || s'.pc[t].PushLink? ==> s'.pc[t].con !in s.list && s.pc[t] != PushLink(s'.pc[t].con))
      && (s'.pc[t].GetLock? || s'.pc[t].GetTake? ==> s'.pc[t].con in s.list)
  {
    hide Drop, Ordered;
    if s.pc[t].PushNew? { assert Fresh(s) !in s.cons; }
    hide LockInv;
  }

  lemma KeepsList(s: State, e: Event)
    requires LockInv(s) && ListInv(s) && Do(s, e).Some?
    ensures ListInv(Do(s, e).value)
  {
    hide Do, ListOk;
    var s', t := Do(s, e).value, e.t;
    StepLocal(s, e);
    StepList(s, e);
    ListSelf(s, e);
    forall u | u in s'.pc && (s'.pc[u].PushWait? || s'.pc[u].PushLink?) ensures s'.pc[u].con !in s'.list {
      var b := s'.pc[u].con;
      if u != t {
        assert Has(s, u, b);
        assert s.pc[t] == PushLink(b) ==> Has(s, t, b);
      }
    }
  }

  /** No step changes the name of a connection. */
  ghost predicate NamesKept(s: State, s': State) {
    forall b :: b in s.cons ==> b in s'.cons && s'.cons[b].arg == s.cons[b].arg
  }

  /** What the moving thread carries away has the name that was asked for. */
  ghost predicate NameMoves(s': State, t: Tid)
    requires t in s'.pc
  {
    && (s'.pc[t].GetLock? || s'.pc[t].GetTake? ==> s'.pc[t].con in s'.cons && s'.cons[s'.pc[t].con].arg == s'.pc[t].arg)
    && (s'.pc[t].GetLeave? && s'.pc[t].got.Some? ==>
        s'.pc[t].got.value in s'.cons && s'.cons[s'.pc[t].got.value].arg == s'.pc[t].arg)
  }

  lemma GetNames(s: State, t: Tid)
    requires NameInv(s) && t in s.pc && t in s.held && StepGet(s, t).Some?
    ensures NamesKept(s, StepGet(s, t).value) && NameMoves(StepGet(s, t).value, t)
  {
    hide Drop;
  }

  lemma NameMove(s: State, e: Event)
    requires NameInv(s) && LockInv(s) && Do(s, e).Some?
    ensures e.t in Do(s, e).value.pc && NamesKept(s, Do(s, e).value) && NameMoves(Do(s, e).value, e.t)
  {
    if e.Go? && !Pushing(s.pc[e.t]) && !Returning(s.pc[e.t]) {
      hide LockInv;
      GetNames(s, e.t);
    } else if e.Go? && s.pc[e.t].PushNew? {
      assert Fresh(s) !in s.cons;
      hide LockInv;
    } else {
      hide LockInv;
    }
  }

  lemma KeepsName(s: State, e: Event)
    requires NameInv(s) && LockInv(s) && Do(s, e).Some?
    ensures NameInv(Do(s, e).value)
  {
    hide Do;
    StepLocal(s, e);
    NameMove(s, e);
  }

  // ----- theorems over all runs -----

  lemma DoKeepsInv(s: State, e: Event)
    requires Inv(s) && Do(s, e).Some?
    ensures Inv(Do(s, e).value)
  {
    hide PoolInv, LockInv, StatusInv, ListInv, NameInv, Do;
    KeepsPool(s, e);
    KeepsLock(s, e);
    KeepsStatus(s, e);
    KeepsList(s, e);
    KeepsName(s, e);
  }

  lemma {:induction false} RunKeepsInv(s: State, es: seq<Event>)
    requires Inv(s) && Run(s, es).Some?
    ensures Inv(Run(s, es).value)
    decreases |es|
  {
    hide Inv, Do;
    if es != [] {
      DoKeepsInv(s, es[0]);
      RunKeepsInv(Do(s, es[0]).value, es[1..]);
    }
  }

  /** A state that some run reaches. */
  ghost predicate Reachable(threads: set<Tid>, max: nat, s: State) {
    exists es :: Run(Init(threads, max), es) == Some(s)
  }

  lemma ReachableInv(threads: set<Tid>, max: nat, s: State)
    requires Reachable(threads, max, s)
    ensures Inv(s)
  {
    var es :| Run(Init(threads, max), es) == Some(s);
    InitInv(threads, max);
    RunKeepsInv(Init(threads, max), es);
  }

  /** No two threads have the same backend connection. */
  lemma NoSharedConnection(threads: set<Tid>, max: nat, s: State, t: Tid, u: Tid, b: Con)
    requires Reachable(threads, max, s) && Has(s, t, b) && Has(s, u, b)
    ensures t == u
  {
    ReachableInv(threads, max, s);
    OwnCase(s, t);
    OwnCase(s, u);
  }

  /** A getter that waits for a connection lock waits only for a thread that is finishing its return. */
  lemma GetterWaitsForReturn(threads: set<Tid>, max: nat, s: State, t: Tid)
    requires Reachable(threads, max, s) && t in s.pc && s.pc[t].GetLock?
    ensures s.pc[t].con in s.cons
    ensures var lock := s.cons[s.pc[t].con].lock;
      lock.None? || (lock.value in s.pc && s.pc[lock.value] == ReturnUnlock(s.pc[t].con))
  {
    ReachableInv(threads, max, s);
    var b := s.pc[t].con;
    var lock := s.cons[b].lock;
    if lock.Some? {
      assert Finishing(s, lock.value, b);
      assert HoldsPool(s.pc[t]);
      assert s.pc[lock.value].GetTake? ==> HoldsPool(s.pc[lock.value]);
    }
  }

  /** `becon_get` hands out connections of the requested name only. */
  lemma GetReturnsNamed(threads: set<Tid>, max: nat, s: State, t: Tid)
    requires Reachable(threads, max, s) && t in s.pc && s.pc[t].GetLeave? && s.pc[t].got.Some?
    ensures s.pc[t].got.value in s.cons && s.cons[s.pc[t].got.value].arg == s.pc[t].arg
    ensures s.cons[s.pc[t].got.value].lock == Some(t)
  {
    ReachableInv(threads, max, s);
    assert Has(s, t, s.pc[t].got.value);
  }

  /** The list has no duplicates and is ordered by last acquisition. */
  lemma ListOrderedByAcquisition(threads: set<Tid>, max: nat, s: State)
    requires Reachable(threads, max, s)
    ensures Distinct(s.list) && (forall b :: b in s.list ==> b in s.acquired) && Ordered(s.list, s.acquired)
  {
    ReachableInv(threads, max, s);
  }

  /** No thread inside the code can make a step. */
  ghost predicate Stuck(s: State) {
    forall t :: t in s.pc && t in s.held ==> Step(s, t).None?
  }

  /** The opposite lock orders of push and get cannot deadlock: when nothing moves, nobody is inside the code. */
  lemma NoDeadlock(threads: set<Tid>, max: nat, s: State)
    requires Reachable(threads, max, s) && Stuck(s)
    ensures forall t :: t in s.pc ==> s.pc[t].Away?
  {
    hide Drop;
    ReachableInv(threads, max, s);
    if s.pool.Some? {
      var t := s.pool.value;
      if s.pc[t].GetLock? {
        GetterWaitsForReturn(threads, max, s, t);
        var lock := s.cons[s.pc[t].con].lock;
        if lock.Some? { ReturnMoves(s, lock.value); }
      }
      OwnerMoves(s, t);
    }
    forall t | t in s.pc ensures s.pc[t].Away? {
      if !s.pc[t].Away? { InsideMoves(s, t); }
    }
  }

  lemma ReturnMoves(s: State, t: Tid)
    requires t in s.pc && t in s.held && s.pc[t].ReturnUnlock? && s.pc[t].con in s.cons
    ensures Step(s, t).Some?
  {
  }

  lemma OwnerMoves(s: State, t: Tid)
    requires Inv(s) && t in s.pc && HoldsPool(s.pc[t])
    requires s.pc[t].GetLock? ==> s.pc[t].con in s.cons && s.cons[s.pc[t].con].lock.None?
    ensures t in s.held && Step(s, t).Some?
  {
    hide Drop, ListOk;
    if InHand(s.pc[t]).Some? { assert Has(s, t, InHand(s.pc[t]).value); }
  }

  lemma InsideMoves(s: State, t: Tid)
    requires Inv(s) && t in s.pc && !s.pc[t].Away? && s.pool.None?
    ensures t in s.held && Step(s, t).Some?
  {
    hide Drop, ListOk;
    if InHand(s.pc[t]).Some? { assert Has(s, t, InHand(s.pc[t]).value); }
  }
}
