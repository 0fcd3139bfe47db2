/** What one call of an operation of lib/rdwr.c does when nobody disturbs it. */
module LockCalls {
  import opened Basics
  import opened RwLock

  /** Thread `t` is outside the lock code and nobody has the mutex. */
  ghost predicate Idle(s: State, t: Tid) {
    t in s.pc && s.pc[t].at.Outside? && s.owner.None?
  }

  /** The thread makes `n` steps; the waking ones, if any, are the given sleepers. */
  function Gos(t: Tid, n: nat, woken: set<Tid>): seq<Event> {
    if n == 0 then [] else [Go(t, woken)] + Gos(t, n - 1, woken)
  }

  lemma CallThen(s: State, t: Tid, op: Operation, n: nat, woken: set<Tid>)
    requires Idle(s, t)
    ensures Run(s, [Call(t, op)] + Gos(t, n, woken)) == Run(To(s, t, Entry(op)), Gos(t, n, woken))
  {
    RunCons(s, Call(t, op), Gos(t, n, woken));
  }

  lemma GoThen(s: State, t: Tid, n: nat, woken: set<Tid>, s': State)
    requires n > 0 && t in s.pc && Step(s, t, woken) == Some(s')
    ensures Run(s, Gos(t, n, woken)) == Run(s', Gos(t, n - 1, woken))
  {
    RunCons(s, Go(t, woken), Gos(t, n - 1, woken));
  }

  lemma NoMore(s: State, t: Tid, woken: set<Tid>)
    ensures Run(s, Gos(t, 0, woken)) == Some(s)
  {
  }

  /** The thread stands at `p` with the mutex, everything else is as in `s`. */
  function Inside(s: State, t: Tid, p: Point): State
    requires t in s.pc
  {
    To(s, t, p).(owner := Some(t))
  }

  lemma ToAgain(s: State, t: Tid, p: Point, q: Point)
    requires t in s.pc
    ensures To(To(s, t, p), t, q) == To(s, t, q)
    ensures Idle(s, t) && q.Outside? ==> To(s, t, q) == s
  {
    assert s.pc[t := s.pc[t].(at := p)][t := s.pc[t].(at := q)] == s.pc[t := s.pc[t].(at := q)];
    if Idle(s, t) && q.Outside? { assert s.pc[t := s.pc[t]] == s.pc; }
  }

  /** The call gets hold of the mutex. */
  lemma Enters(s: State, t: Tid, op: Operation, n: nat, woken: set<Tid>)
    requires Idle(s, t)
    ensures Run(s, [Call(t, op)] + Gos(t, n + 1, woken)) == Run(Inside(s, t, Tests(op)), Gos(t, n, woken))
  {
    CallThen(s, t, op, n + 1, woken);
    ToAgain(s, t, Entry(op), Tests(op));
    GoThen(To(s, t, Entry(op)), t, n + 1, woken, Inside(s, t, Tests(op)));
  }

  function Tests(op: Operation): Point {
    match op
    case RLock => RLockTest
    case WLock => WLockTest
    case RUnlock => RUnlockTest
    case WUnlock => WUnlockTest
  }

  /** The thread has the lock `q` describes, and is back outside. */
  function Back(s: State, t: Tid, q: Pc, readers: int, writer: int): State {
    At(s, t, q).(readers := readers, writer := writer)
  }

  lemma LeaveStep(s: State, t: Tid, q: Pc, p: Point)
    requires p.RLockLeave? || p.WLockLeave? || p.RUnlockLeave? || p.WUnlockLeave?
    requires q.at.Outside? && s.owner.None?
    ensures Step(At(s, t, q.(at := p)).(owner := Some(t)), t, {}) == Some(At(s, t, q))
    ensures forall woken :: Step(At(s, t, q.(at := p)).(owner := Some(t)), t, woken) == Some(At(s, t, q))
  {
    assert s.pc[t := q.(at := p)][t := q] == s.pc[t := q];
  }

  /** A read lock is taken at once if and only if nobody writes; otherwise the thread goes to sleep. */
  lemma ReadLock(s: State, t: Tid)
    requires Idle(s, t)
    ensures s.writer == 0 ==>
      Run(s, [Call(t, RLock)] + Gos(t, 4, {})) ==
      Some(Back(s, t, s.pc[t].(shares := s.pc[t].shares + 1), s.readers + 1, 0))
    ensures s.writer != 0 ==> Run(s, [Call(t, RLock)] + Gos(t, 2, {})) == Some(To(s, t, RLockSleep))
  {
    hide Run, Gos;
    var s0 := Inside(s, t, RLockTest);
    if s.writer == 0 {
      Enters(s, t, RLock, 3, {});
      var q, s1 := s.pc[t].(shares := s.pc[t].shares + 1), Inside(s, t, RLockTake);
      ToAgain(s, t, RLockTest, RLockTake);
      GoThen(s0, t, 3, {}, s1);
      var s' := s.(readers := s.readers + 1);
      var s2 := At(s', t, q.(at := RLockLeave)).(owner := Some(t));
      assert Step(s1, t, {}).value.pc == s2.pc;
      GoThen(s1, t, 2, {}, s2);
      LeaveStep(s', t, q, RLockLeave);
      GoThen(s2, t, 1, {}, At(s', t, q));
      NoMore(At(s', t, q), t, {});
    } else {
      Enters(s, t, RLock, 1, {});
      ToAgain(s, t, RLockTest, RLockSleep);
      GoThen(s0, t, 1, {}, To(s, t, RLockSleep));
      NoMore(To(s, t, RLockSleep), t, {});
    }
  }

  /** A write lock is taken at once if and only if nobody writes or reads. */
  lemma WriteLock(s: State, t: Tid)
    requires Idle(s, t)
    ensures s.writer == 0 && s.readers == 0 ==>
      Run(s, [Call(t, WLock)] + Gos(t, 4, {})) == Some(Back(s, t, s.pc[t].(writing := true), 0, 1))
    ensures s.writer != 0 || s.readers != 0 ==>
      Run(s, [Call(t, WLock)] + Gos(t, 2, {})) == Some(To(s, t, WLockSleep))
  {
    hide Run, Gos;
    var s0 := Inside(s, t, WLockTest);
    if s.writer == 0 && s.readers == 0 {
      Enters(s, t, WLock, 3, {});
      var q, s1 := s.pc[t].(writing := true), Inside(s, t, WLockTake);
      ToAgain(s, t, WLockTest, WLockTake);
      GoThen(s0, t, 3, {}, s1);
      var s' := s.(writer := 1);
      var s2 := At(s', t, q.(at := WLockLeave)).(owner := Some(t));
      assert Step(s1, t, {}).value.pc == s2.pc;
      GoThen(s1, t, 2, {}, s2);
      LeaveStep(s', t, q, WLockLeave);
      GoThen(s2, t, 1, {}, At(s', t, q));
      NoMore(At(s', t, q), t, {});
    } else {
      Enters(s, t, WLock, 1, {});
      ToAgain(s, t, WLockTest, WLockSleep);
      GoThen(s0, t, 1, {}, To(s, t, WLockSleep));
      NoMore(To(s, t, WLockSleep), t, {});
    }
  }

  /** An unlock that finds its counter zero changes nothing. */
  lemma FailingUnlock(s: State, t: Tid, op: Operation, woken: set<Tid>)
    requires Idle(s, t) && ((op.RUnlock? && s.readers == 0) || (op.WUnlock? && s.writer == 0))
    ensures Run(s, [Call(t, op)] + Gos(t, 3, woken)) == Some(s)
  {
    hide Run, Gos;
    var fail := if op.RUnlock? then RUnlockFail else WUnlockFail;
    Enters(s, t, op, 2, woken);
    ToAgain(s, t, Tests(op), fail);
    GoThen(Inside(s, t, Tests(op)), t, 2, woken, Inside(s, t, fail));
    ToAgain(s, t, fail, Outside);
    GoThen(Inside(s, t, fail), t, 1, woken, s);
    NoMore(s, t, woken);
  }

  /** A read unlock gives up one share, and wakes somebody if it was the last. */
  lemma ReadUnlock(s: State, t: Tid, woken: set<Tid>)
    requires Idle(s, t) && s.readers != 0 && if s.readers == 1 then Signal(s.pc, woken) else woken == {}
    ensures var q := s.pc[t].(shares := if s.pc[t].shares == 0 then 0 else s.pc[t].shares - 1);
      Run(s, [Call(t, RUnlock)] + Gos(t, 5, woken)) ==
      Some(Back(s.(pc := WakeAll(s.pc, woken)), t, q, s.readers - 1, s.writer))
  {
    hide Run, Gos;
    var q := s.pc[t].(shares := if s.pc[t].shares == 0 then 0 else s.pc[t].shares - 1);
    Enters(s, t, RUnlock, 4, woken);
    var s1 := Inside(s, t, RUnlockDrop);
    ToAgain(s, t, RUnlockTest, RUnlockDrop);
    GoThen(Inside(s, t, RUnlockTest), t, 4, woken, s1);
    var s2 := At(s, t, q.(at := RUnlockSignal)).(readers := s.readers - 1, owner := Some(t));
    assert Step(s1, t, woken).value.pc == s2.pc;
    GoThen(s1, t, 3, woken, s2);
    var s' := s.(pc := WakeAll(s.pc, woken), readers := s.readers - 1);
    var s3 := At(s', t, q.(at := RUnlockLeave)).(owner := Some(t));
    SignalStep(s, t, woken, q);
    hide Step, WakeAll;
    GoThen(s2, t, 2, woken, s3);
    LeaveStep(s', t, q, RUnlockLeave);
    GoThen(s3, t, 1, woken, At(s', t, q));
    NoMore(At(s', t, q), t, woken);
  }

  lemma SignalStep(s: State, t: Tid, woken: set<Tid>, q: Pc)
    requires Idle(s, t) && s.readers != 0 && if s.readers == 1 then Signal(s.pc, woken) else woken == {}
    ensures
      Step(At(s, t, q.(at := RUnlockSignal)).(readers := s.readers - 1, owner := Some(t)), t, woken) ==
      Some(At(s.(pc := WakeAll(s.pc, woken), readers := s.readers - 1), t, q.(at := RUnlockLeave)).(owner := Some(t)))
  {
    var p := q.(at := RUnlockSignal);
    var s2 := At(s, t, p).(readers := s.readers - 1, owner := Some(t));
    assert t !in woken;
    WakesOthers(s.pc, t, woken, p, q.(at := RUnlockLeave));
    if s.readers == 1 {
      assert forall u :: u in s2.pc && Asleep(s2.pc[u]) ==> u in s.pc && Asleep(s.pc[u]);
      assert Signal(s2.pc, woken);
    }
  }

  /** The waking thread is no sleeper itself. */
  lemma WakesOthers(pc: map<Tid, Pc>, t: Tid, woken: set<Tid>, p: Pc, q: Pc)
    requires t in pc
    ensures WakeAll(pc[t := p], woken)[t := q] == WakeAll(pc, woken)[t := q]
    ensures woken == {} ==> pc[t := p][t := q] == WakeAll(pc, woken)[t := q]
  {
  }

  /** A write unlock ends the writing and wakes every sleeper. */
  lemma WriteUnlock(s: State, t: Tid)
    requires Idle(s, t) && s.writer != 0
    ensures
      Run(s, [Call(t, WUnlock)] + Gos(t, 5, {})) ==
      Some(Back(s.(pc := WakeAll(s.pc, s.pc.Keys)), t, s.pc[t].(writing := false), s.readers, 0))
  {
    hide Run, Gos;
    var q := s.pc[t].(writing := false);
    Enters(s, t, WUnlock, 4, {});
    var s1 := Inside(s, t, WUnlockClear);
    ToAgain(s, t, WUnlockTest, WUnlockClear);
    GoThen(Inside(s, t, WUnlockTest), t, 4, {}, s1);
    var s2 := At(s, t, q.(at := WUnlockBroadcast)).(writer := 0, owner := Some(t));
    assert Step(s1, t, {}).value.pc == s2.pc;
    GoThen(s1, t, 3, {}, s2);
    var s' := s.(pc := WakeAll(s.pc, s.pc.Keys), writer := 0);
    var s3 := At(s', t, q.(at := WUnlockLeave)).(owner := Some(t));
    BroadcastStep(s, t, q);
    hide Step, WakeAll;
    GoThen(s2, t, 2, {}, s3);
    LeaveStep(s', t, q, WUnlockLeave);
    GoThen(s3, t, 1, {}, At(s', t, q));
    NoMore(At(s', t, q), t, {});
  }

  lemma BroadcastStep(s: State, t: Tid, q: Pc)
    requires t in s.pc
    ensures
      Step(At(s, t, q.(at := WUnlockBroadcast)).(writer := 0, owner := Some(t)), t, {}) ==
      Some(At(s.(pc := WakeAll(s.pc, s.pc.Keys), writer := 0), t, q.(at := WUnlockLeave)).(owner := Some(t)))
  {
    var p := q.(at := WUnlockBroadcast);
    assert s.pc[t := p].Keys == s.pc.Keys;
    WakesOthers(s.pc, t, s.pc.Keys, p, q.(at := WUnlockLeave));
  }
}
