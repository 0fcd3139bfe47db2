/** What one call of `becon_push`, `becon_get` or `becon_return` achieves, undisturbed and among others. */
module BackendCalls {
  import opened Basics
  import opened BackendPool
  import opened BackendLimit

  /** The connection is one that a get for `arg` looks for. */
  predicate Wanted(s: State, arg: Name, b: Con) {
    b in s.cons && s.cons[b].arg == arg && s.cons[b].status.Free?
  }

  /** Thread `t` is outside the code and nobody has the pool lock. */
  ghost predicate Idle(s: State, t: Tid) {
    t in s.pc && t in s.held && s.pc[t].Away? && s.pool.None?
  }

  /** The thread goes on `n` times and nobody else does. */
  function Gos(t: Tid, n: nat): (es: seq<Event>)
    ensures |es| == n
  {
    if n == 0 then [] else [Go(t)] + Gos(t, n - 1)
  }

  lemma GoOn(s: State, t: Tid, n: nat)
    requires n > 0 && Do(s, Go(t)).Some?
    ensures Run(s, Gos(t, n)) == Run(Do(s, Go(t)).value, Gos(t, n - 1))
  {
    RunCons(s, Go(t), Gos(t, n - 1));
  }

  lemma AtAgain(s: State, t: Tid, p: Pc, q: Pc)
    ensures At(At(s, t, p), t, q) == At(s, t, q)
    ensures t in s.pc && s.pc[t] == q ==> At(s, t, q) == s
  {
    assert s.pc[t := p][t := q] == s.pc[t := q];
  }

  // ----- a call that nobody disturbs -----

  /** The scan passes what is not wanted. */
  lemma {:induction false} ScanPasses(s: State, t: Tid, arg: Name, k: nat, i: nat, n: nat)
    requires t in s.pc && t in s.held && s.pc[t] == GetScan(arg, k) && k <= i <= |s.list|
    requires forall j :: k <= j < i ==> !Wanted(s, arg, s.list[j])
    ensures Run(s, Gos(t, i - k + n)) == Run(At(s, t, GetScan(arg, i)), Gos(t, n))
    decreases i - k
  {
    if k == i {
      AtAgain(s, t, Away, s.pc[t]);
    } else {
      assert !Wanted(s, arg, s.list[k]);
      var s' := At(s, t, GetScan(arg, k + 1));
      assert Do(s, Go(t)) == Some(s');
      GoOn(s, t, i - k + n);
      assert forall j :: k + 1 <= j < i ==> !Wanted(s', arg, s'.list[j]);
      ScanPasses(s', t, arg, k + 1, i, n);
      AtAgain(s, t, GetScan(arg, k + 1), GetScan(arg, i));
    }
  }

  /** The state after `t` was handed the connection `b`. */
  function Handed(s: State, t: Tid, b: Con): State
    requires t in s.held && b in s.cons
  {
    s.(held := s.held[t := s.held[t] + {b}], cons := s.cons[b := s.cons[b].(status := Active, lock := Some(t))],
       list := Drop(s.list, b) + [b], clock := s.clock + 1, acquired := s.acquired[b := s.clock])
  }

  /** The owner of the pool lock at its scan, with everything else as in `s`. */
  function Scanning(s: State, t: Tid, arg: Name, k: nat): State {
    At(s, t, GetScan(arg, k)).(pool := Some(t))
  }

  lemma GetScans(s: State, t: Tid, arg: Name, i: nat, n: nat)
    requires Idle(s, t) && i <= |s.list| && forall j :: 0 <= j < i ==> !Wanted(s, arg, s.list[j])
    ensures Run(s, [Get(t, arg)] + Gos(t, i + 1 + n)) == Run(Scanning(s, t, arg, i), Gos(t, n))
  {
    var s1, s2 := At(s, t, GetWait(arg)), Scanning(s, t, arg, 0);
    RunCons(s, Get(t, arg), Gos(t, i + 1 + n));
    AtAgain(s, t, GetWait(arg), GetScan(arg, 0));
    assert Do(s1, Go(t)) == Some(s2);
    GoOn(s1, t, i + 1 + n);
    assert forall j :: 0 <= j < i ==> !Wanted(s2, arg, s2.list[j]);
    ScanPasses(s2, t, arg, 0, i, n);
    AtAgain(s, t, GetScan(arg, 0), GetScan(arg, i));
    assert At(s2, t, GetScan(arg, i)) == Scanning(s, t, arg, i);
  }

  /** The first connection of the list that has the name and is free is handed out if nobody has its lock. */
  lemma GetFinds(s: State, t: Tid, arg: Name, i: nat)
    requires Idle(s, t) && i < |s.list| && Wanted(s, arg, s.list[i]) && s.cons[s.list[i]].lock.None?
    requires forall j :: 0 <= j < i ==> !Wanted(s, arg, s.list[j])
    ensures Run(s, [Get(t, arg)] + Gos(t, i + 5)) == Some(Handed(s, t, s.list[i]))
  {
    GetScans(s, t, arg, i, 4);
    TakesFound(s, t, arg, i);
  }

  lemma TakesFound(s: State, t: Tid, arg: Name, i: nat)
    requires Idle(s, t) && i < |s.list| && Wanted(s, arg, s.list[i]) && s.cons[s.list[i]].lock.None?
    ensures Run(Scanning(s, t, arg, i), Gos(t, 4)) == Some(Handed(s, t, s.list[i]))
  {
    hide Run, Drop, Gos;
    var b := s.list[i];
    var s0 := Scanning(s, t, arg, i);
    var s1 := At(s, t, GetLock(b, arg)).(pool := Some(t));
    assert Do(s0, Go(t)) == Some(s1) by { AtAgain(s, t, GetScan(arg, i), GetLock(b, arg)); }
    var s2 := SetLock(At(s, t, GetTake(b, arg)), b, Some(t)).(pool := Some(t));
    assert Do(s1, Go(t)) == Some(s2) by { AtAgain(s, t, GetLock(b, arg), GetTake(b, arg)); }
    var s3 := Do(s2, Go(t)).value;
    TakeStep(s, t, arg, b);
    GoOn(s0, t, 4);
    GoOn(s1, t, 3);
    GoOn(s2, t, 2);
    GoOn(s3, t, 1);
    EndRun(Handed(s, t, b), t);
  }

  lemma EndRun(s: State, t: Tid)
    ensures Run(s, Gos(t, 0)) == Some(s)
  {
  }

  lemma TakeStep(s: State, t: Tid, arg: Name, b: Con)
    requires Idle(s, t) && b in s.cons
    ensures var s2 := SetLock(At(s, t, GetTake(b, arg)), b, Some(t)).(pool := Some(t));
      Do(s2, Go(t)).Some? && Do(Do(s2, Go(t)).value, Go(t)) == Some(Handed(s, t, b))
  {
    hide Drop;
    var s2 := SetLock(At(s, t, GetTake(b, arg)), b, Some(t)).(pool := Some(t));
    var s3 := Do(s2, Go(t)).value;
    var s4 := Do(s3, Go(t)).value;
    assert s4.pc == s.pc && s4.cons == Handed(s, t, b).cons && s4.held == Handed(s, t, b).held;
  }

  /** If there is none, nothing is handed out and nothing is changed. */
  lemma GetFindsNothing(s: State, t: Tid, arg: Name)
    requires Idle(s, t) && forall j :: 0 <= j < |s.list| ==> !Wanted(s, arg, s.list[j])
    ensures Run(s, [Get(t, arg)] + Gos(t, |s.list| + 3)) == Some(s)
  {
    GetScans(s, t, arg, |s.list|, 2);
    hide Run, Gos;
    var s0 := Scanning(s, t, arg, |s.list|);
    var s1 := At(s, t, GetLeave(None, arg)).(pool := Some(t));
    assert Do(s0, Go(t)) == Some(s1) by { AtAgain(s, t, GetScan(arg, |s.list|), GetLeave(None, arg)); }
    assert Do(s1, Go(t)) == Some(s) by { AtAgain(s, t, GetLeave(None, arg), Away); }
    GoOn(s0, t, 2);
    GoOn(s1, t, 1);
    EndRun(s, t);
  }

  /** A wanted connection whose lock is taken belongs to a thread whose next step unlocks it. */
  lemma WantedIsUnlocked(threads: set<Tid>, max: nat, s: State, arg: Name, b: Con)
    requires Reachable(threads, max, s) && s.pool.None? && Wanted(s, arg, b) && s.cons[b].lock.Some?
    ensures var u := s.cons[b].lock.value;
      && u in s.pc && u in s.held && s.pc[u] == ReturnUnlock(b)
      && Run(s, [Go(u)]) == Some(SetLock(At(s, u, Away), b, None))
  {
    ReachableInv(threads, max, s);
    var u := s.cons[b].lock.value;
    assert Finishing(s, u, b);
    assert !HoldsPool(s.pc[u]);
    RunCons(s, Go(u), []);
    assert [Go(u)] + [] == [Go(u)];
  }

  /** The state after `t` has pushed a connection called `arg`. */
  function Pushed(s: State, t: Tid, arg: Name): State
    requires t in s.held
  {
    var b := Fresh(s);
    s.(cons := s.cons[b := Connection(arg, Active, Some(t))], list := s.list + [b], size := s.size + 1,
       clock := s.clock + 1, acquired := s.acquired[b := s.clock], held := s.held[t := s.held[t] + {b}])
  }

  /** A push below the limit makes one connection of the name, last in the list and held by the caller. */
  lemma PushAdds(s: State, t: Tid, arg: Name)
    requires Idle(s, t)
    ensures s.size == s.max ==> Run(s, [Push(t, arg)]) == Some(s)
    ensures s.size != s.max ==> Run(s, [Push(t, arg)] + Gos(t, 4)) == Some(Pushed(s, t, arg))
  {
    if s.size == s.max {
      RunCons(s, Push(t, arg), []);
      assert [Push(t, arg)] + [] == [Push(t, arg)];
      EndRun(s, t);
    } else {
      RunCons(s, Push(t, arg), Gos(t, 4));
      PushSteps(s, t, arg);
    }
  }

  lemma PushSteps(s: State, t: Tid, arg: Name)
    requires Idle(s, t)
    ensures Run(At(s, t, PushNew(arg)), Gos(t, 4)) == Some(Pushed(s, t, arg))
  {
    hide Run, Gos;
    var b := Fresh(s);
    var s1 := At(s, t, PushWait(b)).(cons := s.cons[b := Connection(arg, Active, Some(t))]);
    assert Do(At(s, t, PushNew(arg)), Go(t)) == Some(s1) by { AtAgain(s, t, PushNew(arg), PushWait(b)); }
    var s2 := At(s1, t, PushLink(b)).(pool := Some(t));
    assert Do(s1, Go(t)) == Some(s2);
    var s3 := Do(s2, Go(t)).value;
    LinkStep(s, t, arg);
    GoOn(At(s, t, PushNew(arg)), t, 4);
    GoOn(s1, t, 3);
    GoOn(s2, t, 2);
    GoOn(s3, t, 1);
    EndRun(Pushed(s, t, arg), t);
  }

  lemma LinkStep(s: State, t: Tid, arg: Name)
    requires Idle(s, t)
    ensures var b := Fresh(s);
      var s1 := At(s, t, PushWait(b)).(cons := s.cons[b := Connection(arg, Active, Some(t))]);
      var s2 := At(s1, t, PushLink(b)).(pool := Some(t));
      Do(s2, Go(t)).Some? && Do(Do(s2, Go(t)).value, Go(t)) == Some(Pushed(s, t, arg))
  {
    var b := Fresh(s);
    var s1 := At(s, t, PushWait(b)).(cons := s.cons[b := Connection(arg, Active, Some(t))]);
    var s2 := At(s1, t, PushLink(b)).(pool := Some(t));
    var s4 := Do(Do(s2, Go(t)).value, Go(t)).value;
    assert s4.pc == s.pc && s4.held == Pushed(s, t, arg).held;
  }

  /** A return leaves the connection free and unlocked where it was, whoever has the pool lock. */
  lemma ReturnFrees(s: State, t: Tid, b: Con)
    requires t in s.pc && t in s.held && s.pc[t].Away? && b in s.held[t] && b in s.cons
    ensures Run(s, [Return(t, b)] + Gos(t, 2)) == Some(s.(
        held := s.held[t := s.held[t] - {b}], cons := s.cons[b := s.cons[b].(status := Free, lock := None)]))
  {
    RunCons(s, Return(t, b), Gos(t, 2));
    hide Run, Gos;
    var s0 := Do(s, Return(t, b)).value;
    var s1 := Do(s0, Go(t)).value;
    var s2 := Do(s1, Go(t)).value;
    assert s2.pc == s.pc && s2.cons == s.cons[b := s.cons[b].(status := Free, lock := None)];
    GoOn(s0, t, 2);
    GoOn(s1, t, 1);
    EndRun(s2, t);
  }

  // ----- a get among other calls -----

  /** The scan of `t` stands at the connection `b`, which is of another name or active. */
  ghost predicate Passing(s: State, t: Tid, arg: Name, j: nat, b: Con) {
    t in s.pc && s.pc[t] == GetScan(arg, j) && j < |s.list| && s.list[j] == b && !Wanted(s, arg, b)
  }

  /**
   * In the call that `t` is in at the end of the run, after `m` events, the scan passed the connection `b` at
   * position `j`.
   */
  ghost predicate PassedAt(s0: State, es: seq<Event>, t: Tid, arg: Name, j: nat, b: Con, m: nat) {
    && m <= |es| && Run(s0, es[..m]).Some? && Passing(Run(s0, es[..m]).value, t, arg, j, b)
    && (forall i :: m <= i <= |es| ==> Run(s0, es[..i]).Some? && Run(s0, es[..i]).value.pool == Some(t))
  }

  ghost predicate PassedBy(s0: State, es: seq<Event>, t: Tid, arg: Name, j: nat, b: Con) {
    exists m: nat :: PassedAt(s0, es, t, arg, j, b, m)
  }

  /** All positions before `k` were passed. */
  ghost predicate PassedBefore(s0: State, es: seq<Event>, t: Tid, arg: Name, list: seq<Con>, k: nat) {
    k <= |list| && forall j :: 0 <= j < k ==> PassedBy(s0, es, t, arg, j, list[j])
  }

  /** What the thread at `q` has seen of the list. */
  ghost predicate Searched(s0: State, es: seq<Event>, t: Tid, list: seq<Con>, q: Pc) {
    match q
    case GetScan(arg, k) => PassedBefore(s0, es, t, arg, list, k)
    case GetLock(b, arg) => exists k: nat :: FoundAt(s0, es, t, arg, list, b, k)
    case GetTake(b, arg) => exists k: nat :: FoundAt(s0, es, t, arg, list, b, k)
    case GetLeave(got, arg) => got.None? ==> PassedBefore(s0, es, t, arg, list, |list|)
    case _ => true
  }

  ghost predicate FoundAt(s0: State, es: seq<Event>, t: Tid, arg: Name, list: seq<Con>, b: Con, k: nat) {
    k < |list| && list[k] == b && PassedBefore(s0, es, t, arg, list, k)
  }

  lemma PassedStill(s0: State, es: seq<Event>, e: Event, t: Tid, arg: Name, list: seq<Con>, k: nat)
    requires PassedBefore(s0, es, t, arg, list, k)
    requires Run(s0, es + [e]).Some? && Run(s0, es + [e]).value.pool == Some(t)
    ensures PassedBefore(s0, es + [e], t, arg, list, k)
  {
    hide Run, Passing;
    forall j | 0 <= j < k ensures PassedBy(s0, es + [e], t, arg, j, list[j]) {
      var m: nat :| PassedAt(s0, es, t, arg, j, list[j], m);
      var fs := es + [e];
      assert forall i :: 0 <= i <= |es| ==> fs[..i] == es[..i];
      assert fs[..|fs|] == fs;
      assert PassedAt(s0, fs, t, arg, j, list[j], m);
    }
  }

  /** A thread that has the pool lock finds list and program counter unchanged by the steps of others. */
  lemma OthersKeep(s: State, e: Event, t: Tid)
    requires Inv(s) && Do(s, e).Some? && e.t != t && t in s.pc && s.pool == Some(t)
    ensures var s' := Do(s, e).value; t in s'.pc && s'.pc[t] == s.pc[t] && s'.list == s.list && s'.pool == Some(t)
  {
    KeepsPool(s, e);
    StepLocal(s, e);
    assert e.Go? ==> !HoldsPool(s.pc[e.t]);
    hide StatusInv, LockInv, ListInv, NameInv;
    SameListFields(s, e);
  }

  /** The run goes on while the thread keeps the pool lock and its place. */
  lemma SearchedStill(s0: State, es: seq<Event>, e: Event, t: Tid, list: seq<Con>, q: Pc)
    requires Searched(s0, es, t, list, q)
    requires Run(s0, es + [e]).Some? && Run(s0, es + [e]).value.pool == Some(t)
    ensures Searched(s0, es + [e], t, list, q)
  {
    hide Run, PassedBefore;
    match q
    case GetScan(arg, k) => PassedStill(s0, es, e, t, arg, list, k);
    case GetLock(b, arg) =>
      var k: nat :| FoundAt(s0, es, t, arg, list, b, k);
      PassedStill(s0, es, e, t, arg, list, k);
      assert FoundAt(s0, es + [e], t, arg, list, b, k);
    case GetTake(b, arg) =>
      var k: nat :| FoundAt(s0, es, t, arg, list, b, k);
      PassedStill(s0, es, e, t, arg, list, k);
      assert FoundAt(s0, es + [e], t, arg, list, b, k);
    case GetLeave(got, arg) =>
      if got.None? { PassedStill(s0, es, e, t, arg, list, |list|); }
    case _ =>
  }

  /** The scan goes past an unwanted connection, stops at a wanted one, or comes to the end. */
  lemma ScanSteps(s: State, t: Tid, arg: Name, k: nat)
    requires t in s.pc && t in s.held && s.pc[t] == GetScan(arg, k)
    ensures StepGet(s, t).Some?
    ensures var s' := StepGet(s, t).value;
      && s'.list == s.list && s'.pool == s.pool && t in s'.pc
      && (|| (k >= |s.list| && s'.pc[t] == GetLeave(None, arg))
          || (k < |s.list| && s'.pc[t] == GetLock(s.list[k], arg))
          || (Passing(s, t, arg, k, s.list[k]) && s'.pc[t] == GetScan(arg, k + 1)))
  {
  }

  lemma ScanSearches(s0: State, es: seq<Event>, s: State, t: Tid, arg: Name, k: nat)
    requires Run(s0, es) == Some(s) && t in s.pc && t in s.held && s.pc[t] == GetScan(arg, k) && s.pool == Some(t)
    requires Searched(s0, es, t, s.list, s.pc[t]) && Run(s0, es + [Go(t)]) == StepGet(s, t)
    ensures var s' := StepGet(s, t).value; t in s'.pc && Searched(s0, es + [Go(t)], t, s'.list, s'.pc[t])
  {
    ScanSteps(s, t, arg, k);
    hide StepGet, Run, Passing, Wanted;
    var fs := es + [Go(t)];
    SearchedStill(s0, es, Go(t), t, s.list, s.pc[t]);
    if k < |s.list| {
      if Passing(s, t, arg, k, s.list[k]) {
        assert fs[..|es|] == es && fs[..|fs|] == fs;
        assert PassedAt(s0, fs, t, arg, k, s.list[k], |es|);
      }
      hide PassedAt;
      assert FoundAt(s0, fs, t, arg, s.list, s.list[k], k);
    }
  }

  /** The other steps of the thread itself lead nowhere new, or from the lock to the taking. */
  lemma OwnSteps(s: State, e: Event)
    requires Do(s, e).Some? && !(e.Go? && s.pc[e.t].GetScan?)
    ensures var (s', t) := (Do(s, e).value, e.t);
      t in s'.pc && match s'.pc[t]
        case GetScan(_, k) => k == 0
        case GetLock(_, _) => false
        case GetTake(b, arg) => s.pc[t] == GetLock(b, arg) && s'.list == s.list && s'.pool == s.pool
        case GetLeave(got, _) => got.Some?
        case _ => true
  {
    hide Drop;
  }

  lemma StepSearched(s0: State, es: seq<Event>, s: State, e: Event, t: Tid)
    requires Inv(s) && Run(s0, es) == Some(s) && t in s.pc && Searched(s0, es, t, s.list, s.pc[t])
    requires Do(s, e).Some? && Run(s0, es + [e]) == Do(s, e)
    ensures var s' := Do(s, e).value; t in s'.pc && Searched(s0, es + [e], t, s'.list, s'.pc[t])
  {
    StepLocal(s, e);
    var s' := Do(s, e).value;
    if e.t != t {
      if HoldsPool(s.pc[t]) {
        OthersKeep(s, e, t);
        hide Do, Run, Searched;
        SearchedStill(s0, es, e, t, s.list, s.pc[t]);
      }
    } else if e.Go? && s.pc[t].GetScan? {
      assert HoldsPool(s.pc[t]);
      ScanSearches(s0, es, s, t, s.pc[t].arg, s.pc[t].k);
    } else {
      OwnSteps(s, e);
      assert s.pc[t].GetLock? ==> HoldsPool(s.pc[t]) && s.pool == Some(t);
      hide Do, Run;
      if s'.pc[t].GetTake? { SearchedStill(s0, es, e, t, s.list, s.pc[t]); }
    }
  }

  /**
   * Whatever the others do: a get that is about to take a connection has passed every one before it in the list, and
   * one that leaves with nothing has passed every connection of the list, while it was active or of another name.
   */
  lemma {:induction false} GetSearches(threads: set<Tid>, max: nat, es: seq<Event>, s: State, t: Tid)
    requires Run(Init(threads, max), es) == Some(s) && t in s.pc
    ensures Searched(Init(threads, max), es, t, s.list, s.pc[t])
    decreases |es|
  {
    var s0 := Init(threads, max);
    if es != [] {
      var n := |es| - 1;
      var fs, e := es[..n], es[n];
      assert es == fs + [e];
      RunAppend(s0, fs, [e]);
      var s1 := Run(s0, fs).value;
      RunOne(s1, e);
      assert Reachable(threads, max, s1);
      ReachableInv(threads, max, s1);
      StepLocal(s1, e);
      GetSearches(threads, max, fs, s1, t);
      StepSearched(s0, fs, s1, e, t);
    }
  }

  lemma RunOne(s: State, e: Event)
    ensures Run(s, [e]) == Do(s, e)
  {
    assert [e][1..] == [];
  }
}
