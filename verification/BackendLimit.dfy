/** The size limit of the backend connection pool: `becpool_full` is asked before the pool lock is taken. */
module BackendLimit {
  import opened Basics
  import opened BackendPool

  lemma RunCons(s: State, e: Event, es: seq<Event>)
    requires Do(s, e).Some?
    ensures Run(s, [e] + es) == Run(Do(s, e).value, es)
  {
    assert ([e] + es)[1..] == es;
  }

  lemma {:induction false} RunAppend(s: State, es: seq<Event>, fs: seq<Event>)
    ensures Run(s, es + fs) == var n := Run(s, es); if n.None? then None else Run(n.value, fs)
    decreases |es|
  {
    if es == [] {
      assert es + fs == fs;
    } else {
      assert (es + fs)[0] == es[0] && (es + fs)[1..] == es[1..] + fs;
      var n := Do(s, es[0]);
      if n.Some? { RunAppend(n.value, es[1..], fs); }
    }
  }

  /** Threads `t` and `u` are outside the code and nobody has the pool lock. */
  ghost predicate Quiet(s: State, t: Tid, u: Tid) {
    t != u && t in s.pc && u in s.pc && t in s.held && u in s.held && s.pc[t].Away? && s.pc[u].Away? && s.pool.None?
  }

  /** Thread `t` has found room. */
  ghost predicate Passed(s: State, t: Tid) {
    t in s.pc && t in s.held && s.pc[t].PushNew? && s.pool.None?
  }

  /** A thread that has found room adds its connection, whatever the size is by then. */
  lemma Adds(s: State, t: Tid) returns (s': State)
    requires Passed(s, t)
    ensures Run(s, [Go(t), Go(t), Go(t), Go(t)]) == Some(s')
    ensures s'.size == s.size + 1 && s'.max == s.max && s'.pool.None? && t in s'.pc && s'.pc[t].Away? && t in s'.held
    ensures forall u :: u != t ==> (u in s'.pc <==> u in s.pc) && (u in s.pc ==> s'.pc[u] == s.pc[u])
    ensures forall u :: u != t ==> (u in s'.held <==> u in s.held)
  {
    var s1 := Do(s, Go(t)).value;
    var s2 := Do(s1, Go(t)).value;
    var s3 := Do(s2, Go(t)).value;
    s' := Do(s3, Go(t)).value;
    assert Run(s', []) == Some(s');
    hide Run;
    assert [Go(t), Go(t), Go(t), Go(t)] == [Go(t)] + ([Go(t)] + ([Go(t)] + ([Go(t)] + [])));
    RunCons(s, Go(t), [Go(t)] + ([Go(t)] + ([Go(t)] + [])));
    RunCons(s1, Go(t), [Go(t)] + ([Go(t)] + []));
    RunCons(s2, Go(t), [Go(t)] + []);
    RunCons(s3, Go(t), []);
  }

  /** Below the limit a push by `t` alone makes the pool one larger. */
  lemma PushOne(s: State, t: Tid, u: Tid) returns (es: seq<Event>, s': State)
    requires Quiet(s, t, u) && s.size != s.max
    ensures Run(s, es) == Some(s') && Quiet(s', t, u) && s'.size == s.size + 1 && s'.max == s.max
  {
    var s1 := Do(s, Push(t, "")).value;
    s' := Adds(s1, t);
    es := [Push(t, "")] + [Go(t), Go(t), Go(t), Go(t)];
    RunCons(s, Push(t, ""), [Go(t), Go(t), Go(t), Go(t)]);
  }

  /** One below the limit both threads find room. */
  lemma BothAdd(s: State, t: Tid, u: Tid) returns (es: seq<Event>, s': State)
    requires Quiet(s, t, u) && s.size + 1 == s.max
    ensures Run(s, es) == Some(s') && s'.size == s.max + 1
  {
    var s1 := Do(s, Push(t, "")).value;
    var s2 := Do(s1, Push(u, "")).value;
    var s3 := Adds(s2, t);
    s' := Adds(s3, u);
    var ts, us := [Go(t), Go(t), Go(t), Go(t)], [Go(u), Go(u), Go(u), Go(u)];
    es := [Push(t, "")] + ([Push(u, "")] + (ts + us));
    hide Run;
    RunCons(s, Push(t, ""), [Push(u, "")] + (ts + us));
    RunCons(s1, Push(u, ""), ts + us);
    RunAppend(s2, ts, us);
  }

  lemma {:induction false} FillAndRace(s: State, t: Tid, u: Tid) returns (es: seq<Event>, s': State)
    requires Quiet(s, t, u) && s.size < s.max
    ensures Run(s, es) == Some(s') && s'.size > s.max
    decreases s.max - s.size
  {
    if s.size + 1 == s.max {
      es, s' := BothAdd(s, t, u);
    } else {
      var fs, s1 := PushOne(s, t, u);
      var gs;
      gs, s' := FillAndRace(s1, t, u);
      es := fs + gs;
      RunAppend(s, fs, gs);
    }
  }

  /** What keeps a single thread within the limit: it is the only one that can be on its way to add. */
  ghost predicate Within(s: State) {
    && s.size <= s.max
    && (forall t :: t in s.pc && (s.pc[t].PushNew? || s.pc[t].PushWait? || s.pc[t].PushLink?) ==> s.size < s.max)
  }

  ghost predicate Alone(s: State) {
    forall t, u :: t in s.pc && u in s.pc ==> t == u
  }

  lemma StepWithin(s: State, e: Event)
    requires Within(s) && Do(s, e).Some? && (Alone(s) || s.max == 0)
    ensures Within(Do(s, e).value) && Do(s, e).value.pc.Keys == s.pc.Keys && Do(s, e).value.max == s.max
  {
    StepLocal(s, e);
    SizeMoves(s, e);
    var s' := Do(s, e).value;
    hide Do;
    forall t | t in s'.pc && (s'.pc[t].PushNew? || s'.pc[t].PushWait? || s'.pc[t].PushLink?) ensures s'.size < s'.max {
      assert t in s.pc && e.t in s.pc;
    }
  }

  /** The size grows where a thread on its way links its connection, and a thread sets out only below the limit. */
  lemma SizeMoves(s: State, e: Event)
    requires Do(s, e).Some?
    ensures var s', t := Do(s, e).value, e.t;
      && t in s.pc && t in s'.pc && s'.max == s.max
      && s'.size == (if e.Go? && s.pc[t].PushLink? then s.size + 1 else s.size)
      && (e.Go? && s.pc[t].PushLink? ==> s'.pc[t].PushLeave?)
      && (s'.pc[t].PushNew? ==> s.size != s.max)
      && (s'.pc[t].PushWait? || s'.pc[t].PushLink? ==> s.pc[t].PushNew? || s.pc[t].PushWait? || s.pc[t].PushLink?)
  {
    hide Drop;
  }

  lemma {:induction false} RunWithin(s: State, es: seq<Event>)
    requires Within(s) && Run(s, es).Some? && (Alone(s) || s.max == 0)
    ensures Within(Run(s, es).value) && Run(s, es).value.max == s.max
    decreases |es|
  {
    if es != [] {
      StepWithin(s, es[0]);
      RunWithin(Do(s, es[0]).value, es[1..]);
    }
  }

  /** The pool can grow beyond its limit if and only if there are two threads and the limit is not 0. */
  lemma LimitCanBeExceededIff(threads: set<Tid>, max: nat)
    ensures (exists es, s :: Run(Init(threads, max), es) == Some(s) && s.size > max) <==>
            max > 0 && exists t, u :: t in threads && u in threads && t != u
  {
    var s0 := Init(threads, max);
    if max > 0 {
      if t, u :| t in threads && u in threads && t != u {
        var es, s := FillAndRace(s0, t, u);
        assert Run(s0, es) == Some(s) && s.size > max;
      } else {
        OneThreadWithin(threads, max);
      }
    } else {
      OneThreadWithin(threads, max);
    }
  }

  lemma OneThreadWithin(threads: set<Tid>, max: nat)
    requires max == 0 || forall t, u :: t in threads && u in threads ==> t == u
    ensures forall es, s :: Run(Init(threads, max), es) == Some(s) ==> s.size <= max
  {
    forall es, s | Run(Init(threads, max), es) == Some(s) ensures s.size <= max {
      RunWithin(Init(threads, max), es);
    }
  }
}
