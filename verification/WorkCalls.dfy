/** What one submission and one turn of a worker of server/tpool.c do when nobody disturbs them. */
module WorkCalls {
  import opened Basics
  import opened ThreadPool

  /** The producer makes `n` steps; its signal wakes the given sleepers. */
  function Produces(p: Id, n: nat, woken: set<Id>): seq<Event> {
    if n == 0 then [] else [Produce(p, woken)] + Produces(p, n - 1, woken)
  }

  function Works(w: Id, n: nat): seq<Event> {
    if n == 0 then [] else [Work(w)] + Works(w, n - 1)
  }

  lemma ProduceThen(s: State, p: Id, n: nat, woken: set<Id>, s': State)
    requires n > 0 && p in s.producers && ProducerStep(s, p, woken) == Some(s')
    ensures Run(s, Produces(p, n, woken)) == Run(s', Produces(p, n - 1, woken))
  {
    RunCons(s, Produce(p, woken), Produces(p, n - 1, woken));
  }

  lemma WorkThen(s: State, w: Id, n: nat, s': State)
    requires n > 0 && w in s.workers && WorkerStep(s, w) == Some(s')
    ensures Run(s, Works(w, n)) == Run(s', Works(w, n - 1))
  {
    RunCons(s, Work(w), Works(w, n - 1));
  }

  lemma NoMore(s: State)
    ensures forall p, woken :: Run(s, Produces(p, 0, woken)) == Some(s)
    ensures forall w :: Run(s, Works(w, 0)) == Some(s)
  {
  }

  lemma MoveAgain(s: State, p: Id, q: Producer, q': Producer)
    ensures MoveProducer(MoveProducer(s, p, q), p, q') == MoveProducer(s, p, q')
    ensures p in s.producers && s.producers[p] == q' ==> MoveProducer(s, p, q') == s
  {
    assert s.producers[p := q][p := q'] == s.producers[p := q'];
  }

  // ----- a submission -----

  /** Without a free item at the largest size the routine is turned away, and nothing else happens. */
  lemma SubmitRefused(s: State, p: Id)
    requires p in s.producers && s.producers[p].Away? && s.free == [] && s.cur == s.max
    ensures Run(s, [Submit(p)] + Produces(p, 1, {})) == Some(s.(jobs := s.jobs + 1))
  {
    var s1 := MoveProducer(s, p, Checking(s.jobs)).(jobs := s.jobs + 1);
    RunCons(s, Submit(p), Produces(p, 1, {}));
    MoveAgain(s, p, Checking(s.jobs), Away);
    ProduceThen(s1, p, 1, {}, s.(jobs := s.jobs + 1));
    NoMore(s.(jobs := s.jobs + 1));
  }

  /** The free items that a submission chooses from: those there are, or the new ones. */
  function Choice(s: State): seq<Item> {
    if s.free != [] then s.free else Fresh(s.next, Growth(s))
  }

  /** The free pool holds the items to choose from. */
  function Stocked(s: State): State {
    s.(free := Choice(s), next := if s.free != [] then s.next else s.next + |Choice(s)|)
  }

  /** The routine `job` waits at the end of the active pool, in the last of the free items, and workers are woken. */
  function Queued(s: State, job: Job, woken: set<Id>): State
    requires s.free != []
  {
    var item := Last(s.free);
    s.(free := Init0(s.free), active := s.active + [item], stored := s.stored[item := job],
       accepted := s.accepted + {job}, workers := WakeAll(s.workers, woken))
  }

  /** Otherwise it is queued, after new items were made if need be, and a sleeping worker is woken. */
  lemma SubmitQueues(s: State, p: Id, woken: set<Id>)
    requires p in s.producers && s.producers[p].Away? && Signal(s.workers, woken)
    requires s.free != [] || s.cur < s.max
    ensures Choice(s) != []
    ensures
      Run(s, [Submit(p)] + Produces(p, 6, woken)) == Some(Queued(Stocked(s.(jobs := s.jobs + 1)), s.jobs, woken))
  {
    var s0 := s.(jobs := s.jobs + 1);
    SubmitThen(s, p, 6, woken);
    hide Run, Produces, Signal, WakeAll, ProducerStep, Fresh;
    assert Choice(s0) == Choice(s);
    FindsRoom(s0, p, s.jobs, woken);
    FillsAndPushes(Stocked(s0), p, s.jobs, woken);
  }

  lemma SubmitThen(s: State, p: Id, n: nat, woken: set<Id>)
    requires p in s.producers && s.producers[p].Away?
    ensures
      Run(s, [Submit(p)] + Produces(p, n, woken)) ==
      Run(MoveProducer(s.(jobs := s.jobs + 1), p, Checking(s.jobs)), Produces(p, n, woken))
  {
    hide Run, Produces, ProducerStep, WorkerStep;
    RunCons(s, Submit(p), Produces(p, n, woken));
  }

  lemma FindsRoom(s: State, p: Id, job: Job, woken: set<Id>)
    requires p in s.producers && s.producers[p].Away? && (s.free != [] || s.cur < s.max)
    ensures Choice(s) != []
    ensures
      Run(MoveProducer(s, p, Checking(job)), Produces(p, 6, woken)) ==
      Run(MoveProducer(Stocked(s), p, Getting(job)), Produces(p, 4, woken))
  {
    hide Run, Produces, Fresh;
    MoveAgain(s, p, Checking(job), Growing(job));
    ProduceThen(MoveProducer(s, p, Checking(job)), p, 6, woken, MoveProducer(s, p, Growing(job)));
    MoveAgain(s, p, Growing(job), Getting(job));
    ProduceThen(MoveProducer(s, p, Growing(job)), p, 5, woken, MoveProducer(Stocked(s), p, Getting(job)));
  }

  lemma FillsAndPushes(s: State, p: Id, job: Job, woken: set<Id>)
    requires p in s.producers && s.producers[p].Away? && Signal(s.workers, woken) && s.free != []
    ensures Run(MoveProducer(s, p, Getting(job)), Produces(p, 4, woken)) == Some(Queued(s, job, woken))
  {
    hide Run, Produces, WakeAll;
    var item := Last(s.free);
    var s1 := s.(free := Init0(s.free));
    MoveAgain(s, p, Getting(job), Filling(job, item));
    ProduceThen(MoveProducer(s, p, Getting(job)), p, 4, woken, MoveProducer(s1, p, Filling(job, item)));
    var s2 := s1.(stored := s.stored[item := job]);
    MoveAgain(s1, p, Filling(job, item), Pushing(item));
    ProduceThen(MoveProducer(s1, p, Filling(job, item)), p, 3, woken, MoveProducer(s2, p, Pushing(item)));
    var s3 := s2.(active := s.active + [item], accepted := s.accepted + {job});
    MoveAgain(s2, p, Pushing(item), Signalling);
    ProduceThen(MoveProducer(s2, p, Pushing(item)), p, 2, woken, MoveProducer(s3, p, Signalling));
    var s4 := s3.(workers := WakeAll(s.workers, woken));
    MoveAgain(s3, p, Signalling, Away);
    ProduceThen(MoveProducer(s3, p, Signalling), p, 1, woken, s4);
    NoMore(s4);
  }

  // ----- a turn of a worker -----

  /** With nothing to do a worker goes to sleep. */
  lemma WorkerSleeps(s: State, w: Id)
    requires w in s.workers && (s.workers[w].Looking? || s.workers[w].Woken?) && s.active == []
    ensures Run(s, Works(w, 1)) == Some(MoveWorker(s, w, Asleep))
  {
    WorkThen(s, w, 1, MoveWorker(s, w, Asleep));
    NoMore(MoveWorker(s, w, Asleep));
  }

  /** Otherwise it runs the routine that was queued last and gives the item back to the end of the free pool. */
  lemma WorkerRuns(s: State, w: Id)
    requires w in s.workers && (s.workers[w].Looking? || s.workers[w].Woken?)
    requires s.active != [] && Last(s.active) in s.stored
    ensures var item := Last(s.active);
      Run(s, Works(w, 4)) == Some(MoveWorker(s, w, Looking).(
        active := Init0(s.active), log := s.log + [s.stored[item]],
        free := s.free + [item], stored := s.stored - {item}))
  {
    hide Run, Works;
    var item := Last(s.active);
    WorkThen(s, w, 4, MoveWorker(s, w, Fetching));
    var s1, s2 := s.(active := Init0(s.active)), s.(active := Init0(s.active), log := s.log + [s.stored[item]]);
    AgainWorker(s, w, Fetching, Running(item));
    WorkThen(MoveWorker(s, w, Fetching), w, 3, MoveWorker(s1, w, Running(item)));
    AgainWorker(s1, w, Running(item), Freeing(item));
    WorkThen(MoveWorker(s1, w, Running(item)), w, 2, MoveWorker(s2, w, Freeing(item)));
    FreesItem(s2, w, item);
  }

  lemma FreesItem(s: State, w: Id, item: Item)
    ensures
      Run(MoveWorker(s, w, Freeing(item)), Works(w, 1)) ==
      Some(MoveWorker(s, w, Looking).(free := s.free + [item], stored := s.stored - {item}))
  {
    hide Run, Works;
    var s' := MoveWorker(s, w, Looking).(free := s.free + [item], stored := s.stored - {item});
    AgainWorker(s, w, Freeing(item), Looking);
    WorkThen(MoveWorker(s, w, Freeing(item)), w, 1, s');
    NoMore(s');
  }

  lemma AgainWorker(s: State, w: Id, q: Worker, q': Worker)
    ensures MoveWorker(MoveWorker(s, w, q), w, q') == MoveWorker(s, w, q')
  {
    assert s.workers[w := q][w := q'] == s.workers[w := q'];
  }
}
