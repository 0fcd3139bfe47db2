/**
 * The work queue of server/tpool.c and the free and active pools of server/pool.c as a step machine.
 * A critical section under `aflock` is one step; the statements between the sections are steps of
 * their own, and so is the signal, which the producer sends without the lock.
 */
module ThreadPool {
  import opened Basics

  type Id = nat
  type Item = nat
  type Job = nat

  /** Where a producer stands in `tpool_add_work`; the numbers are lines of server/tpool.c. */
  datatype Producer =
    | Away
    | Checking(job: Job)               // 174-197
    | Growing(job: Job)                // 210-228
    | Getting(job: Job)                // 233
    | Filling(job: Job, item: Item)    // 235-247
    | Pushing(item: Item)              // 249
    | Signalling                       // 254
    | Late(job: Job)                   // 222: "shouldn't happen"
    | Crashed(job: Job)                // 235 after line 233 found nothing

  /** Where a worker stands in `tpool_thread`. */
  datatype Worker =
    | Looking                 // 340-366
    | Asleep                  // 358: in the wait set
    | Woken                   // 358: out of the wait set, waits for the lock
    | Fetching                // 383
    | Running(item: Item)     // 408
    | Freeing(item: Item)     // 435-441

  /**
   * Both pools from head to tail, the number of items ever allocated, the two queue sizes, the routine
   * stored in each filled item, every thread, the number of jobs ever submitted, the jobs that were
   * pushed, and the jobs that were run, in order.
   */
  datatype State = State(
    free: seq<Item>, active: seq<Item>, next: nat, cur: int, max: int, stored: map<Item, Job>,
    producers: map<Id, Producer>, workers: map<Id, Worker>, jobs: nat, accepted: set<Job>, log: seq<Job>)

  datatype Event =
    | Submit(id: Id)
    | Produce(id: Id, woken: set<Id>)
    | Work(id: Id)
    | Spurious(id: Id)

  const DEF_QUEUE_SIZE := 16

  /** `add_work_structs`: `n` new items at the tail of the free pool. */
  function Fresh(next: nat, n: int): (r: seq<Item>)
    ensures |r| == if n > 0 then n else 0
    ensures forall k :: 0 <= k < |r| ==> r[k] == next + k
    decreases n
  {
    if n <= 0 then [] else [next] + Fresh(next + 1, n - 1)
  }

  /** `tpool_init` with `do_not_block_when_full`. */
  function Init(producers: set<Id>, workers: set<Id>, max: int): State {
    var cur := if max < DEF_QUEUE_SIZE then max else DEF_QUEUE_SIZE;
    State(Fresh(0, cur), [], if cur > 0 then cur else 0, cur, max, map[],
          map p | p in producers :: Away, map w | w in workers :: Looking, 0, {}, [])
  }

  function MoveProducer(s: State, p: Id, q: Producer): State {
    s.(producers := s.producers[p := q])
  }

  function MoveWorker(s: State, w: Id, q: Worker): State {
    s.(workers := s.workers[w := q])
  }

  /** The number of items that lines 213 to 221 add. */
  function Growth(s: State): int {
    if s.cur + DEF_QUEUE_SIZE < s.max then DEF_QUEUE_SIZE else s.max - s.cur
  }

  /** `pool_pop` takes from the tail. */
  function Last<T>(s: seq<T>): T
    requires s != []
  {
    s[|s| - 1]
  }

  function Init0<T>(s: seq<T>): seq<T>
    requires s != []
  {
    s[..|s| - 1]
  }

  function ProducerStep(s: State, p: Id, woken: set<Id>): Option<State>
    requires p in s.producers
  {
    match s.producers[p]
    case Checking(job) =>
      Some(MoveProducer(s, p, if s.free == [] && s.cur == s.max then Away else Growing(job)))
    case Growing(job) =>
      if s.free != [] then Some(MoveProducer(s, p, Getting(job)))
      else if s.cur < s.max then
        var n := Growth(s);
        Some(MoveProducer(s, p, Getting(job)).(free := Fresh(s.next, n), next := s.next + |Fresh(s.next, n)|))
      else Some(MoveProducer(s, p, Late(job)))
    case Getting(job) =>
      if s.free == [] then Some(MoveProducer(s, p, Crashed(job)))
      else Some(MoveProducer(s, p, Filling(job, Last(s.free))).(free := Init0(s.free)))
    case Filling(job, item) => Some(MoveProducer(s, p, Pushing(item)).(stored := s.stored[item := job]))
    case Pushing(item) =>
      if item !in s.stored then None
      else Some(MoveProducer(s, p, Signalling).(active := s.active + [item], accepted := s.accepted + {s.stored[item]}))
    case Signalling =>
      if Signal(s.workers, woken) then Some(MoveProducer(s, p, Away).(workers := WakeAll(s.workers, woken))) else None
    case Late(job) => Some(MoveProducer(s, p, Away))
    case _ => None
  }

  /** `pthread_cond_signal` wakes at least one sleeping worker, if there is one. */
  predicate Signal(workers: map<Id, Worker>, woken: set<Id>) {
    && (forall w :: w in woken ==> w in workers && workers[w].Asleep?)
    && ((exists w :: w in workers && workers[w].Asleep?) ==> woken != {})
  }

  function WakeAll(workers: map<Id, Worker>, woken: set<Id>): map<Id, Worker> {
    map w | w in workers :: if w in woken && workers[w].Asleep? then Woken else workers[w]
  }

  function WorkerStep(s: State, w: Id): Option<State>
    requires w in s.workers
  {
    match s.workers[w]
    case Looking => Some(MoveWorker(s, w, if s.active == [] then Asleep else Fetching))
    case Woken => Some(MoveWorker(s, w, if s.active == [] then Asleep else Fetching))
    case Fetching =>
      if s.active == [] then Some(MoveWorker(s, w, Looking))
      else Some(MoveWorker(s, w, Running(Last(s.active))).(active := Init0(s.active)))
    case Running(item) =>
      if item !in s.stored then None
      else Some(MoveWorker(s, w, Freeing(item)).(log := s.log + [s.stored[item]]))
    case Freeing(item) => Some(MoveWorker(s, w, Looking).(free := s.free + [item], stored := s.stored - {item}))
    case Asleep => None
  }

  function Do(s: State, e: Event): Option<State> {
    match e
    case Submit(p) =>
      if p in s.producers && s.producers[p].Away?
      then Some(MoveProducer(s, p, Checking(s.jobs)).(jobs := s.jobs + 1)) else None
    case Produce(p, woken) => if p in s.producers then ProducerStep(s, p, woken) else None
    case Work(w) => if w in s.workers then WorkerStep(s, w) else None
    case Spurious(w) =>
      if w in s.workers && s.workers[w].Asleep? then Some(MoveWorker(s, w, Woken)) else None
  }

  function Run(s: State, es: seq<Event>): Option<State>
    decreases |es|
  {
    if es == [] then Some(s)
    else
      var n := Do(s, es[0]);
      if n.None? then None else Run(n.value, es[1..])
  }

  // ----- every item is in exactly one place -----

  datatype Place = InFree | InActive | WithProducer(p: Id) | WithWorker(w: Id)

  function HeldByProducer(q: Producer): Option<Item> {
    if q.Filling? || q.Pushing? then Some(q.item) else None
  }

  function HeldByWorker(q: Worker): Option<Item> {
    if q.Running? || q.Freeing? then Some(q.item) else None
  }

  /** The item is found at the given place. */
  ghost predicate Found(s: State, i: Item, at: Place) {
    match at
    case InFree => i in s.free
    case InActive => i in s.active
    case WithProducer(p) => p in s.producers && HeldByProducer(s.producers[p]) == Some(i)
    case WithWorker(w) => w in s.workers && HeldByWorker(s.workers[w]) == Some(i)
  }

  /** `at` gives the one place of every item. */
  ghost predicate Placed(s: State, at: map<Item, Place>) {
    && (forall i: Item :: i in at <==> i < s.next)
    && (forall i: Item, pl: Place :: Found(s, i, pl) <==> i in at && at[i] == pl)
    && Distinct(s.free) && Distinct(s.active)
  }

  lemma InitPlaced(producers: set<Id>, workers: set<Id>, max: int) returns (at: map<Item, Place>)
    ensures Placed(Init(producers, workers, max), at)
  {
    var s := Init(producers, workers, max);
    at := map i | i in s.free :: InFree;
    forall i: Item | i < s.next ensures i in s.free {
      assert s.free[i] == i;
    }
  }

  /** The item `i` is now at `pl`, and no other item has moved. */
  ghost predicate Moved(s: State, s': State, i: Item, pl: Place) {
    && s'.next == s.next && i < s.next
    && (forall j: Item, q: Place :: Found(s', j, q) <==> if j == i then q == pl else Found(s, j, q))
    && Distinct(s'.free) && Distinct(s'.active)
  }

  /** No item has moved. */
  ghost predicate Kept(s: State, s': State) {
    s'.next == s.next && s'.free == s.free && s'.active == s.active
    && (forall j: Item, q: Place :: Found(s', j, q) <==> Found(s, j, q))
  }

  lemma PopMembers<T>(s: seq<T>)
    requires s != [] && Distinct(s)
    ensures Distinct(Init0(s)) && forall x :: x in Init0(s) <==> x in s && x != Last(s)
  {
    forall x | x in s && x != Last(s) ensures x in Init0(s) {
      var k :| 0 <= k < |s| && s[k] == x;
      assert Init0(s)[k] == x;
    }
  }

  lemma PushMembers<T>(s: seq<T>, x: T)
    requires Distinct(s) && x !in s
    ensures Distinct(s + [x]) && forall y :: y in s + [x] <==> y in s || y == x
  {
  }

  /** The item that step `e` moves, and where it goes. */
  ghost function Target(s: State, e: Event): Option<(Item, Place)> {
    match e
    case Produce(p, _) =>
      if p !in s.producers then None
      else if s.producers[p].Getting? && s.free != [] then Some((Last(s.free), WithProducer(p)))
      else if s.producers[p].Pushing? then Some((s.producers[p].item, InActive))
      else None
    case Work(w) =>
      if w !in s.workers then None
      else if s.workers[w].Fetching? && s.active != [] then Some((Last(s.active), WithWorker(w)))
      else if s.workers[w].Freeing? then Some((s.workers[w].item, InFree))
      else None
    case _ => None
  }

  /** The step is a growth of the free pool. */
  ghost predicate Grows(s: State, e: Event) {
    e.Produce? && e.id in s.producers && s.producers[e.id].Growing? && s.free == [] && s.cur < s.max
  }

  lemma StepMoves(s: State, e: Event, at: map<Item, Place>)
    requires Placed(s, at) && Do(s, e).Some? && Target(s, e).Some?
    ensures Moved(s, Do(s, e).value, Target(s, e).value.0, Target(s, e).value.1)
  {
    var i := Target(s, e).value.0;
    if e.Produce? && s.producers[e.id].Getting? {
      assert Found(s, i, InFree);
      PopMembers(s.free);
    } else if e.Produce? {
      assert Found(s, i, WithProducer(e.id));
      assert !Found(s, i, InActive);
      PushMembers(s.active, i);
    } else if s.workers[e.id].Fetching? {
      assert Found(s, i, InActive);
      PopMembers(s.active);
    } else {
      assert Found(s, i, WithWorker(e.id));
      assert !Found(s, i, InFree);
      PushMembers(s.free, i);
    }
    var s', pl := Do(s, e).value, Target(s, e).value.1;
    forall j: Item, q: Place ensures Found(s', j, q) <==> if j == i then q == pl else Found(s, j, q) {
      assert Found(s, j, q) ==> j in at && at[j] == q;
    }
  }

  lemma StepKeeps(s: State, e: Event)
    requires Do(s, e).Some? && Target(s, e).None? && !Grows(s, e)
    ensures Kept(s, Do(s, e).value)
  {
    match e
    case Produce(p, woken) => ProduceKeeps(s, p, woken);
    case Work(w) =>
    case Submit(p) =>
    case Spurious(w) =>
  }

  lemma ProduceKeeps(s: State, p: Id, woken: set<Id>)
    requires p in s.producers && ProducerStep(s, p, woken).Some?
    requires Target(s, Produce(p, woken)).None? && !Grows(s, Produce(p, woken))
    ensures Kept(s, ProducerStep(s, p, woken).value)
  {
    hide Signal, Growth, Fresh;
  }

  /** The items from `a` up to `b`. */
  function Between(a: nat, b: nat): (r: set<Item>)
    requires a <= b
    ensures forall i: Item :: i in r <==> a <= i < b
    decreases b - a
  {
    if a == b then {} else {a} + Between(a + 1, b)
  }

  /** Growing fills the empty free pool with the next items and puts nothing else anywhere. */
  lemma GrownItems(s: State, e: Event)
    requires Do(s, e).Some? && Grows(s, e)
    ensures var s' := Do(s, e).value;
      && s.next <= s'.next && Distinct(s'.free) && s'.active == s.active
      && (forall i: Item :: Found(s', i, InFree) <==> s.next <= i < s'.next)
      && (forall i: Item :: !Found(s, i, InFree))
      && (forall i: Item, pl: Place :: pl != InFree ==> (Found(s', i, pl) <==> Found(s, i, pl)))
  {
    var s' := Do(s, e).value;
    forall i: Item | s.next <= i < s'.next ensures i in s'.free {
      assert s'.free[i - s.next] == i;
    }
  }

  lemma StepGrows(s: State, e: Event, at: map<Item, Place>) returns (at': map<Item, Place>)
    requires Placed(s, at) && Do(s, e).Some? && Grows(s, e)
    ensures Placed(Do(s, e).value, at')
  {
    var s' := Do(s, e).value;
    GrownItems(s, e);
    hide Do, Found, Grows, Between, Distinct;
    var grown := Between(s.next, s'.next);
    at' := at + (map i | i in grown :: InFree);
    forall i: Item, pl: Place ensures Found(s', i, pl) <==> i in at' && at'[i] == pl {
      assert Found(s, i, pl) <==> i in at && at[i] == pl;
      assert !(i in at && at[i] == InFree) by { assert !Found(s, i, InFree); }
    }
  }

  /** Every step keeps every item in exactly one place. */
  lemma StepPlaced(s: State, e: Event, at: map<Item, Place>) returns (at': map<Item, Place>)
    requires Placed(s, at) && Do(s, e).Some?
    ensures Placed(Do(s, e).value, at')
  {
    hide Do, Found;
    if Target(s, e).Some? {
      StepMoves(s, e, at);
      at' := at[Target(s, e).value.0 := Target(s, e).value.1];
    } else if Grows(s, e) {
      at' := StepGrows(s, e, at);
    } else {
      StepKeeps(s, e);
      at' := at;
    }
  }

  // ----- every accepted job is queued, claimed or done, and runs at most once -----

  datatype JobPlace = Submitted(p: Id) | Queued(item: Item) | Claimed(w: Id) | Done

  /** The job a producer carries, directly or in the item it is about to push. */
  function Carried(q: Producer, stored: map<Item, Job>): Option<Job> {
    match q
    case Pushing(item) => if item in stored then Some(stored[item]) else None
    case Away => None
    case Signalling => None
    case Checking(job) => Some(job)
    case Growing(job) => Some(job)
    case Getting(job) => Some(job)
    case Filling(job, _) => Some(job)
    case Late(job) => Some(job)
    case Crashed(job) => Some(job)
  }

  ghost predicate FoundJob(s: State, j: Job, pl: JobPlace) {
    match pl
    case Submitted(p) => p in s.producers && Carried(s.producers[p], s.stored) == Some(j)
    case Queued(i) => i in s.active && i in s.stored && s.stored[i] == j
    case Claimed(w) =>
      w in s.workers && s.workers[w].Running? && s.workers[w].item in s.stored && s.stored[s.workers[w].item] == j
    case Done => j in s.log
  }

  /** Items that carry work have a routine stored in them. */
  ghost predicate Loaded(s: State) {
    && (forall i :: i in s.active ==> i in s.stored)
    && (forall p :: p in s.producers && s.producers[p].Pushing? ==> s.producers[p].item in s.stored)
    && (forall w :: w in s.workers && s.workers[w].Running? ==> s.workers[w].item in s.stored)
  }

  /** `jat` gives the one place of every job that was not turned away. */
  ghost predicate Traced(s: State, jat: map<Job, JobPlace>) {
    && (forall j :: j in jat ==> j < s.jobs)
    && (forall j: Job, pl: JobPlace :: FoundJob(s, j, pl) <==> j in jat && jat[j] == pl)
    && (forall j :: j in s.accepted <==> j in jat && !jat[j].Submitted?)
    && Distinct(s.log)
  }

  /** How step `e` changes the place of a job: None for no change, and an inner None for a job that is turned away. */
  ghost function JobTarget(s: State, e: Event): Option<(Job, Option<JobPlace>)> {
    match e
    case Submit(p) => Some((s.jobs, Some(Submitted(p))))
    case Produce(p, _) =>
      if p !in s.producers then None
      else if s.producers[p].Checking? && s.free == [] && s.cur == s.max then Some((s.producers[p].job, None))
      else if s.producers[p].Late? then Some((s.producers[p].job, None))
      else if s.producers[p].Pushing? && s.producers[p].item in s.stored
      then Some((s.stored[s.producers[p].item], Some(Queued(s.producers[p].item))))
      else None
    case Work(w) =>
      if w !in s.workers then None
      else if s.workers[w].Fetching? && s.active != [] && Last(s.active) in s.stored
      then Some((s.stored[Last(s.active)], Some(Claimed(w))))
      else if s.workers[w].Running? && s.workers[w].item in s.stored
      then Some((s.stored[s.workers[w].item], Some(Done)))
      else None
    case Spurious(_) => None
  }

  ghost predicate JobMoved(s: State, s': State, t: Option<(Job, Option<JobPlace>)>) {
    forall j: Job, q: JobPlace :: FoundJob(s', j, q) <==>
      if t.Some? && j == t.value.0 then t.value.1 == Some(q) else FoundJob(s, j, q)
  }

  lemma StepLoaded(s: State, e: Event, at: map<Item, Place>)
    requires Placed(s, at) && Loaded(s) && Do(s, e).Some?
    ensures Loaded(Do(s, e).value)
  {
    hide Placed;
    match e
    case Submit(_) =>
    case Spurious(_) =>
    case Produce(p, woken) => ProduceLoaded(s, p, woken);
    case Work(w) => WorkLoaded(s, w, at);
  }

  lemma ProduceLoaded(s: State, p: Id, woken: set<Id>)
    requires Loaded(s) && p in s.producers && ProducerStep(s, p, woken).Some?
    ensures Loaded(ProducerStep(s, p, woken).value)
  {
    if s.producers[p].Filling? || s.producers[p].Pushing? || s.producers[p].Signalling? {
      HandOverLoaded(s, p, woken);
    } else {
      PrepareLoaded(s, p, woken);
    }
  }

  lemma HandOverLoaded(s: State, p: Id, woken: set<Id>)
    requires Loaded(s) && p in s.producers && ProducerStep(s, p, woken).Some?
    requires s.producers[p].Filling? || s.producers[p].Pushing? || s.producers[p].Signalling?
    ensures Loaded(ProducerStep(s, p, woken).value)
  {
    hide Signal, Growth, Fresh;
  }

  lemma PrepareLoaded(s: State, p: Id, woken: set<Id>)
    requires Loaded(s) && p in s.producers && ProducerStep(s, p, woken).Some?
    requires !s.producers[p].Filling? && !s.producers[p].Pushing? && !s.producers[p].Signalling?
    ensures Loaded(ProducerStep(s, p, woken).value)
  {
    hide Signal, Growth, Fresh;
    var s' := ProducerStep(s, p, woken).value;
    assert s'.active == s.active && s'.stored == s.stored && s'.workers == s.workers;
  }

  lemma WorkLoaded(s: State, w: Id, at: map<Item, Place>)
    requires Placed(s, at) && Loaded(s) && w in s.workers && WorkerStep(s, w).Some?
    ensures Loaded(WorkerStep(s, w).value)
  {
    if s.workers[w].Freeing? {
      FreedElsewhere(s, w, at);
      hide Placed;
    } else if s.workers[w].Fetching? && s.active != [] {
      PopMembers(s.active);
      hide Placed;
    } else {
      hide Placed;
    }
  }

  /** The item a worker gives back is not active, not being pushed and not being run. */
  lemma FreedElsewhere(s: State, w: Id, at: map<Item, Place>)
    requires Placed(s, at) && w in s.workers && s.workers[w].Freeing?
    ensures s.workers[w].item !in s.active
    ensures forall p :: p in s.producers && s.producers[p].Pushing? ==> s.producers[p].item != s.workers[w].item
    ensures forall v :: v in s.workers && s.workers[v].Running? ==> s.workers[v].item != s.workers[w].item
  {
    var i := s.workers[w].item;
    assert Found(s, i, WithWorker(w));
    assert !Found(s, i, InActive);
    forall p | p in s.producers && s.producers[p].Pushing? ensures s.producers[p].item != i {
      assert !Found(s, i, WithProducer(p));
    }
    forall v | v in s.workers && s.workers[v].Running? ensures s.workers[v].item != i {
      if v != w { assert !Found(s, i, WithWorker(v)); }
    }
  }

  /** The item a producer fills is not active, and nobody else pushes or runs it. */
  lemma FilledElsewhere(s: State, p: Id, at: map<Item, Place>)
    requires Placed(s, at) && p in s.producers && s.producers[p].Filling?
    ensures s.producers[p].item !in s.active
    ensures forall q :: q in s.producers && s.producers[q].Pushing? ==> s.producers[q].item != s.producers[p].item
    ensures forall v :: v in s.workers && s.workers[v].Running? ==> s.workers[v].item != s.producers[p].item
  {
    var i := s.producers[p].item;
    assert Found(s, i, WithProducer(p));
    assert !Found(s, i, InActive);
    forall q | q in s.producers && s.producers[q].Pushing? ensures s.producers[q].item != i {
      if q != p { assert !Found(s, i, WithProducer(q)); }
    }
    forall v | v in s.workers && s.workers[v].Running? ensures s.workers[v].item != i {
      assert !Found(s, i, WithWorker(v));
    }
  }

  /** Filling an item changes what is found nowhere. */
  lemma FillMovesNoJob(s: State, p: Id, at: map<Item, Place>)
    requires Placed(s, at) && p in s.producers && s.producers[p].Filling?
    ensures JobMoved(s, ProducerStep(s, p, {}).value, None)
  {
    FilledElsewhere(s, p, at);
    hide Placed;
  }

  lemma PushMovesJob(s: State, p: Id, jat: map<Job, JobPlace>)
    requires Traced(s, jat) && p in s.producers && s.producers[p].Pushing? && s.producers[p].item in s.stored
    ensures JobMoved(s, ProducerStep(s, p, {}).value, JobTarget(s, Produce(p, {})))
  {
    var s', i := ProducerStep(s, p, {}).value, s.producers[p].item;
    var j0 := s.stored[i];
    assert FoundJob(s, j0, Submitted(p));
    forall j: Job, q: JobPlace ensures FoundJob(s', j, q) <==> if j == j0 then q == Queued(i) else FoundJob(s, j, q) {
      assert FoundJob(s, j, q) <==> j in jat && jat[j] == q;
    }
  }

  lemma OtherProduceMoves(s: State, p: Id, woken: set<Id>, jat: map<Job, JobPlace>)
    requires Traced(s, jat) && p in s.producers && !s.producers[p].Filling? && !s.producers[p].Pushing?
    requires ProducerStep(s, p, woken).Some?
    ensures JobMoved(s, ProducerStep(s, p, woken).value, JobTarget(s, Produce(p, woken)))
  {
    if s.producers[p].Signalling? {
      SignalMoves(s, p, woken, jat);
    } else {
      LocalProduceMoves(s, p, woken, jat);
    }
  }

  lemma SignalMoves(s: State, p: Id, woken: set<Id>, jat: map<Job, JobPlace>)
    requires Traced(s, jat) && p in s.producers && s.producers[p].Signalling?
    requires ProducerStep(s, p, woken).Some?
    ensures JobMoved(s, ProducerStep(s, p, woken).value, JobTarget(s, Produce(p, woken)))
  {
    hide Signal;
  }

  lemma LocalProduceMoves(s: State, p: Id, woken: set<Id>, jat: map<Job, JobPlace>)
    requires Traced(s, jat) && p in s.producers && ProducerStep(s, p, woken).Some?
    requires !s.producers[p].Filling? && !s.producers[p].Pushing? && !s.producers[p].Signalling?
    ensures JobMoved(s, ProducerStep(s, p, woken).value, JobTarget(s, Produce(p, woken)))
  {
    hide Growth, Fresh;
    var s', t := ProducerStep(s, p, woken).value, JobTarget(s, Produce(p, woken));
    if t.Some? { assert FoundJob(s, t.value.0, Submitted(p)); }
    assert s'.active == s.active && s'.stored == s.stored && s'.log == s.log && s'.workers == s.workers;
    forall j: Job, q: JobPlace
      ensures FoundJob(s', j, q) <==> if t.Some? && j == t.value.0 then t.value.1 == Some(q) else FoundJob(s, j, q)
    {
      assert FoundJob(s, j, q) <==> j in jat && jat[j] == q;
    }
  }

  lemma WorkMovesJob(s: State, w: Id, at: map<Item, Place>, jat: map<Job, JobPlace>)
    requires Placed(s, at) && Loaded(s) && Traced(s, jat) && w in s.workers && WorkerStep(s, w).Some?
    ensures JobMoved(s, WorkerStep(s, w).value, JobTarget(s, Work(w)))
  {
    if s.workers[w].Freeing? {
      FreedElsewhere(s, w, at);
    } else if s.workers[w].Fetching? && s.active != [] {
      PopMembers(s.active);
      assert FoundJob(s, s.stored[Last(s.active)], Queued(Last(s.active)));
    } else if s.workers[w].Running? {
      assert FoundJob(s, s.stored[s.workers[w].item], Claimed(w));
    }
    hide Placed;
    var s', t := WorkerStep(s, w).value, JobTarget(s, Work(w));
    forall j: Job, q: JobPlace
      ensures FoundJob(s', j, q) <==> if t.Some? && j == t.value.0 then t.value.1 == Some(q) else FoundJob(s, j, q)
    {
      assert FoundJob(s, j, q) <==> j in jat && jat[j] == q;
    }
  }

  lemma StepMovesJob(s: State, e: Event, at: map<Item, Place>, jat: map<Job, JobPlace>)
    requires Placed(s, at) && Loaded(s) && Traced(s, jat) && Do(s, e).Some?
    ensures JobMoved(s, Do(s, e).value, JobTarget(s, e))
  {
    match e
    case Submit(p) => SubmitMovesJob(s, p, jat);
    case Spurious(w) =>
    case Work(w) => WorkMovesJob(s, w, at, jat);
    case Produce(p, woken) =>
      if s.producers[p].Filling? {
        FillMovesNoJob(s, p, at);
      } else if s.producers[p].Pushing? {
        PushMovesJob(s, p, jat);
      } else {
        OtherProduceMoves(s, p, woken, jat);
      }
  }

  lemma SubmitMovesJob(s: State, p: Id, jat: map<Job, JobPlace>)
    requires Traced(s, jat) && Do(s, Submit(p)).Some?
    ensures JobMoved(s, Do(s, Submit(p)).value, JobTarget(s, Submit(p)))
  {
    var s' := Do(s, Submit(p)).value;
    forall j: Job, q: JobPlace
      ensures FoundJob(s', j, q) <==> if j == s.jobs then q == Submitted(p) else FoundJob(s, j, q)
    {
      assert FoundJob(s, j, q) <==> j in jat && jat[j] == q;
    }
  }

  /** Every step keeps every job in at most one place, and runs no job a second time. */
  lemma StepTraced(s: State, e: Event, at: map<Item, Place>, jat: map<Job, JobPlace>) returns (jat': map<Job, JobPlace>)
    requires Placed(s, at) && Loaded(s) && Traced(s, jat) && Do(s, e).Some?
    ensures Traced(Do(s, e).value, jat')
  {
    hide FoundJob, Placed;
    StepMovesJob(s, e, at, jat);
    var t := JobTarget(s, e);
    if t.Some? { JobTargetWas(s, e, jat); }
    jat' := if t.None? then jat else if t.value.1.None? then jat - {t.value.0} else jat[t.value.0 := t.value.1.value];
    StepRecords(s, e);
    hide Do;
    if e.Work? && t.Some? && t.value.1 == Some(Done) { PushMembers(s.log, t.value.0); }
  }

  /** A job that moves was where the step found it. */
  lemma JobTargetWas(s: State, e: Event, jat: map<Job, JobPlace>)
    requires Traced(s, jat) && Do(s, e).Some? && JobTarget(s, e).Some?
    ensures var (j, q) := JobTarget(s, e).value;
      match e
      case Submit(p) => j == s.jobs && j !in jat
      case Produce(p, _) => j in jat && jat[j] == Submitted(p) && (q.Some? ==> !q.value.Submitted?)
      case Work(w) => j in jat && !jat[j].Submitted? && !jat[j].Done? && j !in s.log && q.Some? && !q.value.Submitted?
      case Spurious(_) => false
  {
    var j := JobTarget(s, e).value.0;
    match e
    case Submit(p) =>
    case Produce(p, _) => assert FoundJob(s, j, Submitted(p));
    case Work(w) =>
      if s.workers[w].Fetching? {
        assert FoundJob(s, j, Queued(Last(s.active)));
      } else {
        assert FoundJob(s, j, Claimed(w));
      }
      assert !FoundJob(s, j, Done);
    case Spurious(_) =>
  }

  /** What a step writes into the records of accepted and finished jobs. */
  lemma StepRecords(s: State, e: Event)
    requires Do(s, e).Some?
    ensures var (s', t) := (Do(s, e).value, JobTarget(s, e));
      && s'.accepted == (if e.Produce? && t.Some? && t.value.1.Some? then s.accepted + {t.value.0} else s.accepted)
      && s'.log == (if e.Work? && t.Some? && t.value.1 == Some(Done) then s.log + [t.value.0] else s.log)
      && s'.jobs == (if e.Submit? then s.jobs + 1 else s.jobs)
  {
    hide Signal, Growth, Fresh;
  }

  // ----- no wake-up is lost -----

  /** Work never waits for workers that are all asleep, unless a signal is about to be sent. */
  ghost predicate Attended(s: State) {
    s.active != [] && s.workers != map[] ==>
      || (exists w :: w in s.workers && !s.workers[w].Asleep?)
      || (exists p :: p in s.producers && s.producers[p].Signalling?)
  }

  lemma StepAttended(s: State, e: Event)
    requires Attended(s) && Do(s, e).Some?
    ensures Attended(Do(s, e).value)
  {
    match e
    case Produce(p, woken) => ProduceAttended(s, p, woken);
    case Work(w) => WorkAttended(s, w);
    case Submit(p) =>
      if q :| q in s.producers && s.producers[q].Signalling? {
        assert Do(s, e).value.producers[q].Signalling?;
      }
    case Spurious(w) => assert !Do(s, e).value.workers[w].Asleep?;
  }

  lemma ProduceAttended(s: State, p: Id, woken: set<Id>)
    requires Attended(s) && p in s.producers && ProducerStep(s, p, woken).Some?
    ensures Attended(ProducerStep(s, p, woken).value)
  {
    var s' := ProducerStep(s, p, woken).value;
    if s.producers[p].Signalling? {
      if s.workers != map[] { SignalAttends(s, p, woken); }
    } else if s.producers[p].Pushing? {
      assert s'.producers[p].Signalling?;
    } else {
      hide Signal, Growth, Fresh;
      assert s'.workers == s.workers && s'.active == s.active;
      if q :| q in s.producers && s.producers[q].Signalling? {
        assert s'.producers[q].Signalling?;
      }
    }
  }

  lemma SignalAttends(s: State, p: Id, woken: set<Id>)
    requires p in s.producers && s.producers[p].Signalling? && Signal(s.workers, woken) && s.workers != map[]
    ensures exists w :: w in s.workers && !WakeAll(s.workers, woken)[w].Asleep?
  {
    var w :| w in s.workers;
    if s.workers[w].Asleep? {
      var v :| v in woken;
      assert !WakeAll(s.workers, woken)[v].Asleep?;
    } else {
      assert !WakeAll(s.workers, woken)[w].Asleep?;
    }
  }

  lemma WorkAttended(s: State, w: Id)
    requires Attended(s) && w in s.workers && WorkerStep(s, w).Some?
    ensures Attended(WorkerStep(s, w).value)
  {
    var s' := WorkerStep(s, w).value;
    if s'.active != [] {
      assert !s'.workers[w].Asleep?;
    }
  }

  // ----- with one producer, line 233 always finds an item -----

  /** What the only producer relies on between the critical sections. */
  ghost predicate Supplied(s: State) {
    && s.cur <= s.max
    && (forall p, q :: p in s.producers && q in s.producers ==> p == q)
    && (forall p :: p in s.producers ==>
      && !s.producers[p].Late? && !s.producers[p].Crashed?
      && (s.producers[p].Growing? ==> s.free != [] || s.cur < s.max)
      && (s.producers[p].Getting? ==> s.free != []))
  }

  lemma StepSupplied(s: State, e: Event)
    requires Supplied(s) && Do(s, e).Some?
    ensures Supplied(Do(s, e).value)
  {
    if e.Produce? {
      ProduceSupplied(s, e.id, e.woken);
    }
  }

  lemma ProduceSupplied(s: State, p: Id, woken: set<Id>)
    requires Supplied(s) && p in s.producers && ProducerStep(s, p, woken).Some?
    ensures Supplied(ProducerStep(s, p, woken).value)
  {
    hide Signal, WakeAll;
  }

  // ----- theorems over all runs -----

  /** A state that some run reaches. */
  ghost predicate Reachable(producers: set<Id>, workers: set<Id>, max: int, s: State) {
    exists es :: Run(Init(producers, workers, max), es) == Some(s)
  }

  ghost predicate Inv(s: State, at: map<Item, Place>, jat: map<Job, JobPlace>) {
    Placed(s, at) && Loaded(s) && Traced(s, jat) && Attended(s)
  }

  lemma {:induction false} RunInv(s: State, es: seq<Event>, at: map<Item, Place>, jat: map<Job, JobPlace>)
    returns (at': map<Item, Place>, jat': map<Job, JobPlace>)
    requires Inv(s, at, jat) && Run(s, es).Some?
    ensures Inv(Run(s, es).value, at', jat')
    ensures s.producers.Keys == Run(s, es).value.producers.Keys && s.workers.Keys == Run(s, es).value.workers.Keys
    decreases |es|
  {
    hide Placed, Loaded, Traced, Attended, Do;
    if es == [] {
      at', jat' := at, jat;
    } else {
      var n := Do(s, es[0]).value;
      at' := StepPlaced(s, es[0], at);
      jat' := StepTraced(s, es[0], at, jat);
      StepLoaded(s, es[0], at);
      StepAttended(s, es[0]);
      StepThreads(s, es[0]);
      at', jat' := RunInv(n, es[1..], at', jat');
    }
  }

  lemma StepThreads(s: State, e: Event)
    requires Do(s, e).Some?
    ensures s.producers.Keys == Do(s, e).value.producers.Keys && s.workers.Keys == Do(s, e).value.workers.Keys
  {
    if e.Produce? {
      ProduceThreads(s, e.id, e.woken);
    }
  }

  lemma ProduceThreads(s: State, p: Id, woken: set<Id>)
    requires p in s.producers && ProducerStep(s, p, woken).Some?
    ensures s.producers.Keys == ProducerStep(s, p, woken).value.producers.Keys
    ensures s.workers.Keys == ProducerStep(s, p, woken).value.workers.Keys
  {
    hide Signal, Growth, Fresh;
  }

  lemma ReachableInv(producers: set<Id>, workers: set<Id>, max: int, s: State)
    returns (at: map<Item, Place>, jat: map<Job, JobPlace>)
    requires Reachable(producers, workers, max, s)
    ensures Inv(s, at, jat) && s.workers.Keys == workers && s.producers.Keys == producers
  {
    var s0 := Init(producers, workers, max);
    var es :| Run(s0, es) == Some(s);
    at := InitPlaced(producers, workers, max);
    jat := map[];
    at, jat := RunInv(s0, es, at, jat);
  }

  /** Each work item is in exactly one of free, active, a producer's hand or a worker's hand. */
  lemma EachItemInOnePlace(producers: set<Id>, workers: set<Id>, max: int, s: State, i: Item)
    requires Reachable(producers, workers, max, s)
    ensures i < s.next ==> exists pl :: Found(s, i, pl)
    ensures forall p, q :: Found(s, i, p) && Found(s, i, q) ==> p == q && i < s.next
    ensures Distinct(s.free) && Distinct(s.active)
  {
    var at, jat := ReachableInv(producers, workers, max, s);
    if i < s.next { assert Found(s, i, at[i]); }
  }

  /** Each accepted job is in exactly one of the queue, a worker's hand or the log, and the log runs no job twice. */
  lemma EachJobRunsAtMostOnce(producers: set<Id>, workers: set<Id>, max: int, s: State, j: Job)
    requires Reachable(producers, workers, max, s)
    ensures j in s.accepted <==> exists pl :: FoundJob(s, j, pl) && !pl.Submitted?
    ensures forall p, q :: FoundJob(s, j, p) && FoundJob(s, j, q) ==> p == q
    ensures Distinct(s.log)
  {
    var at, jat := ReachableInv(producers, workers, max, s);
    if j in s.accepted { assert FoundJob(s, j, jat[j]); }
  }

  /** An active item never coexists with all workers asleep and no signal pending. */
  lemma WorkIsAttended(producers: set<Id>, workers: set<Id>, max: int, s: State)
    requires Reachable(producers, workers, max, s) && workers != {} && s.active != []
    ensures (exists w :: w in s.workers && !s.workers[w].Asleep?)
         || (exists p :: p in s.producers && s.producers[p].Signalling?)
  {
    var at, jat := ReachableInv(producers, workers, max, s);
  }

  lemma {:induction false} RunSupplied(s: State, es: seq<Event>)
    requires Supplied(s) && Run(s, es).Some?
    ensures Supplied(Run(s, es).value)
    decreases |es|
  {
    hide Supplied, Do;
    if es != [] {
      StepSupplied(s, es[0]);
      RunSupplied(Do(s, es[0]).value, es[1..]);
    }
  }

  /** With a single producer the lookup on line 233 never fails, and the branch on line 222 is never taken. */
  lemma SingleProducerIsSupplied(producer: Id, workers: set<Id>, max: int, s: State)
    requires Reachable({producer}, workers, max, s)
    ensures producer in s.producers && !s.producers[producer].Crashed? && !s.producers[producer].Late?
    ensures s.producers[producer].Getting? ==> s.free != []
  {
    var s0 := Init({producer}, workers, max);
    var es :| Run(s0, es) == Some(s);
    RunSupplied(s0, es);
    var at, jat := ReachableInv({producer}, workers, max, s);
  }

  // ----- when line 233 can fail -----

  lemma RunCons(s: State, e: Event, es: seq<Event>)
    requires Do(s, e).Some?
    ensures Run(s, [e] + es) == Run(Do(s, e).value, es)
  {
    assert ([e] + es)[1..] == es;
  }

  lemma {:induction false} RunAppend(s: State, es: seq<Event>, fs: seq<Event>)
    ensures Run(s, es + fs) == var n := Run(s, es); if n.None? then None else Run(n.value, fs)
    decreases |es|
  {
    if es == [] {
      assert es + fs == fs;
    } else {
      assert (es + fs)[0] == es[0] && (es + fs)[1..] == es[1..] + fs;
      var n := Do(s, es[0]);
      if n.Some? { RunAppend(n.value, es[1..], fs); }
    }
  }

  /** Nobody sleeps, `p` and `q` are outside the code, and `n` items are free. */
  ghost predicate Ready(s: State, p: Id, q: Id, n: nat) {
    && p != q && p in s.producers && q in s.producers && s.producers[p].Away? && s.producers[q].Away?
    && |s.free| == n && forall w :: w in s.workers ==> !s.workers[w].Asleep?
  }

  /** Producer `p` can submit a job all by itself and take one free item away. */
  lemma TakeOne(s: State, p: Id, q: Id, n: nat) returns (es: seq<Event>, s': State)
    requires Ready(s, p, q, n) && n > 0
    ensures Run(s, es) == Some(s') && Ready(s', p, q, n - 1)
  {
    var go := Produce(p, {});
    var s1 := PickOne(s, p, q, n);
    s' := HandOne(s1, p, q, n - 1);
    es := [Submit(p), go, go, go] + [go, go, go];
    RunAppend(s, [Submit(p), go, go, go], [go, go, go]);
  }

  /** The producer stands with an item in its hand; `n` more are free. */
  ghost predicate Picked(s: State, p: Id, q: Id, n: nat) {
    && p != q && p in s.producers && q in s.producers && s.producers[p].Filling? && s.producers[q].Away?
    && |s.free| == n && forall w :: w in s.workers ==> !s.workers[w].Asleep?
  }

  lemma PickOne(s: State, p: Id, q: Id, n: nat) returns (s': State)
    requires Ready(s, p, q, n) && n > 0
    ensures Run(s, [Submit(p), Produce(p, {}), Produce(p, {}), Produce(p, {})]) == Some(s') && Picked(s', p, q, n - 1)
  {
    var go := Produce(p, {});
    var s1 := Do(s, Submit(p)).value;
    var s2 := Do(s1, go).value;
    var s3 := Do(s2, go).value;
    s' := Do(s3, go).value;
    assert Run(s', []) == Some(s');
    hide Run;
    assert [Submit(p), go, go, go] == [Submit(p)] + ([go] + ([go] + ([go] + [])));
    RunCons(s, Submit(p), [go] + ([go] + ([go] + [])));
    RunCons(s1, go, [go] + ([go] + []));
    RunCons(s2, go, [go] + []);
    RunCons(s3, go, []);
  }

  lemma HandOne(s: State, p: Id, q: Id, n: nat) returns (s': State)
    requires Picked(s, p, q, n)
    ensures Run(s, [Produce(p, {}), Produce(p, {}), Produce(p, {})]) == Some(s') && Ready(s', p, q, n)
  {
    var go := Produce(p, {});
    var s1 := Do(s, go).value;
    var s2 := Do(s1, go).value;
    s' := Do(s2, go).value;
    assert Run(s', []) == Some(s');
    hide Run;
    assert [go, go, go] == [go] + ([go] + ([go] + []));
    RunCons(s, go, [go] + ([go] + []));
    RunCons(s1, go, [go] + []);
    RunCons(s2, go, []);
  }

  /** With one free item left, two producers can both pass the test, and the second one finds nothing. */
  lemma RaceForLast(s: State, p: Id, q: Id) returns (es: seq<Event>, s': State)
    requires Ready(s, p, q, 1)
    ensures Run(s, es) == Some(s') && q in s'.producers && s'.producers[q].Crashed?
  {
    var goP, goQ := Produce(p, {}), Produce(q, {});
    var s1 := BothPass(s, p, q);
    s' := BothTake(s1, p, q);
    es := [Submit(p), Submit(q), goP, goQ] + [goP, goQ, goP, goQ];
    RunAppend(s, [Submit(p), Submit(q), goP, goQ], [goP, goQ, goP, goQ]);
  }

  lemma BothPass(s: State, p: Id, q: Id) returns (s': State)
    requires Ready(s, p, q, 1)
    ensures Run(s, [Submit(p), Submit(q), Produce(p, {}), Produce(q, {})]) == Some(s')
    ensures p in s'.producers && q in s'.producers && s'.producers[p].Growing? && s'.producers[q].Growing?
    ensures |s'.free| == 1
  {
    var goP, goQ := Produce(p, {}), Produce(q, {});
    var s1 := Do(s, Submit(p)).value;
    var s2 := Do(s1, Submit(q)).value;
    var s3 := Do(s2, goP).value;
    s' := Do(s3, goQ).value;
    assert Run(s', []) == Some(s');
    hide Run;
    assert [Submit(p), Submit(q), goP, goQ] == [Submit(p)] + ([Submit(q)] + ([goP] + ([goQ] + [])));
    RunCons(s, Submit(p), [Submit(q)] + ([goP] + ([goQ] + [])));
    RunCons(s1, Submit(q), [goP] + ([goQ] + []));
    RunCons(s2, goP, [goQ] + []);
    RunCons(s3, goQ, []);
  }

  lemma BothTake(s: State, p: Id, q: Id) returns (s': State)
    requires p != q && p in s.producers && q in s.producers && s.producers[p].Growing? && s.producers[q].Growing?
    requires |s.free| == 1
    ensures Run(s, [Produce(p, {}), Produce(q, {}), Produce(p, {}), Produce(q, {})]) == Some(s')
    ensures q in s'.producers && s'.producers[q].Crashed?
  {
    var goP, goQ := Produce(p, {}), Produce(q, {});
    var s1 := Do(s, goP).value;
    var s2 := Do(s1, goQ).value;
    var s3 := Do(s2, goP).value;
    s' := Do(s3, goQ).value;
    assert Run(s', []) == Some(s');
    hide Run;
    assert [goP, goQ, goP, goQ] == [goP] + ([goQ] + ([goP] + ([goQ] + [])));
    RunCons(s, goP, [goQ] + ([goP] + ([goQ] + [])));
    RunCons(s1, goQ, [goP] + ([goQ] + []));
    RunCons(s2, goP, [goQ] + []);
    RunCons(s3, goQ, []);
  }

  lemma {:induction false} DrainAndRace(s: State, p: Id, q: Id, n: nat) returns (es: seq<Event>, s': State)
    requires Ready(s, p, q, n) && n > 0
    ensures Run(s, es) == Some(s') && q in s'.producers && s'.producers[q].Crashed?
    decreases n
  {
    if n == 1 {
      es, s' := RaceForLast(s, p, q);
    } else {
      var fs, n1 := TakeOne(s, p, q, n);
      var gs;
      gs, s' := DrainAndRace(n1, p, q, n - 1);
      es := fs + gs;
      RunAppend(s, fs, gs);
    }
  }

  /** Without any item to hand out, every submission is turned away at the first test. */
  ghost predicate Barren(s: State) {
    && s.free == [] && s.active == [] && s.cur == s.max
    && (forall p :: p in s.producers ==> s.producers[p].Away? || s.producers[p].Checking?)
    && (forall w :: w in s.workers ==> HeldByWorker(s.workers[w]).None?)
  }

  lemma {:induction false} RunBarren(s: State, es: seq<Event>)
    requires Barren(s) && Run(s, es).Some?
    ensures Barren(Run(s, es).value)
    decreases |es|
  {
    if es != [] {
      RunBarren(Do(s, es[0]).value, es[1..]);
    }
  }

  /** Some producer has dereferenced the null pointer that line 233 returned. */
  ghost predicate SomeoneCrashed(s: State) {
    exists p :: p in s.producers && s.producers[p].Crashed?
  }

  /** Line 233 can fail if and only if there are two producers and room for at least one item. */
  lemma LookupCanFailIff(producers: set<Id>, workers: set<Id>, max: int)
    ensures (exists s :: Reachable(producers, workers, max, s) && SomeoneCrashed(s))
       <==> (exists p, q :: p in producers && q in producers && p != q) && max >= 1
  {
    var s0 := Init(producers, workers, max);
    if max >= 1 {
      if p, q :| p in producers && q in producers && p != q {
        var es, s := DrainAndRace(s0, p, q, s0.cur);
        assert Reachable(producers, workers, max, s) && SomeoneCrashed(s);
      }
    }
    if s :| Reachable(producers, workers, max, s) && SomeoneCrashed(s) {
      var es :| Run(s0, es) == Some(s);
      if max < 1 {
        RunBarren(s0, es);
      } else if !exists p, q :: p in producers && q in producers && p != q {
        RunSupplied(s0, es);
      }
    }
  }
}
