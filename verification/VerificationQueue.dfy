/** The bounded worker queue of oracle-service/src/verifier.ts: at most `maxConcurrency`
    verification jobs run at a time, the rest wait in order, and a finishing job defers the
    next start to a `setImmediate` callback. */
module VerificationQueue {

  type InvoiceId = nat

  /** The fields of the queue object and the number of callbacks the event loop still owes it. */
  datatype Queue = Queue(queue: seq<InvoiceId>, running: nat, immediates: nat)

  /** One call of `process`. */
  function Process(q: Queue, max: nat): Queue {
    if q.running >= max || q.queue == [] then q
    else q.(queue := q.queue[1..], running := q.running + 1)
  }

  function Enqueue(q: Queue, max: nat, id: InvoiceId): Queue {
    Process(q.(queue := q.queue + [id]), max)
  }

  /** The `finally` block of a running job. */
  function Finish(q: Queue): Queue
    requires q.running > 0
  {
    q.(running := q.running - 1,
       immediates := if q.queue != [] then q.immediates + 1 else q.immediates)
  }

  function Deferred(q: Queue, max: nat): Queue
    requires q.immediates > 0
  {
    Process(q.(immediates := q.immediates - 1), max)
  }

  class Worker {
    var queue: seq<InvoiceId>
    var running: nat
    var immediates: nat
    const maxConcurrency: nat

    ghost function State(): Queue
      reads this
    {
      Queue(queue, running, immediates)
    }

    constructor (max: nat)
      ensures State() == Queue([], 0, 0) && maxConcurrency == max
    {
      queue, running, immediates := [], 0, 0;
      maxConcurrency := max;
    }

    /** `job` is the job whose handler starts running, if one does. */
    method ProcessNext() returns (job: seq<InvoiceId>)
      modifies this
      ensures State() == Process(old(State()), maxConcurrency)
      ensures job + queue == old(queue)
      ensures |job| == running - old(running)
    {
      if running >= maxConcurrency || |queue| == 0 {
        return [];
      }
      running := running + 1;
      job := [queue[0]];
      queue := queue[1..];
    }

    method Add(id: InvoiceId) returns (job: seq<InvoiceId>)
      modifies this
      ensures State() == Enqueue(old(State()), maxConcurrency, id)
      ensures job + queue == old(queue) + [id]
    {
      queue := queue + [id];
      job := ProcessNext();
    }

    method OnHandlerDone()
      requires running > 0
      modifies this
      ensures State() == Finish(old(State()))
    {
      running := running - 1;
      if |queue| > 0 {
        immediates := immediates + 1;
      }
    }

    method OnImmediate() returns (job: seq<InvoiceId>)
      requires immediates > 0
      modifies this
      ensures State() == Deferred(old(State()), maxConcurrency)
      ensures job + queue == old(queue)
    {
      immediates := immediates - 1;
      job := ProcessNext();
    }
  }

  // ----- Runs -----

  datatype Event = Arrives(id: InvoiceId) | Finishes(id: InvoiceId) | ImmediateFires

  datatype System = System(
    q: Queue,
    enqueued: seq<InvoiceId>,
    started: seq<InvoiceId>,
    inFlight: multiset<InvoiceId>,
    finished: multiset<InvoiceId>
  )

  function Initial(): System { System(Queue([], 0, 0), [], [], multiset{}, multiset{}) }

  predicate Possible(s: System, e: Event) {
    match e
    case Arrives(_) => true
    case Finishes(id) => id in s.inFlight && s.q.running > 0
    case ImmediateFires => s.q.immediates > 0
  }

  function QueueAfter(s: System, max: nat, e: Event): Queue
    requires Possible(s, e)
  {
    match e
    case Arrives(id) => Enqueue(s.q, max, id)
    case Finishes(_) => Finish(s.q)
    case ImmediateFires => Deferred(s.q, max)
  }

  /** The jobs waiting when `process` looks at the queue. */
  function Waiting(s: System, e: Event): seq<InvoiceId> {
    if e.Arrives? then s.q.queue + [e.id] else s.q.queue
  }

  function Done(e: Event): multiset<InvoiceId> {
    if e.Finishes? then multiset{e.id} else multiset{}
  }

  /** The jobs that start: what left the front of the queue. */
  function Jobs(s: System, max: nat, e: Event): (jobs: seq<InvoiceId>)
    requires Possible(s, e)
    ensures jobs + QueueAfter(s, max, e).queue == Waiting(s, e)
    ensures |jobs| <= 1
  {
    Waiting(s, e)[..|Waiting(s, e)| - |QueueAfter(s, max, e).queue|]
  }

  function Step(s: System, max: nat, e: Event): System
    requires Possible(s, e)
  {
    System(QueueAfter(s, max, e),
           if e.Arrives? then s.enqueued + [e.id] else s.enqueued,
           s.started + Jobs(s, max, e),
           s.inFlight - Done(e) + multiset(Jobs(s, max, e)),
           s.finished + Done(e))
  }

  predicate PossibleRun(s: System, max: nat, es: seq<Event>)
    decreases |es|
  {
    es == [] || (Possible(s, es[0]) && PossibleRun(Step(s, max, es[0]), max, es[1..]))
  }

  function Run(s: System, max: nat, es: seq<Event>): System
    requires PossibleRun(s, max, es)
    decreases |es|
  {
    if es == [] then s else Run(Step(s, max, es[0]), max, es[1..])
  }

  /** A job starts exactly when one waits and fewer than `max` run, as it arrives or as a wake-up
      fires, and it is the one that waited longest.  A finish owes a wake-up if jobs wait. */
  lemma JobsStartExactly(s: System, max: nat, e: Event)
    requires Possible(s, e)
    ensures var s', waiting := Step(s, max, e), if e.Arrives? then s.q.queue + [e.id] else s.q.queue;
            && s'.started == s.started + (if !e.Finishes? && waiting != [] && s.q.running < max then [waiting[0]] else [])
            && s'.q.immediates == s.q.immediates - (if e.ImmediateFires? then 1 else 0)
                                  + (if e.Finishes? && s.q.queue != [] then 1 else 0)
  {
  }

  /** Nothing is lost, the cap holds, and waiting jobs have enough wake-ups: a non-empty queue
      means that running jobs and deferred callbacks together fill every slot. */
  ghost predicate Inv(s: System, max: nat) {
    && s.q.running == |s.inFlight| <= max
    && s.enqueued == s.started + s.q.queue
    && multiset(s.started) == s.finished + s.inFlight
    && (s.q.queue != [] ==> s.q.running + s.q.immediates >= max)
  }

  lemma MultisetSplit(a: seq<InvoiceId>, b: seq<InvoiceId>)
    ensures multiset(a + b) == multiset(a) + multiset(b)
  {
  }

  lemma FlowBalances(started: seq<InvoiceId>, jobs: seq<InvoiceId>, done: multiset<InvoiceId>,
                     finished: multiset<InvoiceId>, inFlight: multiset<InvoiceId>)
    requires multiset(started) == finished + inFlight && done <= inFlight
    ensures multiset(started + jobs) == (finished + done) + (inFlight - done + multiset(jobs))
    ensures |inFlight - done + multiset(jobs)| == |inFlight| - |done| + |jobs|
  {
    MultisetSplit(started, jobs);
  }

  lemma RunningCounted(s: System, max: nat, e: Event)
    requires Possible(s, e) && s.q.running <= max
    ensures QueueAfter(s, max, e).running == s.q.running - |Done(e)| + |Jobs(s, max, e)| <= max
  {
    assert |Done(e)| == if e.Finishes? then 1 else 0;
    assert |Jobs(s, max, e)| == |Waiting(s, e)| - |QueueAfter(s, max, e).queue|;
  }

  lemma Appended(started: seq<InvoiceId>, jobs: seq<InvoiceId>, queue: seq<InvoiceId>, waiting: seq<InvoiceId>)
    requires jobs + queue == waiting
    ensures (started + jobs) + queue == started + waiting
  {
  }

  lemma StepKeepsTheOrder(s: System, max: nat, e: Event)
    requires s.enqueued == s.started + s.q.queue && Possible(s, e)
    ensures Step(s, max, e).enqueued == Step(s, max, e).started + Step(s, max, e).q.queue
  {
    var jobs, queue := Jobs(s, max, e), QueueAfter(s, max, e).queue;
    Appended(s.started, jobs, queue, Waiting(s, e));
    assert s.started + Waiting(s, e) == Step(s, max, e).enqueued;
  }

  lemma StepBalances(s: System, max: nat, e: Event)
    requires Inv(s, max) && Possible(s, e)
    ensures var s' := Step(s, max, e);
            && multiset(s'.started) == s'.finished + s'.inFlight
            && s'.q.running == |s'.inFlight| <= max
  {
    RunningCounted(s, max, e);
    FlowBalances(s.started, Jobs(s, max, e), Done(e), s.finished, s.inFlight);
  }

  lemma StepKeepsInv(s: System, max: nat, e: Event)
    requires Inv(s, max) && Possible(s, e)
    ensures Inv(Step(s, max, e), max)
  {
    StepKeepsTheOrder(s, max, e);
    StepBalances(s, max, e);
  }

  /** Safety over every interleaving of arrivals, completions and deferred callbacks. */
  lemma {:induction false} RunKeepsInv(s: System, max: nat, es: seq<Event>)
    requires Inv(s, max) && PossibleRun(s, max, es)
    ensures Inv(Run(s, max, es), max)
    decreases |es|
  {
    if es != [] {
      StepKeepsInv(s, max, es[0]);
      RunKeepsInv(Step(s, max, es[0]), max, es[1..]);
    }
  }

  /** Conservation: what was enqueued is what finished, what runs and what waits, jobs start in
      the order they came, and never more than `max` run. */
  lemma NothingIsLost(max: nat, es: seq<Event>)
    requires PossibleRun(Initial(), max, es)
    ensures var s := Run(Initial(), max, es);
            && multiset(s.enqueued) == s.finished + s.inFlight + multiset(s.q.queue)
            && s.started <= s.enqueued && s.q.queue == s.enqueued[|s.started|..]
            && |s.inFlight| == s.q.running <= max
  {
    RunKeepsInv(Initial(), max, es);
    var s := Run(Initial(), max, es);
    MultisetSplit(s.started, s.q.queue);
  }

  // ----- Progress -----

  function Work(s: System): nat {
    3 * |s.q.queue| + 2 * s.q.running + s.q.immediates
  }

  lemma StepDoesWork(s: System, max: nat, e: Event)
    requires Possible(s, e) && !e.Arrives?
    ensures Work(Step(s, max, e)) < Work(s)
  {
  }

  /** Without arrivals a run is at most as long as the work it starts with. */
  lemma {:induction false} RunsAreBounded(s: System, max: nat, es: seq<Event>)
    requires PossibleRun(s, max, es) && forall e :: e in es ==> !e.Arrives?
    ensures |es| + Work(Run(s, max, es)) <= Work(s)
    decreases |es|
  {
    if es != [] {
      assert es[0] in es;
      StepDoesWork(s, max, es[0]);
      RunsAreBounded(Step(s, max, es[0]), max, es[1..]);
    }
  }

  ghost predicate Quiet(s: System) {
    forall e: Event :: !e.Arrives? ==> !Possible(s, e)
  }

  lemma QuietIsDrained(s: System, max: nat)
    requires max > 0 && Inv(s, max) && Quiet(s)
    ensures s.q.queue == [] && s.inFlight == multiset{}
  {
    assert !Possible(s, ImmediateFires);
    if s.inFlight != multiset{} {
      var id :| id in s.inFlight;
      assert Possible(s, Finishes(id));
    }
  }

  /** At rest exactly when everything enqueued has finished and no callback is outstanding. */
  lemma QuietMeansFinished(s: System, max: nat)
    requires max > 0 && Inv(s, max)
    ensures Quiet(s) <==> s.finished == multiset(s.enqueued) && s.q.immediates == 0
  {
    MultisetSplit(s.started, s.q.queue);
    if Quiet(s) {
      QuietIsDrained(s, max);
      assert !Possible(s, ImmediateFires);
      assert s.enqueued == s.started;
    } else if s.finished == multiset(s.enqueued) {
      assert |multiset(s.enqueued)| == |s.finished| + |s.inFlight| + |s.q.queue|;
    }
  }

  /** No stall: once arrivals stop, every run comes to rest within its work bound, and at rest
      every job ever enqueued has finished. */
  lemma QueueDrains(max: nat, arrivals: seq<Event>, rest: seq<Event>)
    requires max > 0
    requires PossibleRun(Initial(), max, arrivals)
    requires PossibleRun(Run(Initial(), max, arrivals), max, rest)
    requires forall e :: e in rest ==> !e.Arrives?
    ensures var s := Run(Initial(), max, arrivals);
            var end := Run(s, max, rest);
            && |rest| <= Work(s)
            && (Quiet(end) <==> end.finished == multiset(s.enqueued) && end.q.immediates == 0)
  {
    var s := Run(Initial(), max, arrivals);
    RunKeepsInv(Initial(), max, arrivals);
    RunKeepsInv(s, max, rest);
    RunsAreBounded(s, max, rest);
    NoArrivals(s, max, rest);
    QuietMeansFinished(Run(s, max, rest), max);
  }

  lemma {:induction false} NoArrivals(s: System, max: nat, es: seq<Event>)
    requires PossibleRun(s, max, es) && forall e :: e in es ==> !e.Arrives?
    ensures Run(s, max, es).enqueued == s.enqueued
    decreases |es|
  {
    if es != [] {
      assert es[0] in es;
      NoArrivals(Step(s, max, es[0]), max, es[1..]);
    }
  }
}
