/** The RPC read limiter of frontend/lib/stellar.ts: a FIFO queue of reads behind a
    concurrency cap and a sliding-window rate cap, driven by timers and microtasks.

    `Limiter` holds the module-level variables together with the callbacks the event loop
    still owes them.  `System` adds the record of a whole run: what was asked for, started
    and settled, and when every read started. */
module ReadLimiter {
  import opened Arithmetic

  const MAX_CONCURRENT := 5
  const MAX_STARTS := 10
  const WINDOW_MS := 1000
  // One callback reads the clock once to prune, once per start (at most
  // MAX_CONCURRENT) and once to schedule.
  const READINGS := MAX_CONCURRENT + 2

  type Task = nat

  datatype Limiter = Limiter(
    queue: seq<Task>,     // rpcReadQueue
    starts: seq<int>,     // rpcReadStartTimes
    active: nat,          // activeRpcReads
    timerSet: bool,       // rpcReadTimer !== null
    timers: seq<int>,     // due times of the timeouts that have not fired
    microtasks: nat       // queued microtasks that have not run
  )

  // ----- The functional specification of one callback -----

  function Prune(starts: seq<int>, now: int): seq<int> {
    if starts != [] && now - starts[0] >= WINDOW_MS then Prune(starts[1..], now) else starts
  }

  /** How many reads one pass of the processing loop starts. */
  function Admitted(l: Limiter): nat {
    if l.active >= MAX_CONCURRENT || |l.starts| >= MAX_STARTS then 0
    else Min(MAX_CONCURRENT - l.active, Min(|l.queue|, MAX_STARTS - |l.starts|))
  }

  function Schedule(l: Limiter, now: int): Limiter {
    if l.timerSet || l.queue == [] then l
    else
      var kept := Prune(l.starts, now);
      if |kept| < MAX_STARTS then l.(starts := kept, microtasks := l.microtasks + 1)
      else l.(starts := kept, timerSet := true,
              timers := l.timers + [now + Max(0, WINDOW_MS - (now - kept[0]))])
  }

  function Woken(l: Limiter, now: int): Limiter {
    l.(timerSet := false, starts := Prune(l.starts, now))
  }

  function Start(l: Limiter, k: nat, clock: seq<int>): Limiter
    requires k <= |l.queue| && k < |clock|
  {
    l.(queue := l.queue[k..], active := l.active + k, starts := l.starts + clock[1..k + 1])
  }

  function Process(l: Limiter, clock: seq<int>): Limiter
    requires |clock| == READINGS
  {
    var w := Woken(l, clock[0]);
    var k := Admitted(w);
    Schedule(Start(w, k, clock), clock[k + 1])
  }

  // ----- The module variables as an object -----

  class Reader {
    var rpcReadQueue: seq<Task>
    var rpcReadStartTimes: seq<int>
    var activeRpcReads: nat
    var rpcReadTimer: bool
    var pendingTimers: seq<int>
    var pendingMicrotasks: nat

    ghost function State(): Limiter
      reads this
    {
      Limiter(rpcReadQueue, rpcReadStartTimes, activeRpcReads, rpcReadTimer,
              pendingTimers, pendingMicrotasks)
    }

    constructor ()
      ensures State() == Idle()
    {
      rpcReadQueue, rpcReadStartTimes, activeRpcReads := [], [], 0;
      rpcReadTimer, pendingTimers, pendingMicrotasks := false, [], 0;
    }

    method PruneReadStartTimes(now: int)
      modifies this
      ensures State() == old(State()).(starts := Prune(old(rpcReadStartTimes), now))
    {
      while |rpcReadStartTimes| > 0 && now - rpcReadStartTimes[0] >= WINDOW_MS
        invariant State() == old(State()).(starts := rpcReadStartTimes)
        invariant Prune(rpcReadStartTimes, now) == Prune(old(rpcReadStartTimes), now)
        decreases |rpcReadStartTimes|
      {
        rpcReadStartTimes := rpcReadStartTimes[1..];
      }
    }

    method ScheduleReadQueue(now: int)
      modifies this
      ensures State() == Schedule(old(State()), now)
    {
      if rpcReadTimer || |rpcReadQueue| == 0 {
        return;
      }
      PruneReadStartTimes(now);
      if |rpcReadStartTimes| < MAX_STARTS {
        pendingMicrotasks := pendingMicrotasks + 1;
        return;
      }
      var nextSlotIn := Max(0, WINDOW_MS - (now - rpcReadStartTimes[0]));
      rpcReadTimer := true;
      pendingTimers := pendingTimers + [now + nextSlotIn];
    }

    /** The loop that starts reads while there is room. */
    method StartReads(clock: seq<int>) returns (started: nat)
      requires |clock| == READINGS
      modifies this
      ensures started == Admitted(old(State())) && State() == Start(old(State()), started, clock)
    {
      started := 0;
      while activeRpcReads < MAX_CONCURRENT && |rpcReadQueue| > 0 && |rpcReadStartTimes| < MAX_STARTS
        invariant 0 <= started <= Admitted(old(State())) && started <= |old(rpcReadQueue)|
        invariant rpcReadQueue == old(rpcReadQueue)[started..]
        invariant activeRpcReads == old(activeRpcReads) + started
        invariant rpcReadStartTimes == old(rpcReadStartTimes) + clock[1..started + 1]
        invariant rpcReadTimer == old(rpcReadTimer) && pendingTimers == old(pendingTimers)
        invariant pendingMicrotasks == old(pendingMicrotasks)
        decreases MAX_CONCURRENT - activeRpcReads
      {
        rpcReadQueue := rpcReadQueue[1..];
        activeRpcReads := activeRpcReads + 1;
        rpcReadStartTimes := rpcReadStartTimes + [clock[started + 1]];
        started := started + 1;
      }
    }

    /** `clock` lists the successive clock readings of this call. */
    method ProcessReadQueue(clock: seq<int>)
      requires |clock| == READINGS
      modifies this
      ensures State() == Process(old(State()), clock)
    {
      rpcReadTimer := false;
      PruneReadStartTimes(clock[0]);
      var started := StartReads(clock);
      ScheduleReadQueue(clock[started + 1]);
    }

    method ReadContract(task: Task, clock: seq<int>)
      requires |clock| == READINGS
      modifies this
      ensures State() == React(old(State()), Read(task), clock)
    {
      rpcReadQueue := rpcReadQueue + [task];
      ProcessReadQueue(clock);
    }

    /** The `finally` handler of a started read. */
    method OnSettled(task: Task, clock: seq<int>)
      requires |clock| == READINGS
      modifies this
      ensures State() == React(old(State()), Settle(task), clock)
    {
      activeRpcReads := Max(0, activeRpcReads - 1);
      ProcessReadQueue(clock);
    }

    method OnTimer(i: nat, clock: seq<int>)
      requires |clock| == READINGS && i < |pendingTimers|
      modifies this
      ensures State() == React(old(State()), TimerFires(i), clock)
    {
      pendingTimers := pendingTimers[..i] + pendingTimers[i + 1..];
      rpcReadTimer := false;
      ProcessReadQueue(clock);
    }

    method OnMicrotask(clock: seq<int>)
      requires |clock| == READINGS && pendingMicrotasks > 0
      modifies this
      ensures State() == React(old(State()), MicrotaskRuns, clock)
    {
      pendingMicrotasks := pendingMicrotasks - 1;
      ProcessReadQueue(clock);
    }
  }

  // ----- Runs -----

  datatype Event = Read(task: Task) | Settle(task: Task) | TimerFires(index: nat) | MicrotaskRuns

  datatype Tick = Tick(event: Event, clock: seq<int>)

  function Idle(): Limiter { Limiter([], [], 0, false, [], 0) }

  /** What the event itself does before processReadQueue is called. */
  function Received(l: Limiter, e: Event): Limiter
    requires e.TimerFires? ==> e.index < |l.timers|
    requires e.MicrotaskRuns? ==> l.microtasks > 0
  {
    match e
    case Read(t) => l.(queue := l.queue + [t])
    case Settle(_) => l.(active := Max(0, l.active - 1))
    case TimerFires(i) => l.(timers := l.timers[..i] + l.timers[i + 1..], timerSet := false)
    case MicrotaskRuns => l.(microtasks := l.microtasks - 1)
  }

  function React(l: Limiter, e: Event, clock: seq<int>): Limiter
    requires |clock| == READINGS
    requires e.TimerFires? ==> e.index < |l.timers|
    requires e.MicrotaskRuns? ==> l.microtasks > 0
  {
    Process(Received(l, e), clock)
  }

  /** The limiter with the record of the run so far; `now` is the last clock reading. */
  datatype System = System(
    lim: Limiter,
    enqueued: seq<Task>,
    started: seq<Task>,
    running: multiset<Task>,
    settled: multiset<Task>,
    history: seq<int>,
    now: int
  )

  function Initial(now: int): System {
    System(Idle(), [], [], multiset{}, multiset{}, [], now)
  }

  ghost predicate Sorted(s: seq<int>) {
    forall i, j :: 0 <= i < j < |s| ==> s[i] <= s[j]
  }

  /** Only a running read settles, a timeout fires at or after its due time, and the clock
      never goes back. */
  ghost predicate Possible(s: System, t: Tick) {
    && |t.clock| == READINGS && Sorted(t.clock) && s.now <= t.clock[0]
    && (t.event.Settle? ==> t.event.task in s.running)
    && (t.event.TimerFires? ==> t.event.index < |s.lim.timers| && s.lim.timers[t.event.index] <= t.clock[0])
    && (t.event.MicrotaskRuns? ==> s.lim.microtasks > 0)
  }

  /** The number of reads that a tick starts. */
  ghost function Starts(s: System, t: Tick): nat
    requires Possible(s, t)
  {
    Admitted(Woken(Received(s.lim, t.event), t.clock[0]))
  }

  /** What a settlement takes out of the running reads. */
  function Leaving(e: Event): multiset<Task> {
    if e.Settle? then multiset{e.task} else multiset{}
  }

  function Asked(s: System, e: Event): seq<Task> {
    if e.Read? then s.enqueued + [e.task] else s.enqueued
  }

  ghost function Step(s: System, t: Tick): System
    requires Possible(s, t)
  {
    var l := Received(s.lim, t.event);
    var k := Starts(s, t);
    var left := Leaving(t.event);
    System(
      React(s.lim, t.event, t.clock),
      Asked(s, t.event),
      s.started + l.queue[..k],
      s.running - left + multiset(l.queue[..k]),
      s.settled + left,
      s.history + t.clock[1..k + 1],
      t.clock[k + 1])
  }

  ghost predicate PossibleRun(s: System, ticks: seq<Tick>)
    decreases |ticks|
  {
    ticks == [] || (Possible(s, ticks[0]) && PossibleRun(Step(s, ticks[0]), ticks[1..]))
  }

  ghost function Run(s: System, ticks: seq<Tick>): System
    requires PossibleRun(s, ticks)
    decreases |ticks|
  {
    if ticks == [] then s else Run(Step(s, ticks[0]), ticks[1..])
  }

  // ----- What every step keeps -----

  /** The deque is the end of the history, and what it dropped is a full window old. */
  ghost predicate WindowTracked(starts: seq<int>, history: seq<int>, now: int) {
    && Sorted(history)
    && (history != [] ==> history[|history| - 1] <= now)
    && |starts| <= |history| && |starts| <= MAX_STARTS
    && starts == history[|history| - |starts|..]
    && forall i :: 0 <= i < |history| - |starts| ==> now - history[i] >= WINDOW_MS
  }

  /** Any MAX_STARTS + 1 consecutive starts span at least one window. */
  ghost predicate Spaced(history: seq<int>) {
    forall i, j :: 0 <= i && j == i + MAX_STARTS < |history| ==> history[j] - history[i] >= WINDOW_MS
  }

  ghost predicate WakeUpPending(l: Limiter) {
    (l.timerSet && l.timers != []) || l.microtasks > 0
  }

  ghost predicate Accounted(s: System) {
    && s.lim.active == |s.running| && s.lim.active <= MAX_CONCURRENT
    && s.enqueued == s.started + s.lim.queue
    && multiset(s.started) == s.running + s.settled
  }

  ghost predicate WakeUpsArmed(l: Limiter, now: int) {
    && (l.timerSet ==> l.timers != [])
    && (forall i :: 0 <= i < |l.timers| ==> l.timers[i] <= now + WINDOW_MS)
    && (l.queue != [] ==> WakeUpPending(l))
  }

  ghost predicate Inv(s: System) {
    && WindowTracked(s.lim.starts, s.history, s.now)
    && Spaced(s.history)
    && Accounted(s)
    && WakeUpsArmed(s.lim, s.now)
  }

  lemma {:induction false} PruneKeepsTheWindow(starts: seq<int>, history: seq<int>, was: int, now: int)
    requires WindowTracked(starts, history, was) && was <= now
    ensures WindowTracked(Prune(starts, now), history, now)
    ensures Prune(starts, now) != [] ==> now - Prune(starts, now)[0] < WINDOW_MS
    decreases |starts|
  {
    if starts != [] && now - starts[0] >= WINDOW_MS {
      var n := |history| - |starts|;
      assert starts[0] == history[n];
      assert starts[1..] == history[n + 1..];
      assert WindowTracked(starts[1..], history, now);
      PruneKeepsTheWindow(starts[1..], history, now, now);
    }
  }

  lemma StartsKeepTheWindow(starts: seq<int>, history: seq<int>, was: int, added: seq<int>, now: int)
    requires WindowTracked(starts, history, was)
    requires |starts| + |added| <= MAX_STARTS
    requires Sorted(added) && (forall i :: 0 <= i < |added| ==> was <= added[i] <= now) && was <= now
    ensures WindowTracked(starts + added, history + added, now)
  {
    var h, n := history + added, |history| - |starts|;
    assert starts + added == h[n..];
    SortedAppend(history, added, was);
    assert forall i :: 0 <= i < n ==> h[i] == history[i];
  }

  lemma SortedAppend(a: seq<int>, b: seq<int>, mid: int)
    requires Sorted(a) && Sorted(b)
    requires (a != [] ==> a[|a| - 1] <= mid) && forall i :: 0 <= i < |b| ==> mid <= b[i]
    ensures Sorted(a + b)
  {
  }

  /** New starts are a window away from those that the deque has dropped. */
  lemma StartsKeepTheSpacing(starts: seq<int>, history: seq<int>, was: int, added: seq<int>)
    requires WindowTracked(starts, history, was) && Spaced(history)
    requires |starts| + |added| <= MAX_STARTS
    requires forall i :: 0 <= i < |added| ==> was <= added[i]
    ensures Spaced(history + added)
  {
    var h, n := history + added, |history| - |starts|;
    forall i, j | 0 <= i && j == i + MAX_STARTS < |h|
      ensures h[j] - h[i] >= WINDOW_MS
    {
      if j < |history| {
        assert history[j] - history[i] >= WINDOW_MS;
      } else {
        assert i < n && was - history[i] >= WINDOW_MS;
        assert h[j] == added[j - |history|];
      }
    }
  }

  lemma ScheduleKeepsTheWindow(l: Limiter, history: seq<int>, now: int)
    requires WindowTracked(l.starts, history, now)
    ensures WindowTracked(Schedule(l, now).starts, history, now)
  {
    PruneKeepsTheWindow(l.starts, history, now, now);
  }

  lemma ReadingsInOrder(clock: seq<int>, k: nat, added: seq<int>)
    requires Sorted(clock) && k + 1 < |clock| && added == clock[1..k + 1]
    ensures Sorted(added) && clock[0] <= clock[k + 1]
    ensures forall i :: 0 <= i < k ==> clock[0] <= added[i] <= clock[k + 1]
  {
  }

  lemma StartKeepsTheWindow(w: Limiter, history: seq<int>, clock: seq<int>, k: nat, added: seq<int>)
    requires |clock| == READINGS && Sorted(clock) && k == Admitted(w) && added == clock[1..k + 1]
    requires WindowTracked(w.starts, history, clock[0]) && Spaced(history)
    ensures WindowTracked(Start(w, k, clock).starts, history + added, clock[k + 1]) && Spaced(history + added)
  {
    ReadingsInOrder(clock, k, added);
    StartsKeepTheWindow(w.starts, history, clock[0], added, clock[k + 1]);
    StartsKeepTheSpacing(w.starts, history, clock[0], added);
  }

  lemma AwakeKeepsTheWindow(w: Limiter, history: seq<int>, clock: seq<int>, k: nat, added: seq<int>)
    requires |clock| == READINGS && Sorted(clock) && k == Admitted(w) && added == clock[1..k + 1]
    requires WindowTracked(w.starts, history, clock[0]) && Spaced(history)
    ensures WindowTracked(Schedule(Start(w, k, clock), clock[k + 1]).starts, history + added, clock[k + 1])
    ensures Spaced(history + added)
  {
    StartKeepsTheWindow(w, history, clock, k, added);
    ScheduleKeepsTheWindow(Start(w, k, clock), history + added, clock[k + 1]);
  }

  lemma WakingKeepsTheWindow(l: Limiter, history: seq<int>, was: int, now: int)
    requires WindowTracked(l.starts, history, was) && was <= now
    ensures WindowTracked(Woken(l, now).starts, history, now)
  {
    PruneKeepsTheWindow(l.starts, history, was, now);
  }

  lemma ProcessFromAwake(l: Limiter, clock: seq<int>, w: Limiter, k: nat)
    requires |clock| == READINGS && w == Woken(l, clock[0]) && k == Admitted(w)
    ensures Process(l, clock) == Schedule(Start(w, k, clock), clock[k + 1])
  {
  }

  lemma PassKeepsTheWindow(w: Limiter, r: Limiter, history: seq<int>, clock: seq<int>, k: nat, added: seq<int>)
    requires |clock| == READINGS && Sorted(clock) && k == Admitted(w) && added == clock[1..k + 1]
    requires WindowTracked(w.starts, history, clock[0]) && Spaced(history)
    requires r == Schedule(Start(w, k, clock), clock[k + 1])
    ensures WindowTracked(r.starts, history + added, clock[k + 1]) && Spaced(history + added)
  {
    AwakeKeepsTheWindow(w, history, clock, k, added);
  }

  lemma ProcessTakesFromTheFront(l: Limiter, clock: seq<int>)
    requires |clock| == READINGS
    ensures var k := Admitted(Woken(l, clock[0]));
            && k <= |l.queue| && Process(l, clock).queue == l.queue[k..]
            && Process(l, clock).active == l.active + k
            && (k > 0 ==> l.active + k <= MAX_CONCURRENT)
  {
  }

  lemma TakenFromTheFront(q: seq<Task>, k: nat, started: seq<Task>, running: multiset<Task>, settled: multiset<Task>)
    requires k <= |q| && multiset(started) == running + settled
    ensures multiset(started + q[..k]) == running + multiset(q[..k]) + settled
    ensures |running + multiset(q[..k])| == |running| + k
    ensures (started + q[..k]) + q[k..] == started + q
  {
    assert multiset(started + q[..k]) == multiset(started) + multiset(q[..k]);
  }

  lemma SettlingBalances(running: multiset<Task>, settled: multiset<Task>, t: Task)
    requires t in running
    ensures running - multiset{t} + (settled + multiset{t}) == running + settled
    ensures |running - multiset{t}| == |running| - 1
  {
    assert |running - multiset{t}| + |multiset{t}| == |running|;
  }

  /** The books after the event itself, before any read is started. */
  lemma ReceivingBalances(s: System, t: Tick)
    requires Accounted(s) && Possible(s, t)
    ensures var l, running := Received(s.lim, t.event), s.running - Leaving(t.event);
            && l.active == |running| <= MAX_CONCURRENT
            && Asked(s, t.event) == s.started + l.queue
            && multiset(s.started) == running + (s.settled + Leaving(t.event))
  {
    if t.event.Settle? {
      SettlingBalances(s.running, s.settled, t.event.task);
    } else {
      assert s.running - multiset{} == s.running && s.settled + multiset{} == s.settled;
    }
  }

  lemma StepTakes(s: System, t: Tick, k: nat)
    requires Possible(s, t) && k == Starts(s, t)
    ensures var l, s' := Received(s.lim, t.event), Step(s, t);
            && k <= |l.queue| && s'.lim.queue == l.queue[k..] && s'.lim.active == l.active + k
            && (k > 0 ==> l.active + k <= MAX_CONCURRENT)
            && s'.started == s.started + l.queue[..k]
            && s'.running == s.running - Leaving(t.event) + multiset(l.queue[..k])
            && s'.settled == s.settled + Leaving(t.event)
            && s'.enqueued == Asked(s, t.event)
  {
    ProcessTakesFromTheFront(Received(s.lim, t.event), t.clock);
  }

  lemma AccountsBalance(s: System, t: Tick)
    requires Accounted(s) && Possible(s, t)
    ensures Accounted(Step(s, t))
  {
    var l, k := Received(s.lim, t.event), Starts(s, t);
    ReceivingBalances(s, t);
    StepTakes(s, t, k);
    TakenFromTheFront(l.queue, k, s.started, s.running - Leaving(t.event), s.settled + Leaving(t.event));
  }

  lemma {:induction false} PruneIsSuffix(starts: seq<int>, now: int)
    ensures var r := Prune(starts, now);
            && |r| <= |starts| && r == starts[|starts| - |r|..]
            && (starts != [] && now - starts[0] >= WINDOW_MS ==> |r| < |starts|)
            && (r != [] ==> now - r[0] < WINDOW_MS)
    decreases |starts|
  {
    if starts != [] && now - starts[0] >= WINDOW_MS {
      PruneIsSuffix(starts[1..], now);
    }
  }

  lemma StepProcesses(s: System, t: Tick)
    requires Possible(s, t)
    ensures var l := Received(s.lim, t.event);
            Step(s, t).lim == Process(l, t.clock) && l.starts == s.lim.starts
  {
  }

  lemma StepRecords(s: System, t: Tick, k: nat)
    requires Possible(s, t) && k == Starts(s, t)
    ensures Step(s, t).history == s.history + t.clock[1..k + 1] && Step(s, t).now == t.clock[k + 1]
    ensures k == Admitted(Woken(Received(s.lim, t.event), t.clock[0]))
    ensures |t.clock| == READINGS && Sorted(t.clock) && s.now <= t.clock[0]
  {
  }

  lemma ProcessKeepsTheWindow(l: Limiter, r: Limiter, history: seq<int>, was: int, clock: seq<int>, k: nat, added: seq<int>)
    requires |clock| == READINGS && Sorted(clock) && was <= clock[0]
    requires k == Admitted(Woken(l, clock[0])) && added == clock[1..k + 1] && r == Process(l, clock)
    requires WindowTracked(l.starts, history, was) && Spaced(history)
    ensures WindowTracked(r.starts, history + added, clock[k + 1]) && Spaced(history + added)
  {
    var w := Woken(l, clock[0]);
    ProcessFromAwake(l, clock, w, k);
    WakingKeepsTheWindow(l, history, was, clock[0]);
    PassKeepsTheWindow(w, r, history, clock, k, added);
  }

  lemma StepKeepsTheWindow(s: System, t: Tick)
    requires WindowTracked(s.lim.starts, s.history, s.now) && Spaced(s.history) && Possible(s, t)
    ensures WindowTracked(Step(s, t).lim.starts, Step(s, t).history, Step(s, t).now)
    ensures Spaced(Step(s, t).history)
  {
    var l, k := Received(s.lim, t.event), Starts(s, t);
    StepProcesses(s, t);
    StepRecords(s, t, k);
    ProcessKeepsTheWindow(l, Step(s, t).lim, s.history, s.now, t.clock, k, t.clock[1..k + 1]);
  }

  /** What the last statement of a processing pass does when reads wait. */
  lemma WaitingReadsAreScheduled(l: Limiter, now: int)
    requires !l.timerSet && l.queue != [] && |l.starts| <= MAX_STARTS
    ensures var r := Schedule(l, now);
            && |r.starts| <= MAX_STARTS
            && (if |r.starts| < MAX_STARTS then
                  r.microtasks == l.microtasks + 1 && r.timers == l.timers && !r.timerSet
                else
                  r.microtasks == l.microtasks && r.timers == l.timers + [r.starts[0] + WINDOW_MS] && r.timerSet)
  {
    PruneIsSuffix(l.starts, now);
  }

  lemma StartsStayBounded(l: Limiter, clock: seq<int>)
    requires |clock| == READINGS && |l.starts| <= MAX_STARTS
    ensures var w := Woken(l, clock[0]);
            |Start(w, Admitted(w), clock).starts| <= MAX_STARTS
  {
    PruneIsSuffix(l.starts, clock[0]);
  }

  /** After a pass with reads left waiting a microtask or a timeout has been added, as the window
      has room or not. */
  lemma ProcessSchedules(l: Limiter, clock: seq<int>)
    requires |clock| == READINGS
    requires var w := Woken(l, clock[0]); |Start(w, Admitted(w), clock).starts| <= MAX_STARTS
    ensures var r := Process(l, clock);
            && (r.queue == [] ==> !r.timerSet && r.timers == l.timers)
            && (r.queue != [] ==>
                  if |r.starts| < MAX_STARTS then
                    r.microtasks == l.microtasks + 1 && r.timers == l.timers && !r.timerSet
                  else
                    && |r.starts| == MAX_STARTS && r.microtasks == l.microtasks && r.timerSet
                    && r.timers == l.timers + [r.starts[0] + WINDOW_MS])
  {
    var w := Woken(l, clock[0]);
    var k := Admitted(w);
    var mid := Start(w, k, clock);
    assert !mid.timerSet && mid.timers == l.timers && mid.microtasks == l.microtasks;
    if mid.queue != [] {
      WaitingReadsAreScheduled(mid, clock[k + 1]);
    }
  }

  lemma FirstKeptStart(starts: seq<int>, history: seq<int>, now: int)
    requires WindowTracked(starts, history, now) && starts != []
    ensures starts[0] <= now
  {
    assert starts[0] == history[|history| - |starts|];
  }

  /** A pass that adds the wake-up its waiting reads need keeps every timeout within a window. */
  lemma PassArms(r: Limiter, before: seq<int>, now: int)
    requires forall i :: 0 <= i < |before| ==> before[i] <= now + WINDOW_MS
    requires r.queue == [] ==> !r.timerSet && r.timers == before
    requires r.queue != [] && |r.starts| < MAX_STARTS ==> r.microtasks > 0 && r.timers == before && !r.timerSet
    requires r.queue != [] && |r.starts| >= MAX_STARTS ==>
               r.timerSet && r.starts[0] <= now && r.timers == before + [r.starts[0] + WINDOW_MS]
    ensures WakeUpsArmed(r, now)
  {
  }

  lemma OutstandingTimers(s: System, t: Tick, now: int)
    requires WakeUpsArmed(s.lim, s.now) && Possible(s, t) && s.now <= now
    ensures var timers := Received(s.lim, t.event).timers;
            forall i :: 0 <= i < |timers| ==> timers[i] <= now + WINDOW_MS
  {
  }

  lemma StepTakesTime(s: System, t: Tick)
    requires Possible(s, t)
    ensures s.now <= Step(s, t).now
  {
    assert t.clock[0] <= t.clock[Starts(s, t) + 1];
  }

  lemma ProcessArms(l: Limiter, clock: seq<int>, r: Limiter, history: seq<int>, now: int)
    requires |clock| == READINGS && |l.starts| <= MAX_STARTS && r == Process(l, clock)
    requires forall i :: 0 <= i < |l.timers| ==> l.timers[i] <= now + WINDOW_MS
    requires WindowTracked(r.starts, history, now)
    ensures WakeUpsArmed(r, now)
  {
    StartsStayBounded(l, clock);
    ProcessSchedules(l, clock);
    if r.starts != [] {
      FirstKeptStart(r.starts, history, now);
    }
    PassArms(r, l.timers, now);
  }

  lemma StepArmsAWakeUp(s: System, t: Tick)
    requires WindowTracked(s.lim.starts, s.history, s.now) && Spaced(s.history)
    requires WakeUpsArmed(s.lim, s.now) && Possible(s, t)
    ensures WakeUpsArmed(Step(s, t).lim, Step(s, t).now)
  {
    var s' := Step(s, t);
    StepKeepsTheWindow(s, t);
    StepTakesTime(s, t);
    StepProcesses(s, t);
    ArmedAfter(s, t, s');
  }

  lemma ArmedAfter(s: System, t: Tick, s': System)
    requires Possible(s, t) && WakeUpsArmed(s.lim, s.now) && |s.lim.starts| <= MAX_STARTS && s.now <= s'.now
    requires s'.lim == Process(Received(s.lim, t.event), t.clock) && Received(s.lim, t.event).starts == s.lim.starts
    requires WindowTracked(s'.lim.starts, s'.history, s'.now)
    ensures WakeUpsArmed(s'.lim, s'.now)
  {
    OutstandingTimers(s, t, s'.now);
    ProcessArms(Received(s.lim, t.event), t.clock, s'.lim, s'.history, s'.now);
  }

  /** One tick keeps the invariant. */
  lemma StepKeepsInv(s: System, t: Tick)
    requires Inv(s) && Possible(s, t)
    ensures Inv(Step(s, t))
  {
    StepKeepsTheWindow(s, t);
    AccountsBalance(s, t);
    StepArmsAWakeUp(s, t);
  }

  // ----- Main results -----

  /** Safety over every run: the invariant holds however reads, settlements, timeouts and
      microtasks interleave. */
  lemma {:induction false} RunKeepsInv(s: System, ticks: seq<Tick>)
    requires Inv(s) && PossibleRun(s, ticks)
    ensures Inv(Run(s, ticks))
    decreases |ticks|
  {
    if ticks != [] {
      StepKeepsInv(s, ticks[0]);
      RunKeepsInv(Step(s, ticks[0]), ticks[1..]);
    }
  }

  lemma SpacedWindows(h: seq<int>, i: nat, j: nat)
    requires Sorted(h) && Spaced(h) && i <= j < |h|
    ensures j - i >= MAX_STARTS ==> h[j] - h[i] >= WINDOW_MS
  {
    if j - i >= MAX_STARTS {
      var k := i + MAX_STARTS;
      assert h[k] - h[i] >= WINDOW_MS;
      assert h[k] <= h[j];
    }
  }

  /** The rate cap: in the full history of a run, starts that are MAX_STARTS apart in order are
      a window apart in time, so no shorter span of time holds more than MAX_STARTS starts. */
  lemma RateBound(now: int, ticks: seq<Tick>, i: nat, j: nat)
    requires PossibleRun(Initial(now), ticks)
    requires i <= j < |Run(Initial(now), ticks).history|
    ensures var h := Run(Initial(now), ticks).history;
            h[j] - h[i] < WINDOW_MS ==> j - i + 1 <= MAX_STARTS
  {
    RunKeepsInv(Initial(now), ticks);
    SpacedWindows(Run(Initial(now), ticks).history, i, j);
  }

  lemma SettledWasCounted(s: System, t: Tick)
    requires Accounted(s) && Possible(s, t) && t.event.Settle?
    ensures s.lim.active > 0
  {
    assert t.event.task in s.running;
  }

  /** The clamp in the settle handler never acts: a read that settles was counted. */
  lemma ClampNeverActs(now: int, ticks: seq<Tick>, t: Tick)
    requires PossibleRun(Initial(now), ticks) && Possible(Run(Initial(now), ticks), t) && t.event.Settle?
    ensures var active := Run(Initial(now), ticks).lim.active;
            Max(0, active - 1) == active - 1
  {
    RunKeepsInv(Initial(now), ticks);
    SettledWasCounted(Run(Initial(now), ticks), t);
  }

  /** The concurrency cap and FIFO order: at most MAX_CONCURRENT reads are ever in flight, each
      read asked for starts exactly once, in the order asked, or still waits. */
  lemma ReadsStartOnceInOrder(now: int, ticks: seq<Tick>)
    requires PossibleRun(Initial(now), ticks)
    ensures var s := Run(Initial(now), ticks);
            && |multiset(s.started) - s.settled| == s.lim.active <= MAX_CONCURRENT
            && s.started <= s.enqueued
            && s.lim.queue == s.enqueued[|s.started|..]
            && s.settled <= multiset(s.started)
  {
    RunKeepsInv(Initial(now), ticks);
    var s := Run(Initial(now), ticks);
    assert multiset(s.started) - s.settled == s.running;
  }

  /** A slot is free and the rate window has room once the clock reads `now`. */
  ghost predicate RoomAt(l: Limiter, now: int) {
    && l.active < MAX_CONCURRENT
    && (|l.starts| == MAX_STARTS ==> now - l.starts[0] >= WINDOW_MS)
  }

  lemma RoomStartsARead(s: System, t: Tick)
    requires Inv(s) && s.lim.queue != [] && Possible(s, t) && RoomAt(s.lim, t.clock[0])
    ensures Starts(s, t) >= 1
  {
    RoomAdmits(Received(s.lim, t.event), t.clock[0]);
  }

  lemma PruneMakesRoom(starts: seq<int>, now: int)
    requires |starts| <= MAX_STARTS && (|starts| == MAX_STARTS ==> now - starts[0] >= WINDOW_MS)
    ensures |Prune(starts, now)| < MAX_STARTS
  {
    PruneIsSuffix(starts, now);
  }

  lemma RoomIsUsed(w: Limiter)
    requires w.queue != [] && w.active < MAX_CONCURRENT && |w.starts| < MAX_STARTS
    ensures Admitted(w) >= 1
  {
  }

  lemma RoomAdmits(l: Limiter, now: int)
    requires l.queue != [] && RoomAt(l, now) && |l.starts| <= MAX_STARTS
    ensures Admitted(Woken(l, now)) >= 1
  {
    PruneMakesRoom(l.starts, now);
    RoomIsUsed(Woken(l, now));
  }

  /** After any run with waiting reads a callback is pending, every pending timeout is at most one
      window away, and when there is room whichever callback comes next starts a read.  Room is a
      condition here: at the full concurrency cap the pending callbacks can keep it from coming. */
  lemma WaitingReadsAreWoken(now: int, ticks: seq<Tick>)
    requires PossibleRun(Initial(now), ticks)
    requires Run(Initial(now), ticks).lim.queue != []
    ensures var s := Run(Initial(now), ticks);
            && WakeUpPending(s.lim)
            && (forall i :: 0 <= i < |s.lim.timers| ==> s.lim.timers[i] <= s.now + WINDOW_MS)
            && forall t | Possible(s, t) && RoomAt(s.lim, t.clock[0]) :: Starts(s, t) >= 1
  {
    var s := Run(Initial(now), ticks);
    RunKeepsInv(Initial(now), ticks);
    forall t | Possible(s, t) && RoomAt(s.lim, t.clock[0])
      ensures Starts(s, t) >= 1
    {
      RoomStartsARead(s, t);
    }
  }

  /** A timeout is armed only when the window is full, and is due exactly when the oldest kept
      start leaves it. */
  lemma TimerIsDueWhenASlotFrees(s: System, t: Tick)
    requires Inv(s) && Possible(s, t) && Step(s, t).lim.timerSet
    ensures var l := Step(s, t).lim;
            && |l.starts| == MAX_STARTS
            && l.timers == Received(s.lim, t.event).timers + [l.starts[0] + WINDOW_MS]
  {
    StepProcesses(s, t);
    TimerAfterPass(Received(s.lim, t.event), t.clock);
  }

  lemma TimerAfterPass(l: Limiter, clock: seq<int>)
    requires |clock| == READINGS && |l.starts| <= MAX_STARTS && Process(l, clock).timerSet
    ensures var r := Process(l, clock);
            |r.starts| == MAX_STARTS && r.timers == l.timers + [r.starts[0] + WINDOW_MS]
  {
    StartsStayBounded(l, clock);
    ProcessSchedules(l, clock);
  }

  // ----- One tick by the record of the run -----

  /** The starts of a run that are less than a window old. */
  ghost function Recent(history: seq<int>, now: int): set<nat> {
    set i: nat | i < |history| && now - history[i] < 1000
  }

  lemma {:induction false} CountFrom(n: nat, m: nat, s: set<nat>)
    requires n <= m && forall i: nat :: i in s <==> n <= i < m
    ensures |s| == m - n
    decreases m
  {
    if n < m {
      CountFrom(n, m - 1, s - {m - 1});
    } else {
      assert s == {};
    }
  }

  /** The deque holds the recent starts and no others, once it is pruned. */
  lemma KeptAreRecent(starts: seq<int>, history: seq<int>, now: int)
    requires WindowTracked(starts, history, now) && (starts != [] ==> now - starts[0] < WINDOW_MS)
    ensures |Recent(history, now)| == |starts|
    ensures starts != [] ==> starts[0] == history[|history| - |Recent(history, now)|]
  {
    var n := |history| - |starts|;
    forall i: nat | n <= i < |history|
      ensures now - history[i] < 1000
    {
      assert history[n] == starts[0] && history[n] <= history[i];
    }
    CountFrom(n, |history|, Recent(history, now));
  }

  lemma RecentlyStarted(s: System, t: Tick)
    requires Inv(s) && Possible(s, t)
    ensures |Prune(s.lim.starts, t.clock[0])| == |Recent(s.history, t.clock[0])|
  {
    PruneKeepsTheWindow(s.lim.starts, s.history, s.now, t.clock[0]);
    KeptAreRecent(Prune(s.lim.starts, t.clock[0]), s.history, t.clock[0]);
  }

  /** As many reads as there are free slots, reads that wait, and starts left in the window. */
  ghost function Fitting(running: int, waiting: int, recent: int): int {
    Min(5 - running, Min(waiting, 10 - recent))
  }

  ghost function LeftRunning(s: System, e: Event): int { if e.Settle? then |s.running| - 1 else |s.running| }

  lemma SlotsAfter(s: System, t: Tick)
    requires Inv(s) && Possible(s, t)
    ensures var l := Received(s.lim, t.event);
            && l.active == LeftRunning(s, t.event) <= 5 && l.starts == s.lim.starts
            && Asked(s, t.event) == s.started + l.queue
  {
    ReceivingBalances(s, t);
    if t.event.Settle? {
      SettledWasCounted(s, t);
    }
  }

  lemma AdmittedFit(l: Limiter, now: int, recent: nat)
    requires l.active <= 5 && recent == |Prune(l.starts, now)| <= 10
    ensures Admitted(Woken(l, now)) == Fitting(l.active, |l.queue|, recent)
  {
  }

  lemma NumberStarted(s: System, t: Tick)
    requires Inv(s) && Possible(s, t)
    ensures Starts(s, t) ==
            Fitting(LeftRunning(s, t.event), |Asked(s, t.event)| - |s.started|, |Recent(s.history, t.clock[0])|)
  {
    RecentlyStarted(s, t);
    SlotsAfter(s, t);
    PruneIsSuffix(s.lim.starts, t.clock[0]);
    AdmittedFit(Received(s.lim, t.event), t.clock[0], |Recent(s.history, t.clock[0])|);
  }

  lemma TakenInOrder(asked: seq<Task>, started: seq<Task>, queue: seq<Task>, k: nat)
    requires asked == started + queue && k <= |queue|
    ensures started + queue[..k] == asked[..|started| + k]
  {
  }

  /** The reads a tick starts, from the record alone: as many as fit, the next in the order asked,
      each at its own reading of the clock. */
  lemma StartsAreExact(s: System, t: Tick, k: int, asked: seq<Task>)
    requires Inv(s) && Possible(s, t)
    requires asked == if t.event.Read? then s.enqueued + [t.event.task] else s.enqueued
    requires k == Fitting(LeftRunning(s, t.event), |asked| - |s.started|, |Recent(s.history, t.clock[0])|)
    ensures var s' := Step(s, t);
            && 0 <= k <= 5 && |s.started| + k <= |asked|
            && s'.enqueued == asked && s'.started == asked[..|s.started| + k]
            && s'.history == s.history + t.clock[1..k + 1] && s'.now == t.clock[k + 1]
  {
    var l := Received(s.lim, t.event);
    NumberStarted(s, t);
    SlotsAfter(s, t);
    StepRecords(s, t, k);
    StepTakes(s, t, k);
    TakenInOrder(asked, s.started, l.queue, k);
  }

  lemma PruningLeavesRecent(l: Limiter, now: int)
    requires l.queue != [] && !l.timerSet
    ensures var r := Schedule(l, now); r.starts != [] ==> now - r.starts[0] < WINDOW_MS
  {
    PruneIsSuffix(l.starts, now);
  }

  lemma KeptAfter(s: System, t: Tick)
    requires Inv(s) && Possible(s, t) && Step(s, t).lim.queue != []
    ensures var s' := Step(s, t);
            && |Recent(s'.history, s'.now)| == |s'.lim.starts| <= 10 && |s'.lim.starts| <= |s'.history|
            && (s'.lim.starts != [] ==> s'.lim.starts[0] == s'.history[|s'.history| - |s'.lim.starts|])
  {
    var l, k := Received(s.lim, t.event), Starts(s, t);
    StepProcesses(s, t);
    StepRecords(s, t, k);
    StepKeepsTheWindow(s, t);
    ProcessFromAwake(l, t.clock, Woken(l, t.clock[0]), k);
    PruningLeavesRecent(Start(Woken(l, t.clock[0]), k, t.clock), t.clock[k + 1]);
    KeptAreRecent(Step(s, t).lim.starts, Step(s, t).history, Step(s, t).now);
  }

  /** What the event loop owes after a pass in which `recent` starts were in the window. */
  ghost predicate Owes(r: Limiter, timers: seq<int>, microtasks: int, recent: int, oldest: int) {
    if r.queue == [] then !r.timerSet && r.timers == timers && r.microtasks == microtasks
    else if recent < 10 then !r.timerSet && r.timers == timers && r.microtasks == microtasks + 1
    else r.timerSet && r.timers == timers + [oldest + 1000] && r.microtasks == microtasks
  }

  lemma NothingOwed(l: Limiter, clock: seq<int>)
    requires |clock| == READINGS && Process(l, clock).queue == []
    ensures Process(l, clock).microtasks == l.microtasks
  {
  }

  /** The callbacks that are owed after a tick: a fired one is used up, and while reads wait one is
      added, a microtask if fewer than ten starts are recent, or else a timeout for the moment at
      which the oldest of the ten leaves the window. */
  lemma CallbacksAreExact(s: System, t: Tick, s': System)
    requires Inv(s) && Possible(s, t) && s' == Step(s, t)
    ensures var recent := |Recent(s'.history, s'.now)|;
            var timers := if t.event.TimerFires? then s.lim.timers[..t.event.index] + s.lim.timers[t.event.index + 1..]
                          else s.lim.timers;
            var microtasks := if t.event.MicrotaskRuns? then s.lim.microtasks - 1 else s.lim.microtasks;
            (s'.lim.queue != [] ==> recent <= 10)
            && Owes(s'.lim, timers, microtasks, recent, if 10 <= |s'.history| then s'.history[|s'.history| - 10] else 0)
  {
    var l := Received(s.lim, t.event);
    StepProcesses(s, t);
    StartsStayBounded(l, t.clock);
    ProcessSchedules(l, t.clock);
    if s'.lim.queue == [] {
      NothingOwed(l, t.clock);
    } else {
      KeptAfter(s, t);
    }
  }

  // ----- The spin at the full cap -----

  lemma {:induction false} PruneTwice(starts: seq<int>, a: int, b: int)
    requires a <= b
    ensures Prune(Prune(starts, a), b) == Prune(starts, b)
    decreases |starts|
  {
    if starts != [] && a - starts[0] >= WINDOW_MS {
      PruneTwice(starts[1..], a, b);
    }
  }

  lemma AtTheCap(l: Limiter, clock: seq<int>)
    requires |clock| == READINGS && Sorted(clock) && l.active >= MAX_CONCURRENT && l.queue != []
    ensures Admitted(Woken(l, clock[0])) == 0
    ensures var kept, r := Prune(l.starts, clock[1]), Process(l, clock);
            && r.queue == l.queue && r.active == l.active && r.starts == kept
            && (if |kept| < MAX_STARTS then
                  r.microtasks == l.microtasks + 1 && r.timers == l.timers && !r.timerSet
                else
                  r.microtasks == l.microtasks && |r.timers| == |l.timers| + 1 && r.timerSet)
  {
    PruneTwice(l.starts, clock[0], clock[1]);
    PruneIsSuffix(l.starts, clock[1]);
    var w := Woken(l, clock[0]);
    assert Start(w, 0, clock).starts == w.starts && Start(w, 0, clock).queue == w.queue;
  }

  /** At the full cap with a read waiting, a microtask starts nothing.  It queues its own successor
      exactly when fewer than MAX_STARTS starts are in the window; otherwise it arms a timeout. */
  lemma MicrotaskRequeuesItself(s: System, t: Tick)
    requires Possible(s, t) && t.event.MicrotaskRuns? && s.lim.active >= MAX_CONCURRENT && s.lim.queue != []
    ensures var s' := Step(s, t);
            && s'.lim.queue == s.lim.queue && s'.lim.active == s.lim.active && s'.lim.starts == Prune(s.lim.starts, t.clock[1])
            && s'.started == s.started && s'.settled == s.settled
            && (s'.lim.microtasks == s.lim.microtasks <==> |Prune(s.lim.starts, t.clock[1])| < MAX_STARTS)
            && (s'.lim.microtasks == s.lim.microtasks ==> s'.lim.timers == s.lim.timers && !s'.lim.timerSet)
            && (s'.lim.microtasks != s.lim.microtasks ==>
                  s'.lim.microtasks == s.lim.microtasks - 1 && s'.lim.timerSet && |s'.lim.timers| == |s.lim.timers| + 1)
  {
    var l := Received(s.lim, t.event);
    AtTheCap(l, t.clock);
    assert Starts(s, t) == 0 && l.queue[..0] == [];
    assert s.settled + multiset{} == s.settled;
  }

  /** Every slot is taken, a read waits, the window has room and a microtask is queued. */
  predicate Spinning(l: Limiter) {
    l.active == MAX_CONCURRENT && l.queue != [] && |l.starts| < MAX_STARTS && l.microtasks > 0
  }

  /** Whatever the event, a step ends in the spin exactly when it leaves every slot taken, a read
      waiting and fewer than MAX_STARTS starts in the window. */
  lemma SpinStarts(s: System, t: Tick)
    requires Inv(s) && Possible(s, t)
    ensures var l := Step(s, t).lim;
            Spinning(l) <==> l.active == MAX_CONCURRENT && l.queue != [] && |l.starts| < MAX_STARTS
  {
    var l := Received(s.lim, t.event);
    StepProcesses(s, t);
    StartsStayBounded(l, t.clock);
    ProcessSchedules(l, t.clock);
  }

  /** The reads asked for and not settled. */
  function Unsettled(s: System): int { |s.enqueued| - |s.settled| }

  lemma UnsettledAreActiveOrQueued(s: System)
    requires Accounted(s)
    ensures Unsettled(s) == s.lim.active + |s.lim.queue|
  {
    assert |multiset(s.started)| == |s.started|;
  }

  /** For a caller: after a step with more than MAX_CONCURRENT reads unsettled the limiter spins
      unless a slot is free or the window is full, and with no more it never does. */
  lemma SpinNeedsAnotherRead(s: System, t: Tick)
    requires Inv(s) && Possible(s, t)
    ensures var s' := Step(s, t);
            Spinning(s'.lim) <==>
              Unsettled(s') > MAX_CONCURRENT && s'.lim.active == MAX_CONCURRENT && |s'.lim.starts| < MAX_STARTS
  {
    StepKeepsInv(s, t);
    SpinStarts(s, t);
    UnsettledAreActiveOrQueued(Step(s, t));
  }

  /** No read settles in the step and every slot is taken, so none starts: the step ends in the spin
      exactly when the window has room at its second clock reading. */
  lemma StepAtTheCapSpins(s: System, t: Tick)
    requires Inv(s) && Possible(s, t) && !t.event.Settle? && s.lim.active == MAX_CONCURRENT
    requires s.lim.queue != [] || t.event.Read?
    ensures Step(s, t).lim.starts == Prune(s.lim.starts, t.clock[1])
    ensures Spinning(Step(s, t).lim) <==> |Prune(s.lim.starts, t.clock[1])| < MAX_STARTS
  {
    AtTheCap(Received(s.lim, t.event), t.clock);
    StepProcesses(s, t);
    SpinStarts(s, t);
  }

  /** A read asked for at the cap with a full window arms a timeout instead.  When that timeout
      fires with every slot still taken, the spin starts. */
  lemma TimeoutStartsTheSpin(s: System, read: Tick, fires: Tick)
    requires Inv(s) && Possible(s, read) && read.event.Read? && s.lim.active == MAX_CONCURRENT
    requires !Spinning(Step(s, read).lim)
    requires Possible(Step(s, read), fires) && fires.event == TimerFires(|s.lim.timers|)
    ensures Step(s, read).lim.timerSet && Spinning(Step(Step(s, read), fires).lim)
  {
    var s' := Step(s, read);
    StepAtTheCapSpins(s, read);
    AtTheCap(Received(s.lim, read.event), read.clock);
    StepProcesses(s, read);
    StepKeepsInv(s, read);
    TimerIsDueWhenASlotFrees(s, read);
    assert s'.lim.timers[|s.lim.timers|] == s'.lim.starts[0] + WINDOW_MS;
    PruneMakesRoom(s'.lim.starts, fires.clock[1]);
    StepAtTheCapSpins(s', fires);
  }

  /** The event loop runs queued microtasks before any timeout, and before any event from outside:
      a new read, or the settlement of a read that waits for the network. */
  ghost predicate MicrotasksFirst(s: System, ticks: seq<Tick>)
    requires PossibleRun(s, ticks)
    decreases |ticks|
  {
    ticks == [] ||
    ((s.lim.microtasks > 0 ==> ticks[0].event.MicrotaskRuns?) && MicrotasksFirst(Step(s, ticks[0]), ticks[1..]))
  }

  /** The spin never ends: as long as microtasks run first, however many of them run and whatever
      the clock says, no read starts or settles any more and a microtask is queued again. */
  lemma {:induction false} SpinNeverEnds(s: System, ticks: seq<Tick>)
    requires Spinning(s.lim) && PossibleRun(s, ticks) && MicrotasksFirst(s, ticks)
    ensures var r := Run(s, ticks);
            && Spinning(r.lim) && r.lim.microtasks == s.lim.microtasks
            && r.lim.queue == s.lim.queue && r.lim.timers == s.lim.timers
            && r.started == s.started && r.settled == s.settled
    decreases |ticks|
  {
    if ticks != [] {
      var t := ticks[0];
      MicrotaskRequeuesItself(s, t);
      PruneIsSuffix(s.lim.starts, t.clock[1]);
      SpinNeverEnds(Step(s, t), ticks[1..]);
    }
  }

  lemma ReadBelowTheCap(s: System, t: Tick)
    requires Possible(s, t) && t.event.Read? && s.lim.queue == []
    requires s.lim.active < MAX_CONCURRENT && |s.lim.starts| < MAX_STARTS
    ensures var l := Step(s, t).lim;
            && l.active == s.lim.active + 1 && l.queue == [] && |l.starts| <= |s.lim.starts| + 1
            && l.microtasks == s.lim.microtasks
  {
    PruneIsSuffix(s.lim.starts, t.clock[0]);
  }

  lemma {:induction false} ReadsBelowTheCap(s: System, ticks: seq<Tick>)
    requires PossibleRun(s, ticks) && forall i :: 0 <= i < |ticks| ==> ticks[i].event.Read?
    requires s.lim.queue == [] && s.lim.active + |ticks| <= MAX_CONCURRENT && |s.lim.starts| <= s.lim.active
    ensures var l := Run(s, ticks).lim;
            l.active == s.lim.active + |ticks| && l.queue == [] && |l.starts| <= l.active
    decreases |ticks|
  {
    if ticks != [] {
      ReadBelowTheCap(s, ticks[0]);
      ReadsBelowTheCap(Step(s, ticks[0]), ticks[1..]);
    }
  }

  /** The sixth of six reads that overlap starts the spin, whatever the clock says. */
  lemma SixthReadSpins(now: int, five: seq<Tick>, sixth: Tick)
    requires |five| == MAX_CONCURRENT && forall i :: 0 <= i < |five| ==> five[i].event.Read?
    requires PossibleRun(Initial(now), five) && Possible(Run(Initial(now), five), sixth) && sixth.event.Read?
    ensures Spinning(Step(Run(Initial(now), five), sixth).lim)
  {
    var s := Run(Initial(now), five);
    ReadsBelowTheCap(Initial(now), five);
    RunKeepsInv(Initial(now), five);
    PruneIsSuffix(s.lim.starts, sixth.clock[1]);
    StepAtTheCapSpins(s, sixth);
  }
}
