/**
  What every step of the dispatcher keeps: where each pending event is, how many
  slots are taken, that no wake-up is lost, and what becomes of drain waiters.
 */
module DispatchSafety {
  import opened Wrappers
  import opened LifecycleEvents
  import opened Shared
  import opened DispatchModel

  // ---- counting jobs by an attribute

  function IdOf(job: Job): string { job.eventId }

  function TicketOf(job: Job): nat { job.ticket }

  function Count<T(==)>(jobs: seq<Job>, f: Job -> T, x: T): nat {
    if jobs == [] then 0 else One(f(jobs[0]) == x) + Count(jobs[1..], f, x)
  }

  lemma {:induction false} CountAppend<T>(jobs: seq<Job>, job: Job, f: Job -> T, x: T)
    ensures Count(jobs + [job], f, x) == Count(jobs, f, x) + One(f(job) == x)
  {
    if jobs == [] {
      assert jobs + [job] == [job];
    } else {
      assert (jobs + [job])[1..] == jobs[1..] + [job];
      CountAppend(jobs[1..], job, f, x);
    }
  }

  lemma {:induction false} CountRemove<T>(jobs: seq<Job>, i: nat, f: Job -> T, x: T)
    requires i < |jobs|
    ensures Count(jobs, f, x) == Count(RemoveAt(jobs, i), f, x) + One(f(jobs[i]) == x)
  {
    if i == 0 {
      assert RemoveAt(jobs, i) == jobs[1..];
    } else {
      assert RemoveAt(jobs, i) == [jobs[0]] + RemoveAt(jobs[1..], i - 1);
      CountRemove(jobs[1..], i - 1, f, x);
    }
  }

  lemma {:induction false} CountMember<T>(jobs: seq<Job>, job: Job, f: Job -> T)
    requires job in jobs
    ensures Count(jobs, f, f(job)) >= 1
  {
    if jobs[0] != job {
      CountMember(jobs[1..], job, f);
    }
  }

  /** The number of places a job with attribute `x` is in: queue, undecided runs, retry timers. */
  function Places<T(==)>(s: State, f: Job -> T, x: T): nat {
    Count(s.queue, f, x) + Count(s.running, f, x) + Count(s.retryTimers, f, x)
  }

  // ---- the invariant

  /** Each pending id is in exactly one place, and no other id is in any. */
  ghost predicate Placed(s: State) {
    forall id :: Places(s, IdOf, id) == One(id in s.pending)
  }

  /** Each accepted event is in exactly one place or has exactly one outcome. */
  ghost predicate Accounted(s: State) {
    forall t: nat :: Places(s, TicketOf, t) + One(t in s.outcomes) == One(t < |s.accepted|)
  }

  ghost predicate SlotsCounted(cfg: Config, s: State) {
    && s.active == |s.running| + s.finishing
    && s.active <= cfg.concurrency
    && s.scheduledRetries == |s.retryTimers|
  }

  ghost predicate JobSound(s: State, job: Job) {
    && |s.starts| == |s.accepted|
    && job.ticket < |s.accepted|
    && job.event == s.accepted[job.ticket]
    && job.eventId == EventIdFor(job.event)
    && s.starts[job.ticket] == job.attempts
  }

  ghost predicate JobsSound(cfg: Config, s: State) {
    && (forall j <- s.queue :: JobSound(s, j) && j.attempts < cfg.maxAttempts)
    && (forall j <- s.retryTimers :: JobSound(s, j) && j.attempts < cfg.maxAttempts)
    && (forall j <- s.running :: JobSound(s, j) && 1 <= j.attempts <= cfg.maxAttempts)
  }

  /** No event is run more than maxAttempts times; a dead letter used all its attempts. */
  ghost predicate RunsBounded(cfg: Config, s: State) {
    && |s.starts| == |s.accepted|
    && (forall t :: 0 <= t < |s.starts| ==> s.starts[t] <= cfg.maxAttempts)
    && (forall t <- s.outcomes ::
          && t < |s.starts|
          && 1 <= s.starts[t]
          && (s.outcomes[t].DeadLettered? ==> s.outcomes[t].attempts == s.starts[t] == cfg.maxAttempts))
  }

  ghost predicate Live(cfg: Config, s: State) {
    Placed(s) && Accounted(s) && SlotsCounted(cfg, s) && JobsSound(cfg, s) && RunsBounded(cfg, s)
  }

  /** No lost wake-up: queued work means that every slot is taken or a pump is due. */
  ghost predicate Awake(cfg: Config, s: State) {
    s.queue != [] ==> s.active == cfg.concurrency || s.pumpsDue > 0
  }

  /** A drain() call waits or is released, never both. */
  ghost predicate WaitersListed(s: State) {
    && NoRepeats(s.idleWaiters)
    && (forall w :: w in s.idleWaiters || w in s.released <==> 0 <= w < s.drains)
    && (forall w <- s.idleWaiters :: w !in s.released)
  }

  /** Nobody waits on an idle dispatcher. */
  ghost predicate WaitersSound(s: State) {
    && WaitersListed(s)
    && (Size(s) == 0 ==> s.idleWaiters == [])
  }

  ghost predicate Inv(cfg: Config, s: State) {
    Live(cfg, s) && Awake(cfg, s) && WaitersSound(s)
  }

  // ---- how the steps move jobs

  lemma StartNextMoves<T>(s: State, f: Job -> T, x: T)
    requires s.queue != [] && f(s.queue[0]) == f(s.queue[0].(attempts := s.queue[0].attempts + 1))
    ensures Places(StartNext(s), f, x) == Places(s, f, x)
  {
    CountAppend(s.running, s.queue[0].(attempts := s.queue[0].attempts + 1), f, x);
  }

  lemma RetryMoves<T>(s: State, i: nat, f: Job -> T, x: T)
    requires i < |s.retryTimers|
    ensures Places(Retry(s, i), f, x) == Places(s, f, x)
  {
    CountRemove(s.retryTimers, i, f, x);
    CountAppend(s.queue, s.retryTimers[i], f, x);
  }

  lemma DecidedLeaves<T>(s: State, i: nat, f: Job -> T, x: T)
    requires i < |s.running|
    ensures Places(s.(running := RemoveAt(s.running, i)), f, x) + One(f(s.running[i]) == x) == Places(s, f, x)
  {
    CountRemove(s.running, i, f, x);
  }

  /** The job at the head of the queue shares its ticket with no other job. */
  lemma QueueHeadIsAlone(s: State, j: Job)
    requires Accounted(s) && s.queue != []
    requires j in s.queue[1..] || j in s.running || j in s.retryTimers
    ensures j.ticket != s.queue[0].ticket
  {
    var t := s.queue[0].ticket;
    assert Places(s, TicketOf, t) <= 1;
    if j.ticket == t {
      if j in s.queue[1..] {
        CountMember(s.queue[1..], j, TicketOf);
      } else if j in s.running {
        CountMember(s.running, j, TicketOf);
      } else {
        CountMember(s.retryTimers, j, TicketOf);
      }
    }
  }

  lemma DecidedRunIsOpen(s: State, i: nat)
    requires Placed(s) && Accounted(s) && i < |s.running|
    ensures s.running[i].eventId in s.pending && s.running[i].ticket !in s.outcomes
    ensures s.running[i].ticket < |s.accepted|
  {
    CountMember(s.running, s.running[i], IdOf);
    CountMember(s.running, s.running[i], TicketOf);
    assert Places(s, IdOf, s.running[i].eventId) >= 1;
    assert Places(s, TicketOf, s.running[i].ticket) >= 1;
  }

  // ---- pumping

  lemma StartNextKeepsPlaces(s: State)
    requires Placed(s) && Accounted(s) && s.queue != []
    ensures Placed(StartNext(s)) && Accounted(StartNext(s))
  {
    forall id ensures Places(StartNext(s), IdOf, id) == Places(s, IdOf, id) {
      StartNextMoves(s, IdOf, id);
    }
    forall t: nat ensures Places(StartNext(s), TicketOf, t) == Places(s, TicketOf, t) {
      StartNextMoves(s, TicketOf, t);
    }
  }

  lemma StartNextKeepsJobs(cfg: Config, s: State)
    requires Accounted(s) && JobsSound(cfg, s) && s.queue != []
    ensures JobsSound(cfg, StartNext(s))
  {
    hide Accounted;
    var job := s.queue[0];
    var t := StartNext(s);
    assert job in s.queue;
    forall j | j in s.queue[1..] || j in s.running || j in s.retryTimers ensures JobSound(t, j) {
      QueueHeadIsAlone(s, j);
      assert JobSound(s, j);
    }
    assert forall j <- t.queue :: j in s.queue;
    assert forall j <- t.running :: j == job.(attempts := job.attempts + 1) || j in s.running;
  }

  lemma StartNextKeepsBounds(cfg: Config, s: State)
    requires JobsSound(cfg, s) && RunsBounded(cfg, s) && Accounted(s) && s.queue != []
    ensures RunsBounded(cfg, StartNext(s))
  {
    assert s.queue[0] in s.queue && JobSound(s, s.queue[0]);
    assert Places(s, TicketOf, s.queue[0].ticket) >= 1;
  }

  lemma {:induction false} PumpKeeps(cfg: Config, s: State)
    requires Live(cfg, s)
    ensures var p := Pump(cfg, s);
            && Live(cfg, p) && (p.queue == [] || p.active == cfg.concurrency)
    decreases |s.queue|
  {
    if s.active < cfg.concurrency && |s.queue| > 0 {
      StartNextKeepsPlaces(s);
      StartNextKeepsJobs(cfg, s);
      StartNextKeepsBounds(cfg, s);
      PumpKeeps(cfg, StartNext(s));
    }
  }

  function Started(jobs: seq<Job>): seq<Job> {
    seq(|jobs|, i requires 0 <= i < |jobs| => jobs[i].(attempts := jobs[i].attempts + 1))
  }

  /** How many jobs a pump starts. */
  function ToStart(cfg: Config, s: State): (k: nat)
    requires s.active <= cfg.concurrency
    ensures k <= |s.queue|
  {
    if |s.queue| < cfg.concurrency - s.active then |s.queue| else cfg.concurrency - s.active
  }

  lemma StartedCons(jobs: seq<Job>)
    requires jobs != []
    ensures Started(jobs) == [jobs[0].(attempts := jobs[0].attempts + 1)] + Started(jobs[1..])
  {}

  /** A pump starts the oldest queued jobs, in order, one for every free slot. */
  lemma {:induction false} PumpStartsOldestFirst(cfg: Config, s: State)
    requires s.active <= cfg.concurrency
    ensures var k, p := ToStart(cfg, s), Pump(cfg, s);
            && p.queue == s.queue[k..] && p.running == s.running + Started(s.queue[..k])
            && p.active == s.active + k
    decreases |s.queue|
  {
    hide Started;
    var k := ToStart(cfg, s);
    if k > 0 {
      PumpStartsOldestFirst(cfg, StartNext(s));
      StartedCons(s.queue[..k]);
      assert s.queue[..k][1..] == s.queue[1..][..k - 1];
      assert s.queue[1..][k - 1..] == s.queue[k..];
      var first, rest := [s.queue[0].(attempts := s.queue[0].attempts + 1)], Started(s.queue[1..][..k - 1]);
      assert (s.running + first) + rest == s.running + (first + rest);
    } else {
      assert Started(s.queue[..0]) == [] by {
        StartedNone();
      }
    }
  }

  /** A retry goes to the back of the line, and the line moves up into the free slots. */
  lemma RetryGoesToTheBack(cfg: Config, s: State, i: nat)
    requires Enabled(s, RetryFires(i)) && s.active <= cfg.concurrency
    ensures var line, next := s.queue + [s.retryTimers[i]], Next(cfg, s, RetryFires(i));
            var k := if |line| < cfg.concurrency - s.active then |line| else cfg.concurrency - s.active;
            && next.queue == line[k..] && next.running == s.running + Started(line[..k])
            && next.active == s.active + k
  {
    hide Pump, Started;
    PumpStartsOldestFirst(cfg, Retry(s, i));
  }

  lemma StartedNone()
    ensures Started([]) == []
  {}

  /** `t` differs from `s` only in fields that Live does not speak of. */
  predicate SameWork(s: State, t: State) {
    t == s.(pumpsDue := t.pumpsDue, idleWaiters := t.idleWaiters, rows := t.rows,
            drains := t.drains, released := t.released)
  }

  lemma SameWorkKeepsLive(cfg: Config, s: State, t: State)
    requires Live(cfg, s) && SameWork(s, t)
    ensures Live(cfg, t)
  {
    forall id ensures Places(t, IdOf, id) == Places(s, IdOf, id) {}
    forall k: nat ensures Places(t, TicketOf, k) == Places(s, TicketOf, k) {}
    assert forall j: Job :: JobSound(s, j) ==> JobSound(t, j);
  }

  lemma PumpAndNotifyKeep(cfg: Config, s: State)
    requires Live(cfg, s) && WaitersListed(s)
    ensures Inv(cfg, NotifyIfIdle(Pump(cfg, s)))
  {
    PumpKeeps(cfg, s);
    SameWorkKeepsLive(cfg, Pump(cfg, s), NotifyIfIdle(Pump(cfg, s)));
  }

  // ---- every step

  lemma AcceptKeepsPlaces(s: State, event: Event)
    requires Placed(s) && Accounted(s) && EventIdFor(event) !in s.pending
    requires forall t <- s.outcomes :: t < |s.accepted|
    ensures Placed(Accept(s, event)) && Accounted(Accept(s, event))
  {
    var job := Job(EventIdFor(event), event, 0, |s.accepted|);
    var t := Accept(s, event);
    forall x ensures Places(t, IdOf, x) == One(x in t.pending) {
      CountAppend(s.queue, job, IdOf, x);
      assert Places(s, IdOf, x) == One(x in s.pending);
    }
    forall k: nat ensures Places(t, TicketOf, k) + One(k in t.outcomes) == One(k < |t.accepted|) {
      CountAppend(s.queue, job, TicketOf, k);
      assert Places(s, TicketOf, k) + One(k in s.outcomes) == One(k < |s.accepted|);
    }
  }

  lemma AcceptKeepsJobs(cfg: Config, s: State, event: Event)
    requires cfg.Valid() && JobsSound(cfg, s) && RunsBounded(cfg, s) && EventIdFor(event) !in s.pending
    ensures JobsSound(cfg, Accept(s, event)) && RunsBounded(cfg, Accept(s, event))
  {
    var t := Accept(s, event);
    assert forall j: Job :: JobSound(s, j) ==> JobSound(t, j);
    assert forall j <- t.queue :: j == Job(EventIdFor(event), event, 0, |s.accepted|) || j in s.queue;
  }

  lemma AcceptKeeps(cfg: Config, s: State, event: Event)
    requires cfg.Valid() && Inv(cfg, s)
    ensures Inv(cfg, Accept(s, event))
  {
    if EventIdFor(event) !in s.pending {
      AcceptKeepsPlaces(s, event);
      AcceptKeepsJobs(cfg, s, event);
    }
  }

  lemma DecisionKeepsPlaces(s: State, i: nat, t: State)
    requires Placed(s) && Accounted(s) && i < |s.running|
    requires t.queue == s.queue && t.running == RemoveAt(s.running, i) && t.retryTimers == s.retryTimers
    requires t.pending == s.pending - {s.running[i].eventId} && t.accepted == s.accepted
    requires t.outcomes.Keys == s.outcomes.Keys + {s.running[i].ticket}
    ensures Placed(t) && Accounted(t)
  {
    DecidedRunIsOpen(s, i);
    forall x ensures Places(t, IdOf, x) == One(x in t.pending) {
      DecidedLeaves(s, i, IdOf, x);
      assert Places(s, IdOf, x) == One(x in s.pending);
    }
    forall k: nat ensures Places(t, TicketOf, k) + One(k in t.outcomes) == One(k < |t.accepted|) {
      DecidedLeaves(s, i, TicketOf, k);
      assert Places(s, TicketOf, k) + One(k in s.outcomes) == One(k < |s.accepted|);
      assert k in t.outcomes <==> k in t.outcomes.Keys;
    }
  }

  lemma RunningSubset(s: State, i: nat)
    requires i < |s.running|
    ensures s.running[i] in s.running
    ensures forall j <- RemoveAt(s.running, i) :: j in s.running
  {}

  lemma SucceedKeeps(cfg: Config, s: State, i: nat, investors: seq<string>)
    requires Inv(cfg, s) && i < |s.running|
    ensures Inv(cfg, Succeed(s, i, investors))
  {
    var t := Succeed(s, i, investors);
    DecisionKeepsPlaces(s, i, t);
    RunningSubset(s, i);
    assert forall j: Job :: JobSound(s, j) ==> JobSound(t, j);
  }

  lemma FailKeepsPlaces(cfg: Config, s: State, i: nat, written: seq<string>)
    requires Placed(s) && Accounted(s) && i < |s.running|
    ensures Placed(Fail(cfg, s, i, written)) && Accounted(Fail(cfg, s, i, written))
  {
    var job := s.running[i];
    var t := Fail(cfg, s, i, written);
    if job.attempts < cfg.maxAttempts {
      forall x ensures Places(t, IdOf, x) == Places(s, IdOf, x) {
        CountRemove(s.running, i, IdOf, x);
        CountAppend(s.retryTimers, job, IdOf, x);
      }
      forall k: nat ensures Places(t, TicketOf, k) == Places(s, TicketOf, k) {
        CountRemove(s.running, i, TicketOf, k);
        CountAppend(s.retryTimers, job, TicketOf, k);
      }
    } else {
      DecisionKeepsPlaces(s, i, t);
    }
  }

  lemma FailKeepsJobs(cfg: Config, s: State, i: nat, written: seq<string>)
    requires JobsSound(cfg, s) && i < |s.running|
    ensures JobsSound(cfg, Fail(cfg, s, i, written))
  {
    hide Insert, EventIdFor;
    var job := s.running[i];
    var t := Fail(cfg, s, i, written);
    RunningSubset(s, i);
    assert t.starts == s.starts && t.accepted == s.accepted && t.queue == s.queue;
    forall j: Job | JobSound(s, j) ensures JobSound(t, j) {}
    assert forall j <- t.retryTimers :: j == job || j in s.retryTimers;
    assert job.attempts < cfg.maxAttempts || t.retryTimers == s.retryTimers;
  }

  lemma FailKeepsBounds(cfg: Config, s: State, i: nat, written: seq<string>)
    requires JobsSound(cfg, s) && SlotsCounted(cfg, s) && RunsBounded(cfg, s) && i < |s.running|
    ensures SlotsCounted(cfg, Fail(cfg, s, i, written)) && RunsBounded(cfg, Fail(cfg, s, i, written))
  {
    hide Insert, EventIdFor;
    assert s.running[i] in s.running && JobSound(s, s.running[i]);
  }

  lemma FailKeepsWaiters(cfg: Config, s: State, i: nat, written: seq<string>)
    requires SlotsCounted(cfg, s) && Awake(cfg, s) && WaitersSound(s) && i < |s.running|
    ensures Awake(cfg, Fail(cfg, s, i, written)) && WaitersSound(Fail(cfg, s, i, written))
  {
    hide Insert;
  }

  lemma FailKeeps(cfg: Config, s: State, i: nat, written: seq<string>)
    requires Inv(cfg, s) && i < |s.running|
    ensures Inv(cfg, Fail(cfg, s, i, written))
  {
    hide Placed, Accounted, JobsSound, RunsBounded, Fail, Awake, WaitersSound;
    FailKeepsPlaces(cfg, s, i, written);
    FailKeepsJobs(cfg, s, i, written);
    FailKeepsBounds(cfg, s, i, written);
    FailKeepsWaiters(cfg, s, i, written);
  }

  lemma RetryKeepsLive(cfg: Config, s: State, i: nat)
    requires Live(cfg, s) && i < |s.retryTimers|
    ensures Live(cfg, Retry(s, i))
  {
    var job := s.retryTimers[i];
    var t := Retry(s, i);
    forall x ensures Places(t, IdOf, x) == Places(s, IdOf, x) {
      RetryMoves(s, i, IdOf, x);
    }
    forall k: nat ensures Places(t, TicketOf, k) == Places(s, TicketOf, k) {
      RetryMoves(s, i, TicketOf, k);
    }
    assert forall j: Job :: JobSound(s, j) ==> JobSound(t, j);
    assert job in s.retryTimers;
    assert forall j <- t.retryTimers :: j in s.retryTimers;
    assert forall j <- t.queue :: j == job || j in s.queue;
  }

  lemma SettleKeepsLive(cfg: Config, s: State)
    requires Live(cfg, s) && s.finishing > 0
    ensures Live(cfg, Settle(s))
  {
    var t := Settle(s);
    forall x ensures Places(t, IdOf, x) == Places(s, IdOf, x) {}
    forall k: nat ensures Places(t, TicketOf, k) == Places(s, TicketOf, k) {}
    assert forall j: Job :: JobSound(s, j) ==> JobSound(t, j);
  }

  lemma WaitKeeps(cfg: Config, s: State)
    requires Inv(cfg, s)
    ensures Inv(cfg, Wait(s))
  {
    SameWorkKeepsLive(cfg, s, Wait(s));
    assert forall w <- s.idleWaiters :: w < s.drains;
    assert s.drains !in s.idleWaiters && s.drains !in s.released;
  }

  lemma PumpFiresKeeps(cfg: Config, s: State)
    requires Inv(cfg, s) && s.pumpsDue > 0
    ensures Inv(cfg, Pump(cfg, s.(pumpsDue := s.pumpsDue - 1)))
  {
    var t := s.(pumpsDue := s.pumpsDue - 1);
    SameWorkKeepsLive(cfg, s, t);
    PumpKeeps(cfg, t);
  }

  lemma CallbackKeeps(cfg: Config, s: State, a: Action)
    requires Inv(cfg, s) && Enabled(s, a) && (a.PumpFires? || a.RetryFires? || a.RunSettles?)
    ensures Inv(cfg, Next(cfg, s, a))
  {
    hide Placed, Accounted, JobsSound, RunsBounded, Pump;
    match a
    case PumpFires => PumpFiresKeeps(cfg, s);
    case RetryFires(i) =>
      RetryKeepsLive(cfg, s, i);
      PumpAndNotifyKeep(cfg, Retry(s, i));
    case RunSettles =>
      SettleKeepsLive(cfg, s);
      PumpAndNotifyKeep(cfg, Settle(s));
  }

  lemma NextKeeps(cfg: Config, s: State, a: Action)
    requires cfg.Valid() && Inv(cfg, s) && Enabled(s, a)
    ensures Inv(cfg, Next(cfg, s, a))
  {
    match a
    case Enqueue(event) => AcceptKeeps(cfg, s, event);
    case Drain => WaitKeeps(cfg, s);
    case DeliverySucceeds(i, investors) => SucceedKeeps(cfg, s, i, investors);
    case DeliveryFails(i, _, written) => FailKeeps(cfg, s, i, written);
    case _ => CallbackKeeps(cfg, s, a);
  }

  lemma {:induction false} RunKeeps(cfg: Config, s: State, run: seq<Action>)
    requires cfg.Valid() && Inv(cfg, s) && CanRun(cfg, s, run)
    ensures Inv(cfg, After(cfg, s, run))
    decreases |run|
  {
    if run != [] {
      NextKeeps(cfg, s, run[0]);
      RunKeeps(cfg, Next(cfg, s, run[0]), run[1..]);
    }
  }

  /** In every interleaving from the empty dispatcher. */
  lemma ReachableStatesAreSound(cfg: Config, run: seq<Action>)
    requires cfg.Valid() && CanRun(cfg, Init, run)
    ensures Inv(cfg, After(cfg, Init, run))
  {
    RunKeeps(cfg, Init, run);
  }

  /** Nothing is queued, no run has a slot, no retry is scheduled. */
  predicate Idle(s: State) {
    s.queue == [] && s.active == 0 && s.retryTimers == []
  }

  /**
    A waiting drain() is released by a step exactly when that step leaves the
    dispatcher idle; a new drain() is released at once exactly when it already is;
    and then nothing is pending.
   */
  lemma WaitersLeaveExactlyWhenIdle(cfg: Config, s: State, a: Action)
    requires cfg.Valid() && Inv(cfg, s) && Enabled(s, a)
    ensures var t := Next(cfg, s, a);
            && (forall w <- s.idleWaiters :: w in t.released <==> Idle(t))
            && (a.Drain? ==> (s.drains in t.released <==> Idle(s)))
            && (Idle(t) ==> t.pending == {})
  {
    NextKeeps(cfg, s, a);
    IdleMeansNothingPending(Next(cfg, s, a));
    hide Placed, Accounted, JobsSound, RunsBounded, Awake;
    assert forall w <- s.idleWaiters :: 0 <= w < s.drains;
  }

  lemma IdleMeansNothingPending(s: State)
    requires Placed(s) && |s.running| <= s.active
    ensures Idle(s) ==> s.pending == {}
  {
    if Idle(s) {
      forall id ensures id !in s.pending {
        assert Places(s, IdOf, id) == 0;
      }
    }
  }
}
