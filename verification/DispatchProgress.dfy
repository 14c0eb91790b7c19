/**
  The dispatcher quiesces: every callback of the event loop uses up a measure
  that only an accepted event can refill, so a run is at most `3 * maxAttempts`
  callbacks per accepted event long, and when no callback is left every accepted
  event has its one outcome.
 */
module DispatchProgress {
  import opened Wrappers
  import opened LifecycleEvents
  import opened Shared
  import opened DispatchModel
  import opened DispatchSafety

  /** Callbacks still to be expected for jobs in one place: three per attempt left, and `extra`. */
  function Load(jobs: seq<Job>, maxAttempts: nat, extra: int): int {
    if jobs == [] then 0
    else 3 * (maxAttempts - jobs[0].attempts) + extra + Load(jobs[1..], maxAttempts, extra)
  }

  function Measure(cfg: Config, s: State): int {
    Load(s.queue, cfg.maxAttempts, -1) + Load(s.running, cfg.maxAttempts, 2)
    + Load(s.retryTimers, cfg.maxAttempts, 0) + s.finishing + s.pumpsDue
  }

  lemma {:induction false} LoadAppend(jobs: seq<Job>, job: Job, m: nat, extra: int)
    ensures Load(jobs + [job], m, extra) == Load(jobs, m, extra) + 3 * (m - job.attempts) + extra
  {
    if jobs == [] {
      assert jobs + [job] == [job];
    } else {
      assert (jobs + [job])[1..] == jobs[1..] + [job];
      LoadAppend(jobs[1..], job, m, extra);
    }
  }

  lemma {:induction false} LoadRemove(jobs: seq<Job>, i: nat, m: nat, extra: int)
    requires i < |jobs|
    ensures Load(jobs, m, extra) == Load(RemoveAt(jobs, i), m, extra) + 3 * (m - jobs[i].attempts) + extra
  {
    if i == 0 {
      assert RemoveAt(jobs, i) == jobs[1..];
    } else {
      assert RemoveAt(jobs, i) == [jobs[0]] + RemoveAt(jobs[1..], i - 1);
      LoadRemove(jobs[1..], i - 1, m, extra);
    }
  }

  lemma {:induction false} LoadIsNatural(jobs: seq<Job>, m: nat, extra: int)
    requires forall j <- jobs :: 3 * (m - j.attempts) + extra >= 0
    ensures Load(jobs, m, extra) >= 0
  {
    if jobs != [] {
      assert jobs[0] in jobs;
      LoadIsNatural(jobs[1..], m, extra);
    }
  }

  lemma MeasureIsNatural(cfg: Config, s: State)
    requires Live(cfg, s)
    ensures Measure(cfg, s) >= 0
  {
    LoadIsNatural(s.queue, cfg.maxAttempts, -1);
    LoadIsNatural(s.running, cfg.maxAttempts, 2);
    LoadIsNatural(s.retryTimers, cfg.maxAttempts, 0);
  }

  lemma {:induction false} PumpUsesUp(cfg: Config, s: State)
    ensures Measure(cfg, Pump(cfg, s)) <= Measure(cfg, s)
    ensures Pump(cfg, s).accepted == s.accepted
    decreases |s.queue|
  {
    if s.active < cfg.concurrency && |s.queue| > 0 {
      LoadAppend(s.running, s.queue[0].(attempts := s.queue[0].attempts + 1), cfg.maxAttempts, 2);
      PumpUsesUp(cfg, StartNext(s));
    }
  }

  lemma DeliveryUsesUp(cfg: Config, s: State, a: Action)
    requires Live(cfg, s) && Enabled(s, a) && (a.DeliverySucceeds? || a.DeliveryFails?)
    ensures Measure(cfg, Next(cfg, s, a)) < Measure(cfg, s)
  {
    var job := s.running[a.index];
    assert job in s.running;
    LoadRemove(s.running, a.index, cfg.maxAttempts, 2);
    LoadAppend(s.retryTimers, job, cfg.maxAttempts, 0);
  }

  /** Every callback of the event loop strictly decreases the measure. */
  lemma CallbacksUseUp(cfg: Config, s: State, a: Action)
    requires Live(cfg, s) && Enabled(s, a) && !IsInput(a)
    ensures Measure(cfg, Next(cfg, s, a)) < Measure(cfg, s)
    ensures Next(cfg, s, a).accepted == s.accepted
  {
    hide Live, StartNext;
    match a
    case PumpFires => PumpUsesUp(cfg, s.(pumpsDue := s.pumpsDue - 1));
    case RetryFires(i) =>
      LoadRemove(s.retryTimers, i, cfg.maxAttempts, 0);
      LoadAppend(s.queue, s.retryTimers[i], cfg.maxAttempts, -1);
      PumpUsesUp(cfg, Retry(s, i));
    case RunSettles => PumpUsesUp(cfg, Settle(s));
    case _ => DeliveryUsesUp(cfg, s, a);
  }

  /** Three callbacks (delivery, settling, retry timer or pump) for every attempt an event may take. */
  function Budget(cfg: Config, events: nat): nat {
    if events == 0 then 0 else Budget(cfg, events - 1) + 3 * cfg.maxAttempts
  }

  lemma InputsRefill(cfg: Config, s: State, a: Action)
    requires IsInput(a)
    ensures Measure(cfg, Next(cfg, s, a)) - Budget(cfg, |Next(cfg, s, a).accepted|)
         == Measure(cfg, s) - Budget(cfg, |s.accepted|)
  {
    if a.Enqueue? {
      LoadAppend(s.queue, Job(EventIdFor(a.event), a.event, 0, |s.accepted|), cfg.maxAttempts, -1);
    }
  }

  function Callbacks(run: seq<Action>): nat {
    if run == [] then 0 else One(!IsInput(run[0])) + Callbacks(run[1..])
  }

  lemma {:induction false} CallbacksAreBounded(cfg: Config, s: State, run: seq<Action>)
    requires cfg.Valid() && Inv(cfg, s) && CanRun(cfg, s, run)
    ensures var t := After(cfg, s, run);
            Callbacks(run) + Measure(cfg, t) - Budget(cfg, |t.accepted|)
            <= Measure(cfg, s) - Budget(cfg, |s.accepted|)
    decreases |run|
  {
    if run != [] {
      NextKeeps(cfg, s, run[0]);
      if IsInput(run[0]) {
        InputsRefill(cfg, s, run[0]);
      } else {
        CallbacksUseUp(cfg, s, run[0]);
      }
      CallbacksAreBounded(cfg, Next(cfg, s, run[0]), run[1..]);
    }
  }

  lemma {:induction false} BudgetIsProduct(cfg: Config, events: nat)
    ensures Budget(cfg, events) == 3 * cfg.maxAttempts * events
  {
    if events > 0 {
      BudgetIsProduct(cfg, events - 1);
    }
  }

  /** From an empty dispatcher: at most 3 * maxAttempts callbacks per accepted event, in any order. */
  lemma RunsAreBounded(cfg: Config, run: seq<Action>)
    requires cfg.Valid() && CanRun(cfg, Init, run)
    ensures Callbacks(run) <= 3 * cfg.maxAttempts * |After(cfg, Init, run).accepted|
  {
    ReachableStatesAreSound(cfg, []);
    CallbacksAreBounded(cfg, Init, run);
    ReachableStatesAreSound(cfg, run);
    MeasureIsNatural(cfg, After(cfg, Init, run));
    BudgetIsProduct(cfg, |After(cfg, Init, run).accepted|);
  }

  ghost predicate Quiescent(s: State) {
    forall a: Action :: Enabled(s, a) ==> IsInput(a)
  }

  /** When no callback is left, everything accepted has its outcome and nobody waits. */
  lemma QuiescentMeansDone(cfg: Config, s: State)
    requires cfg.Valid() && Inv(cfg, s) && Quiescent(s)
    ensures Size(s) == 0 && s.pending == {} && s.idleWaiters == []
    ensures forall t: nat :: t in s.outcomes <==> t < |s.accepted|
    ensures forall w :: w in s.released <==> 0 <= w < s.drains
  {
    assert !Enabled(s, PumpFires) && !Enabled(s, RunSettles);
    assert !Enabled(s, DeliverySucceeds(0, [])) && !Enabled(s, RetryFires(0));
    assert s.queue == [] && s.running == [] && s.retryTimers == [];
    forall id ensures id !in s.pending {
      assert Places(s, IdOf, id) == 0;
    }
    forall t: nat ensures t in s.outcomes <==> t < |s.accepted| {
      assert Places(s, TicketOf, t) == 0;
    }
  }

  /** No investors, and nothing written before a failure. */
  predicate Bare(a: Action) {
    match a
    case DeliverySucceeds(_, investors) => investors == []
    case DeliveryFails(_, investors, written) => investors == [] && written == []
    case _ => true
  }

  lemma BareCallback(s: State) returns (a: Action)
    requires !Quiescent(s)
    ensures Enabled(s, a) && !IsInput(a) && Bare(a)
  {
    a :| Enabled(s, a) && !IsInput(a);
    match a {
      case DeliverySucceeds(i, _) => a := DeliverySucceeds(i, []);
      case DeliveryFails(i, _, _) => a := DeliveryFails(i, [], []);
      case _ =>
    }
  }

  /** Whatever is still to happen, some run of callbacks empties the dispatcher. */
  lemma {:induction false} CanAlwaysFinish(cfg: Config, s: State) returns (run: seq<Action>)
    requires cfg.Valid() && Inv(cfg, s)
    ensures CanRun(cfg, s, run) && Quiescent(After(cfg, s, run))
    ensures Callbacks(run) == |run| <= Measure(cfg, s)
    ensures forall a <- run :: !IsInput(a) && Bare(a)
    decreases Measure(cfg, s)
  {
    MeasureIsNatural(cfg, s);
    if Quiescent(s) {
      run := [];
    } else {
      var a := BareCallback(s);
      NextKeeps(cfg, s, a);
      CallbacksUseUp(cfg, s, a);
      MeasureIsNatural(cfg, Next(cfg, s, a));
      var rest := CanAlwaysFinish(cfg, Next(cfg, s, a));
      run := [a] + rest;
      assert run[1..] == rest;
    }
  }

  lemma StepKeepsOutcomes(cfg: Config, s: State, a: Action)
    requires Placed(s) && Accounted(s) && Enabled(s, a)
    ensures forall t <- s.outcomes :: t in Next(cfg, s, a).outcomes && Next(cfg, s, a).outcomes[t] == s.outcomes[t]
  {
    if a.DeliverySucceeds? || a.DeliveryFails? {
      DecidedRunIsOpen(s, a.index);
    }
  }

  /** An outcome, once there, stays: no event is both delivered and dead-lettered. */
  lemma {:induction false} OutcomesAreFinal(cfg: Config, s: State, run: seq<Action>)
    requires cfg.Valid() && Inv(cfg, s) && CanRun(cfg, s, run)
    ensures forall t <- s.outcomes ::
              t in After(cfg, s, run).outcomes && After(cfg, s, run).outcomes[t] == s.outcomes[t]
    decreases |run|
  {
    if run != [] {
      hide Next, Placed, Accounted, JobsSound, RunsBounded, WaitersSound;
      NextKeeps(cfg, s, run[0]);
      StepKeepsOutcomes(cfg, s, run[0]);
      OutcomesAreFinal(cfg, Next(cfg, s, run[0]), run[1..]);
    }
  }

  // ---- what an outcome tells

  /** How the run that the action decides ended, if it is one of the ticket: true if it resolved. */
  function Decision(s: State, a: Action, ticket: nat): seq<bool>
    requires Enabled(s, a)
  {
    if (a.DeliverySucceeds? || a.DeliveryFails?) && s.running[a.index].ticket == ticket then [a.DeliverySucceeds?] else []
  }

  /** How the decided runs of one accepted event ended, in order. */
  ghost function Decisions(cfg: Config, s: State, run: seq<Action>, ticket: nat): seq<bool>
    requires CanRun(cfg, s, run)
    decreases |run|
  {
    if run == [] then []
    else Decision(s, run[0], ticket) + Decisions(cfg, Next(cfg, s, run[0]), run[1..], ticket)
  }

  /** Every run of the event is undecided or one of the decisions, and only the last of these may be a success. */
  ghost predicate Tallied(s: State, ticket: nat, ended: seq<bool>) {
    && |s.starts| == |s.accepted|
    && |ended| + Count(s.running, TicketOf, ticket) == (if ticket < |s.accepted| then s.starts[ticket] else 0)
    && (ticket in s.outcomes && s.outcomes[ticket].Delivered? ==>
          ended != [] && ended[|ended| - 1] && true !in ended[..|ended| - 1])
    && (ticket in s.outcomes && s.outcomes[ticket].DeadLettered? ==> true !in ended)
    && (ticket !in s.outcomes ==> true !in ended)
  }

  lemma {:induction false} PumpKeepsTally(cfg: Config, s: State, ticket: nat, ended: seq<bool>)
    requires Live(cfg, s) && Tallied(s, ticket, ended)
    ensures Tallied(Pump(cfg, s), ticket, ended)
    decreases |s.queue|
  {
    if s.active < cfg.concurrency && |s.queue| > 0 {
      var job := s.queue[0];
      assert job in s.queue && JobSound(s, job);
      CountAppend(s.running, job.(attempts := job.attempts + 1), TicketOf, ticket);
      StartNextKeepsPlaces(s);
      StartNextKeepsJobs(cfg, s);
      StartNextKeepsBounds(cfg, s);
      PumpKeepsTally(cfg, StartNext(s), ticket, ended);
    }
  }

  lemma OtherTicketTally(s: State, t: State, ticket: nat, ended: seq<bool>)
    requires Tallied(s, ticket, ended) && t.starts == s.starts && t.accepted == s.accepted
    requires Count(t.running, TicketOf, ticket) == Count(s.running, TicketOf, ticket)
    requires ticket in t.outcomes <==> ticket in s.outcomes
    requires ticket in s.outcomes ==> t.outcomes[ticket] == s.outcomes[ticket]
    ensures Tallied(t, ticket, ended)
  {
    hide Count;
  }

  lemma OwnTicketTally(s: State, t: State, ticket: nat, ended: seq<bool>, resolved: bool)
    requires Tallied(s, ticket, ended) && t.starts == s.starts && t.accepted == s.accepted && ticket !in s.outcomes
    requires Count(t.running, TicketOf, ticket) + 1 == Count(s.running, TicketOf, ticket)
    requires if resolved then ticket in t.outcomes && t.outcomes[ticket].Delivered?
             else ticket in t.outcomes ==> t.outcomes[ticket].DeadLettered?
    ensures Tallied(t, ticket, ended + [resolved])
  {
    hide Count;
    assert (ended + [resolved])[..|ended|] == ended;
  }

  lemma DecisionMoves(cfg: Config, s: State, a: Action)
    requires Enabled(s, a) && (a.DeliverySucceeds? || a.DeliveryFails?)
    ensures var next, ticket := Next(cfg, s, a), s.running[a.index].ticket;
            && next.running == RemoveAt(s.running, a.index)
            && next.starts == s.starts && next.accepted == s.accepted
            && (forall t :: t != ticket ==> (t in next.outcomes <==> t in s.outcomes))
            && (forall t <- s.outcomes :: t != ticket ==> next.outcomes[t] == s.outcomes[t])
            && (a.DeliverySucceeds? ==> ticket in next.outcomes && next.outcomes[ticket].Delivered?)
            && (a.DeliveryFails? && ticket !in s.outcomes ==>
                  ticket in next.outcomes ==> next.outcomes[ticket].DeadLettered?)
  {
    hide Insert, Recipients, RemoveAt;
  }

  lemma DecisionKeepsTally(cfg: Config, s: State, a: Action, ticket: nat, ended: seq<bool>)
    requires Placed(s) && Accounted(s) && Tallied(s, ticket, ended)
    requires Enabled(s, a) && (a.DeliverySucceeds? || a.DeliveryFails?)
    ensures Tallied(Next(cfg, s, a), ticket, ended + Decision(s, a, ticket))
  {
    hide Next, Placed, Accounted, Tallied, Count, RemoveAt, Recipients, Insert;
    DecidedRunIsOpen(s, a.index);
    CountRemove(s.running, a.index, TicketOf, ticket);
    DecisionMoves(cfg, s, a);
    if s.running[a.index].ticket == ticket {
      OwnTicketTally(s, Next(cfg, s, a), ticket, ended, a.DeliverySucceeds?);
    } else {
      OtherTicketTally(s, Next(cfg, s, a), ticket, ended);
      assert ended + [] == ended;
    }
  }

  lemma StepKeepsTally(cfg: Config, s: State, a: Action, ticket: nat, ended: seq<bool>)
    requires cfg.Valid() && Inv(cfg, s) && Tallied(s, ticket, ended) && Enabled(s, a)
    ensures Tallied(Next(cfg, s, a), ticket, ended + Decision(s, a, ticket))
  {
    hide Pump, Placed, Accounted, JobsSound, RunsBounded;
    assert ended + [] == ended;
    match a
    case Enqueue(_) =>
    case Drain =>
    case PumpFires =>
      var t := s.(pumpsDue := s.pumpsDue - 1);
      SameWorkKeepsLive(cfg, s, t);
      PumpKeepsTally(cfg, t, ticket, ended);
    case RetryFires(i) =>
      RetryKeepsLive(cfg, s, i);
      PumpKeepsTally(cfg, Retry(s, i), ticket, ended);
    case RunSettles =>
      SettleKeepsLive(cfg, s);
      PumpKeepsTally(cfg, Settle(s), ticket, ended);
    case _ => DecisionKeepsTally(cfg, s, a, ticket, ended);
  }

  lemma {:induction false} RunKeepsTally(cfg: Config, s: State, run: seq<Action>, ticket: nat, ended: seq<bool>)
    requires cfg.Valid() && Inv(cfg, s) && CanRun(cfg, s, run) && Tallied(s, ticket, ended)
    ensures Tallied(After(cfg, s, run), ticket, ended + Decisions(cfg, s, run, ticket))
    decreases |run|
  {
    hide Next, Tallied, Decision, Inv;
    if run == [] {
      assert ended + [] == ended;
    } else {
      var next, now := Next(cfg, s, run[0]), Decision(s, run[0], ticket);
      NextKeeps(cfg, s, run[0]);
      StepKeepsTally(cfg, s, run[0], ticket, ended);
      RunKeepsTally(cfg, next, run[1..], ticket, ended + now);
      var rest := Decisions(cfg, next, run[1..], ticket);
      assert (ended + now) + rest == ended + (now + rest);
    }
  }

  lemma TallyDecides(cfg: Config, s: State, ticket: nat, ended: seq<bool>)
    requires cfg.Valid() && Live(cfg, s) && Tallied(s, ticket, ended) && ticket < |s.accepted|
    ensures ticket in s.outcomes && s.outcomes[ticket].Delivered? <==> true in ended
    ensures ticket in s.outcomes && s.outcomes[ticket].DeadLettered? <==> |ended| == cfg.maxAttempts && true !in ended
    ensures |ended| <= cfg.maxAttempts && (true !in ended || true !in ended[..|ended| - 1])
  {
    assert Places(s, TicketOf, ticket) + One(ticket in s.outcomes) == 1;
    if ticket !in s.outcomes && |ended| == cfg.maxAttempts {
      var job := HolderOf(s, ticket);
      assert JobSound(s, job);
      assert s.starts[ticket] <= cfg.maxAttempts;
      if job in s.running {
        CountMember(s.running, job, TicketOf);
      }
    }
  }

  lemma {:induction false} CountedJob(jobs: seq<Job>, ticket: nat) returns (job: Job)
    requires Count(jobs, TicketOf, ticket) > 0
    ensures job in jobs && job.ticket == ticket
  {
    if jobs[0].ticket == ticket {
      job := jobs[0];
    } else {
      job := CountedJob(jobs[1..], ticket);
    }
  }

  lemma HolderOf(s: State, ticket: nat) returns (job: Job)
    requires Places(s, TicketOf, ticket) > 0
    ensures job.ticket == ticket && (job in s.queue || job in s.running || job in s.retryTimers)
  {
    if Count(s.queue, TicketOf, ticket) > 0 {
      job := CountedJob(s.queue, ticket);
    } else if Count(s.running, TicketOf, ticket) > 0 {
      job := CountedJob(s.running, ticket);
    } else {
      job := CountedJob(s.retryTimers, ticket);
    }
  }

  lemma OnlyTheLast(ended: seq<bool>)
    requires true !in ended || true !in ended[..|ended| - 1]
    ensures forall i :: 0 <= i < |ended| && ended[i] ==> i == |ended| - 1
  {
    forall i | 0 <= i < |ended| - 1 ensures !ended[i] {
      assert ended[i] == ended[..|ended| - 1][i];
    }
  }

  /**
    Over every run: an event is delivered exactly if one of its runs resolved, which
    was then the last one, and dead-lettered exactly if maxAttempts runs were all rejected.
   */
  lemma OutcomesTellTheRuns(cfg: Config, run: seq<Action>, ticket: nat)
    requires cfg.Valid() && CanRun(cfg, Init, run) && ticket < |After(cfg, Init, run).accepted|
    ensures var s, ended := After(cfg, Init, run), Decisions(cfg, Init, run, ticket);
            && (ticket in s.outcomes && s.outcomes[ticket].Delivered? <==> true in ended)
            && (ticket in s.outcomes && s.outcomes[ticket].DeadLettered? <==>
                  |ended| == cfg.maxAttempts && true !in ended)
            && (forall i :: 0 <= i < |ended| && ended[i] ==> i == |ended| - 1)
            && |ended| <= cfg.maxAttempts
  {
    hide Decisions;
    ReachableStatesAreSound(cfg, []);
    RunKeepsTally(cfg, Init, run, ticket, []);
    ReachableStatesAreSound(cfg, run);
    var s, ended := After(cfg, Init, run), Decisions(cfg, Init, run, ticket);
    assert [] + ended == ended;
    TallyDecides(cfg, s, ticket, ended);
    OnlyTheLast(ended);
  }
}
