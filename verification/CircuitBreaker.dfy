/**
  The circuit breaker with calls that overlap: `execute` is the step that admits a
  call and, later and in any order, the step that ends it.
 */
module CircuitBreaker {
  import opened Wrappers

  datatype Mode = Closed | Open | HalfOpen

  datatype Options = Options(failureThreshold: int, successThreshold: int, timeout: int)

  datatype State = State(failures: nat, successes: nat, lastFailure: int, mode: Mode)

  const Initial := State(0, 0, 0, Closed)

  datatype Step = Begin(now: int) | Succeed | Fail(now: int)

  predicate Admits(s: State, now: int, o: Options) {
    s.mode != Open || now - s.lastFailure >= o.timeout
  }

  function OnSuccess(s: State, o: Options): State {
    var t := s.(failures := 0);
    if s.mode != HalfOpen then t
    else if s.successes + 1 >= o.successThreshold then t.(mode := Closed, successes := 0)
    else t.(successes := s.successes + 1)
  }

  function OnFailure(s: State, now: int, o: Options): State {
    var t := s.(failures := s.failures + 1, lastFailure := now, successes := 0);
    if t.failures >= o.failureThreshold then t.(mode := Open) else t
  }

  function Next(s: State, step: Step, o: Options): State {
    match step
    case Begin(now) => if s.mode == Open && Admits(s, now, o) then s.(mode := HalfOpen) else s
    case Succeed => OnSuccess(s, o)
    case Fail(now) => OnFailure(s, now, o)
  }

  class Breaker {
    const options: Options
    var failures: nat
    var successes: nat
    var lastFailure: int
    var mode: Mode

    ghost function Abs(): State
      reads this
    {
      State(failures, successes, lastFailure, mode)
    }

    constructor (options: Options)
      ensures this.options == options && Abs() == Initial
    {
      this.options := options;
      failures, successes, lastFailure, mode := 0, 0, 0, Closed;
    }

    /** The start of `execute`: false when the call is rejected. */
    method TryBegin(now: int) returns (admitted: bool)
      modifies this
      ensures Abs() == Next(old(Abs()), Begin(now), options)
      ensures old(mode) != Open ==> admitted && Abs() == old(Abs())
      ensures old(mode) == Open ==>
                && (admitted <==> now - old(lastFailure) >= options.timeout)
                && Abs() == if admitted then old(Abs()).(mode := HalfOpen) else old(Abs())
    {
      if mode == Open {
        if now - lastFailure < options.timeout {
          return false;
        }
        mode := HalfOpen;
      }
      return true;
    }

    method Succeeded()
      modifies this
      ensures Abs() == Next(old(Abs()), Succeed, options)
    {
      failures := 0;
      if mode == HalfOpen {
        successes := successes + 1;
        if successes >= options.successThreshold {
          mode := Closed;
          successes := 0;
        }
      }
    }

    method Failed(now: int)
      modifies this
      ensures Abs() == Next(old(Abs()), Fail(now), options)
    {
      failures := failures + 1;
      lastFailure := now;
      successes := 0;
      if failures >= options.failureThreshold {
        mode := Open;
      }
    }

    method Reset()
      modifies this
      ensures mode == Closed && failures == 0 && successes == 0 && lastFailure == 0
    {
      failures, successes, lastFailure, mode := 0, 0, 0, Closed;
    }
  }

  // ---- what the counters mean: the calls that have ended, in the order they ended

  datatype Ended = Succeeded(during: Mode) | Failed(at: int)

  function Failures(log: seq<Ended>): nat {
    if log == [] || log[|log| - 1].Succeeded? then 0 else 1 + Failures(log[..|log| - 1])
  }

  /** The successes at the end of the log, as long as they ended in half-open mode. */
  function Trials(log: seq<Ended>): nat {
    if log == [] || log[|log| - 1] != Succeeded(HalfOpen) then 0 else 1 + Trials(log[..|log| - 1])
  }

  function LatestFailure(log: seq<Ended>): Option<int> {
    if log == [] then None
    else if log[|log| - 1].Failed? then Some(log[|log| - 1].at)
    else LatestFailure(log[..|log| - 1])
  }

  /** A threshold below one acts like one. */
  function AtLeastOne(n: int): nat { if n < 1 then 1 else n }

  ghost predicate Inv(s: State, log: seq<Ended>, o: Options) {
    && s.failures == Failures(log)
    && (LatestFailure(log).Some? ==> s.lastFailure == LatestFailure(log).value)
    && (s.mode != Closed ==> LatestFailure(log).Some?)
    && (s.mode == Closed ==> s.failures < AtLeastOne(o.failureThreshold))
    && (s.mode != HalfOpen ==> s.successes == 0)
    && (s.mode == HalfOpen ==> s.successes < AtLeastOne(o.successThreshold))
    && (s.mode == HalfOpen ==> s.successes == Trials(log))
    && (s.mode == Open ==> Trials(log) == 0)
  }

  function Logged(log: seq<Ended>, s: State, step: Step): seq<Ended> {
    match step
    case Begin(_) => log
    case Succeed => log + [Succeeded(s.mode)]
    case Fail(now) => log + [Failed(now)]
  }

  lemma Appended(log: seq<Ended>, e: Ended)
    ensures var all := log + [e];
            && Failures(all) == (if e.Succeeded? then 0 else 1 + Failures(log))
            && Trials(all) == (if e == Succeeded(HalfOpen) then 1 + Trials(log) else 0)
            && LatestFailure(all) == (if e.Failed? then Some(e.at) else LatestFailure(log))
  {
    assert (log + [e])[..|log|] == log;
  }

  lemma NextKeeps(s: State, log: seq<Ended>, step: Step, o: Options)
    requires Inv(s, log, o)
    ensures Inv(Next(s, step, o), Logged(log, s, step), o)
  {
    hide Failures, Trials, LatestFailure;
    match step
    case Begin(_) =>
    case Succeed => Appended(log, Succeeded(s.mode));
    case Fail(now) => Appended(log, Failed(now));
  }

  function After(s: State, run: seq<Step>, o: Options): State
    decreases |run|
  {
    if run == [] then s else After(Next(s, run[0], o), run[1..], o)
  }

  function LogAfter(s: State, log: seq<Ended>, run: seq<Step>, o: Options): seq<Ended>
    decreases |run|
  {
    if run == [] then log else LogAfter(Next(s, run[0], o), Logged(log, s, run[0]), run[1..], o)
  }

  lemma {:induction false} RunKeeps(s: State, log: seq<Ended>, run: seq<Step>, o: Options)
    requires Inv(s, log, o)
    ensures Inv(After(s, run, o), LogAfter(s, log, run, o), o)
    decreases |run|
  {
    if run != [] {
      NextKeeps(s, log, run[0], o);
      RunKeeps(Next(s, run[0], o), Logged(log, s, run[0]), run[1..], o);
    }
  }

  /**
    Over every interleaving of begins and ends: `failures` is the length of the failure
    run the ended calls finish with; a closed breaker has fewer than the threshold and
    no trial successes, a half-open one fewer trial successes than its threshold; and a
    call is admitted exactly if the breaker is not open or the latest failure lies back
    at least the timeout.
   */
  lemma EveryRunIsSound(run: seq<Step>, o: Options, now: int)
    ensures var s, log := After(Initial, run, o), LogAfter(Initial, [], run, o);
            && s.failures == Failures(log)
            && (s.mode == Closed ==> s.failures < AtLeastOne(o.failureThreshold) && s.successes == 0)
            && (s.mode == HalfOpen ==> s.successes == Trials(log) < AtLeastOne(o.successThreshold))
            && (s.mode == Open ==> LatestFailure(log).Some?)
            && (Admits(s, now, o) <==>
                  s.mode != Open || (LatestFailure(log).Some? && now - LatestFailure(log).value >= o.timeout))
  {
    RunKeeps(Initial, [], run, o);
  }

  /** An open breaker is left exactly by a call it admits, and then for half-open; a beginning call moves no other. */
  lemma OpenEndsExactly(run: seq<Step>, o: Options, step: Step)
    ensures var s, log := After(Initial, run, o), LogAfter(Initial, [], run, o);
            var next := Next(s, step, o);
            && (s.mode == Open ==>
                  && LatestFailure(log).Some?
                  && next.mode == (if step.Begin? && step.now - LatestFailure(log).value >= o.timeout then HalfOpen else Open))
            && (s.mode != Open && step.Begin? ==> next == s)
  {
    RunKeeps(Initial, [], run, o);
    hide After, LogAfter, Failures, Trials, LatestFailure;
  }

  /**
    A half-open breaker closes exactly when the trial successes reach the threshold,
    and opens exactly when the failure run does; no other end of a call moves it.
   */
  lemma HalfOpenEndsExactly(run: seq<Step>, o: Options, step: Step)
    requires After(Initial, run, o).mode == HalfOpen && !step.Begin?
    ensures var s, log := After(Initial, run, o), LogAfter(Initial, [], run, o);
            var next, ended := Next(s, step, o), Logged(log, s, step);
            && (next.mode == Closed <==> Trials(ended) == AtLeastOne(o.successThreshold))
            && (next.mode == Open <==> step.Fail? && Failures(ended) >= o.failureThreshold)
  {
    RunKeeps(Initial, [], run, o);
    hide After, LogAfter, Failures, Trials, LatestFailure;
    var s, log := After(Initial, run, o), LogAfter(Initial, [], run, o);
    match step
    case Succeed => Appended(log, Succeeded(s.mode));
    case Fail(now) => Appended(log, Failed(now));
  }

  /** A closed breaker opens exactly when the failure run reaches the threshold. */
  lemma ClosedOpensExactly(run: seq<Step>, o: Options, step: Step)
    requires After(Initial, run, o).mode == Closed && !step.Begin?
    ensures var s, log := After(Initial, run, o), LogAfter(Initial, [], run, o);
            Next(s, step, o).mode == Open <==> Failures(Logged(log, s, step)) == AtLeastOne(o.failureThreshold)
  {
    RunKeeps(Initial, [], run, o);
    hide After, LogAfter, Failures, Trials, LatestFailure;
    var s, log := After(Initial, run, o), LogAfter(Initial, [], run, o);
    match step
    case Succeed => Appended(log, Succeeded(s.mode));
    case Fail(now) => Appended(log, Failed(now));
  }
}
