/**
  The notification dispatcher as a state machine over the atomic steps of its
  event loop.  The first fields of a state are the dispatcher's own; the next
  four are the callbacks the event loop still owes it; the last ones record what
  has been written and what became of every accepted event.
 */
module DispatchModel {
  import opened Wrappers
  import opened LifecycleEvents
  import opened Shared

  datatype Config = Config(concurrency: nat, maxAttempts: nat) {
    predicate Valid() {
      concurrency >= 1 && maxAttempts >= 1
    }
  }

  /** `ticket` is the identity of the job object: its position among all accepted events. */
  datatype Job = Job(eventId: string, event: Event, attempts: nat, ticket: nat)

  datatype Notification = Notification(userId: string, kind: Kind, dedupeKey: string)

  datatype Outcome = Delivered(recipients: seq<string>) | DeadLettered(attempts: nat)

  datatype State = State(
    queue: seq<Job>,
    pending: set<string>,
    active: nat,
    idleWaiters: seq<nat>,
    scheduledRetries: int,
    pumpsDue: nat,          // setImmediate callbacks not yet run
    running: seq<Job>,      // runs whose delivery is undecided
    retryTimers: seq<Job>,  // scheduled retries
    finishing: nat,         // decided runs whose `finally` is still to come
    rows: seq<Notification>,
    accepted: seq<Event>,
    starts: seq<nat>,       // how often each accepted event has been run
    outcomes: map<nat, Outcome>,
    drains: nat,            // number of drain() calls so far; a waiter is such a number
    released: set<nat>)     // the drain() calls whose promise has resolved

  const Init := State([], {}, 0, [], 0, 0, [], [], 0, [], [], [], map[], 0, {})

  function Size(s: State): int {
    |s.queue| + s.active + s.scheduledRetries
  }

  datatype Action =
    | Enqueue(event: Event)
    | Drain
    | PumpFires
    | DeliverySucceeds(index: nat, investors: seq<string>)
    | DeliveryFails(index: nat, investors: seq<string>, written: seq<string>)
    | RetryFires(index: nat)
    | RunSettles

  /** Inputs come from callers; every other action is the event loop's. */
  predicate IsInput(a: Action) {
    a.Enqueue? || a.Drain?
  }

  /**
    A delivery may fail with rows already written, but only rows of that attempt.
   */
  predicate Enabled(s: State, a: Action) {
    match a
    case Enqueue(_) => true
    case Drain => true
    case PumpFires => s.pumpsDue > 0
    case DeliverySucceeds(i, _) => i < |s.running|
    case DeliveryFails(i, investors, written) =>
      i < |s.running| && forall u <- written :: u in Recipients(s.running[i].event, investors)
    case RetryFires(i) => i < |s.retryTimers|
    case RunSettles => s.finishing > 0 && s.active > 0
  }

  // ---- what a delivery writes

  /** JavaScript `Set.add` over a list: first occurrences, in order. */
  function AddAll(found: seq<string>, more: seq<string>): (all: seq<string>)
    ensures forall u :: u in all <==> u in found || u in more
    ensures NoRepeats(found) ==> NoRepeats(all)
    ensures found <= all
    decreases |more|
  {
    if more == [] then found
    else AddAll(if more[0] in found then found else found + [more[0]], more[1..])
  }

  function Recipients(event: Event, investors: seq<string>): seq<string> {
    AddAll([event.invoice.sellerId], if ToInvestors(event.kind) then investors else [])
  }

  /** Who hears of which event: the seller of all, the investors of four kinds. */
  lemma RecipientsExactly(event: Event, investors: seq<string>, u: string)
    ensures u in Recipients(event, investors) <==>
              u == event.invoice.sellerId || (event.kind in {Funded, Settled, DeadlineExtended, Matured} && u in investors)
    ensures NoRepeats(Recipients(event, investors)) && Recipients(event, investors)[0] == event.invoice.sellerId
  {
    assert event.kind in {Funded, Settled, DeadlineExtended, Matured} <==> ToInvestors(event.kind);
  }

  function Entry(job: Job, userId: string): Notification {
    Notification(userId, job.event.kind, DedupeKey(job.eventId, userId))
  }

  predicate HasKey(rows: seq<Notification>, key: string) {
    exists i :: 0 <= i < |rows| && rows[i].dedupeKey == key
  }

  function InsertOne(rows: seq<Notification>, entry: Notification): seq<Notification> {
    if HasKey(rows, entry.dedupeKey) then rows else rows + [entry]
  }

  /** The store's contract: entries whose dedupe key is already there are skipped. */
  function Insert(rows: seq<Notification>, job: Job, users: seq<string>): seq<Notification>
    decreases |users|
  {
    if users == [] then rows
    else Insert(InsertOne(rows, Entry(job, users[0])), job, users[1..])
  }

  // ---- steps

  function RemoveAt<T>(s: seq<T>, i: nat): seq<T>
    requires i < |s|
  {
    s[..i] + s[i + 1..]
  }

  /** One turn of pump's loop: shift a job and start its run. */
  function StartNext(s: State): State
    requires s.queue != []
  {
    var job := s.queue[0];
    var started := job.(attempts := job.attempts + 1);
    s.(queue := s.queue[1..],
       active := s.active + 1,
       running := s.running + [started],
       starts := if job.ticket < |s.starts| then s.starts[job.ticket := s.starts[job.ticket] + 1] else s.starts)
  }

  function Pump(cfg: Config, s: State): (p: State)
    ensures p == s.(queue := p.queue, active := p.active, running := p.running, starts := p.starts)
    ensures Size(p) == Size(s)
    decreases |s.queue|
  {
    if s.active < cfg.concurrency && |s.queue| > 0 then Pump(cfg, StartNext(s)) else s
  }

  function NotifyIfIdle(s: State): State {
    if Size(s) > 0 then s
    else s.(idleWaiters := [], released := s.released + set w <- s.idleWaiters)
  }

  function Accept(s: State, event: Event): State {
    var id := EventIdFor(event);
    if id in s.pending then s
    else s.(pending := s.pending + {id},
            queue := s.queue + [Job(id, event, 0, |s.accepted|)],
            pumpsDue := s.pumpsDue + 1,
            accepted := s.accepted + [event],
            starts := s.starts + [0])
  }

  function Succeed(s: State, i: nat, investors: seq<string>): State
    requires i < |s.running|
  {
    var job := s.running[i];
    var users := Recipients(job.event, investors);
    s.(running := RemoveAt(s.running, i),
       finishing := s.finishing + 1,
       pending := s.pending - {job.eventId},
       rows := Insert(s.rows, job, users),
       outcomes := s.outcomes[job.ticket := Delivered(users)])
  }

  function Fail(cfg: Config, s: State, i: nat, written: seq<string>): State
    requires i < |s.running|
  {
    var job := s.running[i];
    var t := s.(running := RemoveAt(s.running, i),
                finishing := s.finishing + 1,
                rows := Insert(s.rows, job, written));
    if job.attempts < cfg.maxAttempts then
      t.(scheduledRetries := s.scheduledRetries + 1, retryTimers := s.retryTimers + [job])
    else
      t.(pending := s.pending - {job.eventId},
         outcomes := s.outcomes[job.ticket := DeadLettered(job.attempts)])
  }

  function Retry(s: State, i: nat): State
    requires i < |s.retryTimers|
  {
    s.(scheduledRetries := s.scheduledRetries - 1,
       retryTimers := RemoveAt(s.retryTimers, i),
       queue := s.queue + [s.retryTimers[i]])
  }

  function Settle(s: State): State
    requires s.finishing > 0 && s.active > 0
  {
    s.(active := s.active - 1, finishing := s.finishing - 1)
  }

  function Wait(s: State): State {
    var t := s.(drains := s.drains + 1);
    if Size(s) == 0 then t.(released := s.released + {s.drains})
    else t.(idleWaiters := s.idleWaiters + [s.drains])
  }

  function Next(cfg: Config, s: State, a: Action): State
    requires Enabled(s, a)
  {
    match a
    case Enqueue(event) => Accept(s, event)
    case Drain => Wait(s)
    case PumpFires => Pump(cfg, s.(pumpsDue := s.pumpsDue - 1))
    case DeliverySucceeds(i, investors) => Succeed(s, i, investors)
    case DeliveryFails(i, _, written) => Fail(cfg, s, i, written)
    case RetryFires(i) => NotifyIfIdle(Pump(cfg, Retry(s, i)))
    case RunSettles => NotifyIfIdle(Pump(cfg, Settle(s)))
  }

  // ---- runs

  ghost predicate CanRun(cfg: Config, s: State, run: seq<Action>)
    decreases |run|
  {
    run == [] || (Enabled(s, run[0]) && CanRun(cfg, Next(cfg, s, run[0]), run[1..]))
  }

  ghost function After(cfg: Config, s: State, run: seq<Action>): State
    requires CanRun(cfg, s, run)
    decreases |run|
  {
    if run == [] then s else After(cfg, Next(cfg, s, run[0]), run[1..])
  }
}
