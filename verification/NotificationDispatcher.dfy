/**
  The dispatcher as the object the source writes: its fields, its methods and the
  callbacks it hands to the event loop.  Every method is proved to take exactly
  the step of the state machine in DispatchModel.
 */
module NotificationDispatcher {
  import opened Wrappers
  import opened LifecycleEvents
  import opened Shared
  import opened DispatchModel
  import Safety = DispatchSafety

  class DedupedStore {
    var rows: seq<Notification>

    constructor ()
      ensures rows == []
    {
      rows := [];
    }

    /** Writes the entries of one attempt, skipping those whose dedupe key exists. */
    method InsertIgnoringDuplicates(job: Job, users: seq<string>)
      modifies this
      ensures rows == Insert(old(rows), job, users)
    {
      for k := 0 to |users|
        invariant Insert(rows, job, users[k..]) == Insert(old(rows), job, users)
      {
        var entry := Entry(job, users[k]);
        assert users[k..][1..] == users[k + 1..];
        if !HasKey(rows, entry.dedupeKey) {
          rows := rows + [entry];
        }
      }
    }
  }

  class Dispatcher {
    const cfg: Config
    const store: DedupedStore
    var queue: seq<Job>
    var pending: set<string>
    var active: nat
    var idleWaiters: seq<nat>
    var scheduledRetries: int
    // callbacks the event loop holds
    var pumpsDue: nat
    var running: seq<Job>
    var retryTimers: seq<Job>
    var finishing: nat
    // what became of it all
    var accepted: seq<Event>
    var starts: seq<nat>
    var outcomes: map<nat, Outcome>
    var drains: nat
    var released: set<nat>

    ghost function Abs(): State
      reads this, store
    {
      State(queue, pending, active, idleWaiters, scheduledRetries, pumpsDue, running, retryTimers,
            finishing, store.rows, accepted, starts, outcomes, drains, released)
    }

    constructor (cfg: Config, store: DedupedStore)
      requires store.rows == []
      ensures this.cfg == cfg && this.store == store && Abs() == Init
    {
      this.cfg, this.store := cfg, store;
      queue, pending, active, idleWaiters, scheduledRetries := [], {}, 0, [], 0;
      pumpsDue, running, retryTimers, finishing := 0, [], [], 0;
      accepted, starts, outcomes, drains, released := [], [], map[], 0, {};
    }

    function Size(): int
      reads this
    {
      |queue| + active + scheduledRetries
    }

    /** Queues an event; false if its id was already pending. */
    method Enqueue(event: Event) returns (isNew: bool)
      modifies this
      ensures Abs() == Next(cfg, old(Abs()), Action.Enqueue(event))
      ensures isNew <==> EventIdFor(event) !in old(pending)
      ensures isNew ==> accepted == old(accepted) + [event]
      ensures isNew ==> queue == old(queue) + [Job(EventIdFor(event), event, 0, |old(accepted)|)]
    {
      var id := EventIdFor(event);
      if id in pending {
        return false;
      }
      pending := pending + {id};
      queue := queue + [Job(id, event, 0, |accepted|)];
      accepted, starts := accepted + [event], starts + [0];
      pumpsDue := pumpsDue + 1;
      return true;
    }

    method Drain() returns (waiter: nat)
      modifies this
      ensures Abs() == Next(cfg, old(Abs()), Action.Drain)
      ensures waiter == old(drains)
      ensures waiter in released || waiter in idleWaiters
    {
      waiter := drains;
      drains := drains + 1;
      if Size() == 0 {
        released := released + {waiter};
      } else {
        idleWaiters := idleWaiters + [waiter];
      }
    }

    /** Takes a slot for the oldest job and starts its run. */
    method StartRun()
      requires queue != []
      modifies this
      ensures Abs() == StartNext(old(Abs()))
    {
      var job := queue[0];
      queue := queue[1..];
      active := active + 1;
      if job.ticket < |starts| {
        starts := starts[job.ticket := starts[job.ticket] + 1];
      }
      running := running + [job.(attempts := job.attempts + 1)];
    }

    method Pump()
      modifies this
      ensures Abs() == DispatchModel.Pump(cfg, old(Abs()))
    {
      while active < cfg.concurrency && |queue| > 0
        invariant DispatchModel.Pump(cfg, Abs()) == DispatchModel.Pump(cfg, old(Abs()))
        decreases |queue|
      {
        StartRun();
      }
    }

    method NotifyIfIdle()
      modifies this
      ensures Abs() == DispatchModel.NotifyIfIdle(old(Abs()))
    {
      if Size() > 0 {
        return;
      }
      var waiting := idleWaiters;
      idleWaiters := [];
      for k := 0 to |waiting|
        invariant Abs() == old(Abs()).(idleWaiters := [],
                                       released := old(released) + set w <- waiting[..k])
      {
        released := released + {waiting[k]};
      }
      assert waiting[..|waiting|] == waiting;
    }

    method PumpFires()
      requires pumpsDue > 0
      modifies this
      ensures Abs() == Next(cfg, old(Abs()), Action.PumpFires)
    {
      pumpsDue := pumpsDue - 1;
      Pump();
    }

    /** The recipients of an event: a Set filled from the seller and the investors. */
    static method CollectRecipients(event: Event, investors: seq<string>) returns (users: seq<string>)
      ensures users == Recipients(event, investors)
      ensures NoRepeats(users)
      ensures forall u :: u in users <==>
                u == event.invoice.sellerId || (event.kind in {Funded, Settled, DeadlineExtended, Matured} && u in investors)
    {
      forall u ensures u in Recipients(event, investors) <==>
                u == event.invoice.sellerId || (event.kind in {Funded, Settled, DeadlineExtended, Matured} && u in investors)
      {
        RecipientsExactly(event, investors, u);
      }
      users := [event.invoice.sellerId];
      if ToInvestors(event.kind) {
        for k := 0 to |investors|
          invariant AddAll(users, investors[k..]) == Recipients(event, investors)
        {
          assert investors[k..][1..] == investors[k + 1..];
          if investors[k] !in users {
            users := users + [investors[k]];
          }
        }
      }
    }

    /** `deliver` resolves: the rows are written, the id leaves `pending`. */
    method DeliverySucceeds(i: nat, investors: seq<string>)
      requires i < |running|
      modifies this, store
      ensures Abs() == Next(cfg, old(Abs()), Action.DeliverySucceeds(i, investors))
    {
      var job := running[i];
      var users := CollectRecipients(job.event, investors);
      store.InsertIgnoringDuplicates(job, users);
      running := RemoveAt(running, i);
      finishing := finishing + 1;
      pending := pending - {job.eventId};
      outcomes := outcomes[job.ticket := Delivered(users)];
    }

    /** `deliver` rejects after `written` rows of the attempt: retry or dead-letter. */
    method DeliveryFails(i: nat, investors: seq<string>, written: seq<string>)
      requires Enabled(Abs(), Action.DeliveryFails(i, investors, written))
      modifies this, store
      ensures Abs() == Next(cfg, old(Abs()), Action.DeliveryFails(i, investors, written))
    {
      var job := running[i];
      store.InsertIgnoringDuplicates(job, written);
      running := RemoveAt(running, i);
      finishing := finishing + 1;
      if job.attempts < cfg.maxAttempts {
        scheduledRetries := scheduledRetries + 1;
        retryTimers := retryTimers + [job];
        return;
      }
      pending := pending - {job.eventId};
      outcomes := outcomes[job.ticket := DeadLettered(job.attempts)];
    }

    method RetryFires(i: nat)
      requires i < |retryTimers|
      modifies this
      ensures Abs() == Next(cfg, old(Abs()), Action.RetryFires(i))
    {
      scheduledRetries := scheduledRetries - 1;
      queue := queue + [retryTimers[i]];
      retryTimers := RemoveAt(retryTimers, i);
      Pump();
      NotifyIfIdle();
    }

    /** The `finally` of a run. */
    method RunSettles()
      requires finishing > 0 && active > 0
      modifies this
      ensures Abs() == Next(cfg, old(Abs()), Action.RunSettles)
    {
      active := active - 1;
      finishing := finishing - 1;
      Pump();
      NotifyIfIdle();
    }
  }
}
