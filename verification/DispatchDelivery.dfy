/**
  What the notification store holds over whole runs: never two rows for one
  (event, user), and one row for every recipient of every delivered event,
  whatever failures, partial writes, retries and re-enqueues came between.
 */
module DispatchDelivery {
  import opened Wrappers
  import opened LifecycleEvents
  import opened DispatchModel
  import opened DispatchSafety

  ghost predicate UniqueKeys(rows: seq<Notification>) {
    forall i, j :: 0 <= i < j < |rows| ==> rows[i].dedupeKey != rows[j].dedupeKey
  }

  ghost predicate IsFor(row: Notification, eventId: string, userId: string) {
    row.userId == userId && row.dedupeKey == DedupeKey(eventId, userId)
  }

  ghost predicate HasRow(rows: seq<Notification>, eventId: string, userId: string) {
    exists row <- rows :: IsFor(row, eventId, userId)
  }

  /** Some row with the key of (eventId, userId) belongs to someone else. */
  ghost predicate KeyTaken(rows: seq<Notification>, eventId: string, userId: string) {
    exists row <- rows :: row.dedupeKey == DedupeKey(eventId, userId) && row.userId != userId
  }

  // ---- one insert

  lemma SameEventKeysDiffer(eventId: string, u: string, v: string)
    ensures DedupeKey(eventId, u) == DedupeKey(eventId, v) ==> u == v
  {
    assert DedupeKey(eventId, u)[|eventId| + 1..] == u;
    assert DedupeKey(eventId, v)[|eventId| + 1..] == v;
  }

  lemma {:induction false} InsertAppends(rows: seq<Notification>, job: Job, users: seq<string>)
    requires UniqueKeys(rows)
    ensures var all := Insert(rows, job, users);
            && UniqueKeys(all) && rows <= all
            && (forall row <- all :: row in rows || exists u <- users :: row == Entry(job, u))
    decreases |users|
  {
    if users != [] {
      var one := InsertOne(rows, Entry(job, users[0]));
      InsertAppends(one, job, users[1..]);
      var all := Insert(rows, job, users);
      forall row <- all ensures row in rows || exists u <- users :: row == Entry(job, u) {
        if row !in rows {
          if row in one {
            assert users[0] in users && row == Entry(job, users[0]);
          } else {
            var u :| u in users[1..] && row == Entry(job, u);
            assert u in users;
          }
        }
      }
    }
  }

  /**
    After a delivery's insert, a recipient has the event's row exactly when the
    store did not already hold its key for somebody else.
   */
  lemma {:induction false} InsertReaches(rows: seq<Notification>, job: Job, users: seq<string>, u: string)
    requires UniqueKeys(rows) && u in users
    ensures HasRow(Insert(rows, job, users), job.eventId, u) <==> !KeyTaken(rows, job.eventId, u)
    decreases |users|
  {
    var v := users[0];
    var one := InsertOne(rows, Entry(job, v));
    InsertAppends(rows, job, [v]);
    assert Insert(rows, job, [v]) == one by {
      assert [v][1..] == [];
    }
    SameEventKeysDiffer(job.eventId, u, v);
    assert KeyTaken(one, job.eventId, u) <==> KeyTaken(rows, job.eventId, u) by {
      assert forall row <- one :: row in rows || row == Entry(job, v);
      assert forall row <- rows :: row in one;
    }
    InsertAppends(one, job, users[1..]);
    var all := Insert(one, job, users[1..]);
    if u in users[1..] {
      InsertReaches(one, job, users[1..], u);
    } else if KeyTaken(rows, job.eventId, u) {
      var row :| row in rows && row.dedupeKey == DedupeKey(job.eventId, u) && row.userId != u;
      assert row in all;
    } else {
      assert u == v;
      assert Entry(job, v) == one[|one| - 1] || HasKey(one, Entry(job, v).dedupeKey);
      var i :| 0 <= i < |one| && one[i].dedupeKey == DedupeKey(job.eventId, u);
      assert one[i] in one && one[i] in all && IsFor(one[i], job.eventId, u);
    }
  }

  ghost predicate KeyedRows(rows: seq<Notification>) {
    forall row <- rows :: ColonFree(row.userId) && exists e :: row.dedupeKey == DedupeKey(e, row.userId)
  }

  lemma ColonFreeKeysAreFree(rows: seq<Notification>, eventId: string, userId: string)
    requires KeyedRows(rows) && ColonFree(userId)
    ensures !KeyTaken(rows, eventId, userId)
  {
    forall row <- rows | row.dedupeKey == DedupeKey(eventId, userId) ensures row.userId == userId {
      var e :| row.dedupeKey == DedupeKey(e, row.userId);
      DedupeKeysAreInjective(e, row.userId, eventId, userId);
    }
  }

  /**
    With colons in user ids a recipient can be left without a row: once the event
    `e` has been written to user "w:u", event "e:w" never reaches user "u".
   */
  lemma ColonsHideRecipients(event: Event, e: string, w: string, u: string)
    ensures var rows := [Entry(Job(e, event, 1, 0), Joined(w, u))];
            var job := Job(Joined(e, w), event, 1, 1);
            UniqueKeys(rows) && !HasRow(Insert(rows, job, [u]), job.eventId, u)
  {
    var rows := [Entry(Job(e, event, 1, 0), Joined(w, u))];
    var job := Job(Joined(e, w), event, 1, 1);
    SharedDedupeKeys(e, Joined(w, u), Joined(e, w), u);
    assert |Joined(w, u)| > |u|;
    assert rows[0] in rows && rows[0].userId != u;
    assert KeyTaken(rows, job.eventId, u);
    InsertReaches(rows, job, [u], u);
  }

  // ---- whole runs

  /** No user id in the action holds a colon. */
  ghost predicate Clean(a: Action) {
    match a
    case Enqueue(event) => ColonFree(event.invoice.sellerId)
    case DeliverySucceeds(_, investors) => forall u <- investors :: ColonFree(u)
    case DeliveryFails(_, investors, _) => forall u <- investors :: ColonFree(u)
    case _ => true
  }

  /** Every delivered event has a row for each recipient of the delivery, the seller among them. */
  ghost predicate Reached(s: State) {
    forall t <- s.outcomes :: t < |s.accepted| && (s.outcomes[t].Delivered? ==>
      && s.accepted[t].invoice.sellerId in s.outcomes[t].recipients
      && forall u <- s.outcomes[t].recipients :: HasRow(s.rows, EventIdFor(s.accepted[t]), u))
  }

  ghost predicate SellersClean(s: State) {
    forall event <- s.accepted :: ColonFree(event.invoice.sellerId)
  }

  /** Every row was written for an accepted event, and is a notification of its kind. */
  ghost predicate RowsGenuine(s: State) {
    forall row <- s.rows :: exists event <- s.accepted :: WrittenFor(row, event)
  }

  ghost predicate WrittenFor(row: Notification, event: Event) {
    IsFor(row, EventIdFor(event), row.userId) && row.kind == event.kind
  }

  ghost predicate Stored(s: State) {
    UniqueKeys(s.rows) && KeyedRows(s.rows) && SellersClean(s) && RowsGenuine(s) && Reached(s)
  }

  lemma KeptRows(rows: seq<Notification>, all: seq<Notification>, eventId: string, u: string)
    requires rows <= all && HasRow(rows, eventId, u)
    ensures HasRow(all, eventId, u)
  {
    var row :| row in rows && IsFor(row, eventId, u);
    assert row in all;
  }

  lemma InsertKeepsStored(cfg: Config, s: State, i: nat, users: seq<string>)
    requires Live(cfg, s) && Stored(s) && i < |s.running|
    requires forall u <- users :: ColonFree(u)
    ensures Stored(s.(rows := Insert(s.rows, s.running[i], users)))
    ensures forall u <- users :: HasRow(Insert(s.rows, s.running[i], users), s.running[i].eventId, u)
  {
    var job := s.running[i];
    assert job in s.running && JobSound(s, job);
    var all := Insert(s.rows, job, users);
    InsertAppends(s.rows, job, users);
    forall row <- all
      ensures ColonFree(row.userId) && exists e :: row.dedupeKey == DedupeKey(e, row.userId)
      ensures exists event <- s.accepted :: WrittenFor(row, event)
    {
      if row !in s.rows {
        var u :| u in users && row == Entry(job, u);
        assert job.event in s.accepted && WrittenFor(row, job.event);
      }
    }
    forall u <- users ensures HasRow(all, job.eventId, u) {
      ColonFreeKeysAreFree(s.rows, job.eventId, u);
      InsertReaches(s.rows, job, users, u);
    }
    forall t <- s.outcomes | s.outcomes[t].Delivered?
      ensures forall u <- s.outcomes[t].recipients :: HasRow(all, EventIdFor(s.accepted[t]), u)
    {
      forall u <- s.outcomes[t].recipients ensures HasRow(all, EventIdFor(s.accepted[t]), u) {
        KeptRows(s.rows, all, EventIdFor(s.accepted[t]), u);
      }
    }
  }

  lemma SucceedKeepsStored(cfg: Config, s: State, i: nat, investors: seq<string>)
    requires Live(cfg, s) && Stored(s) && i < |s.running|
    requires forall u <- investors :: ColonFree(u)
    ensures Stored(Succeed(s, i, investors))
  {
    var job := s.running[i];
    assert job in s.running && JobSound(s, job) && job.event in s.accepted;
    var users := Recipients(job.event, investors);
    InsertKeepsStored(cfg, s, i, users);
    var m := s.(rows := Insert(s.rows, job, users));
    var t := Succeed(s, i, investors);
    assert t.rows == m.rows && t.accepted == m.accepted;
    assert Reached(m);
    assert job.event.invoice.sellerId in users;
  }

  /**
    After a delivery that succeeds, a user has the event's row exactly if they had it
    before, are the seller, or are an investor and the kind goes to investors.
   */
  lemma DeliveryReachesEveryone(cfg: Config, s: State, i: nat, investors: seq<string>, u: string)
    requires Live(cfg, s) && Stored(s) && i < |s.running|
    requires forall v <- investors :: ColonFree(v)
    ensures var event := s.running[i].event;
            HasRow(Succeed(s, i, investors).rows, s.running[i].eventId, u) <==>
              || HasRow(s.rows, s.running[i].eventId, u)
              || u == event.invoice.sellerId
              || (event.kind in {Funded, Settled, DeadlineExtended, Matured} && u in investors)
  {
    var job := s.running[i];
    assert job in s.running && JobSound(s, job) && job.event in s.accepted;
    var users := Recipients(job.event, investors);
    RecipientsExactly(job.event, investors, u);
    InsertKeepsStored(cfg, s, i, users);
    InsertAppends(s.rows, job, users);
    hide Insert, Stored, Recipients;
    var all := Insert(s.rows, job, users);
    if HasRow(all, job.eventId, u) && !HasRow(s.rows, job.eventId, u) {
      var row :| row in all && IsFor(row, job.eventId, u);
      assert row !in s.rows;
    }
    if HasRow(s.rows, job.eventId, u) {
      KeptRows(s.rows, all, job.eventId, u);
    }
  }

  lemma FailKeepsStored(cfg: Config, s: State, a: Action)
    requires cfg.Valid() && Live(cfg, s) && Stored(s) && Enabled(s, a) && a.DeliveryFails? && Clean(a)
    ensures Stored(Next(cfg, s, a))
  {
    var job := s.running[a.index];
    assert job in s.running && JobSound(s, job) && job.event in s.accepted;
    InsertKeepsStored(cfg, s, a.index, a.written);
    var m := s.(rows := Insert(s.rows, job, a.written));
    var t := Next(cfg, s, a);
    assert t.rows == m.rows && t.accepted == m.accepted;
    assert Reached(m);
  }

  lemma AcceptKeepsStored(s: State, event: Event)
    requires Stored(s) && ColonFree(event.invoice.sellerId)
    ensures Stored(Accept(s, event))
  {
    var t := Accept(s, event);
    assert forall e <- s.accepted :: e in t.accepted;
    assert forall e <- t.accepted :: e == event || e in s.accepted;
  }

  lemma NextKeepsStored(cfg: Config, s: State, a: Action)
    requires cfg.Valid() && Live(cfg, s) && Stored(s) && Enabled(s, a) && Clean(a)
    ensures Stored(Next(cfg, s, a))
  {
    match a
    case Enqueue(event) => AcceptKeepsStored(s, event);
    case DeliverySucceeds(i, investors) => SucceedKeepsStored(cfg, s, i, investors);
    case DeliveryFails(_, _, _) => FailKeepsStored(cfg, s, a);
    case _ =>
      var t := Next(cfg, s, a);
      assert t.rows == s.rows && t.accepted == s.accepted && t.outcomes == s.outcomes;
  }

  lemma {:induction false} RunKeepsStored(cfg: Config, s: State, run: seq<Action>)
    requires cfg.Valid() && Inv(cfg, s) && Stored(s) && CanRun(cfg, s, run)
    requires forall a <- run :: Clean(a)
    ensures Stored(After(cfg, s, run))
    decreases |run|
  {
    if run != [] {
      assert run[0] in run;
      NextKeeps(cfg, s, run[0]);
      NextKeepsStored(cfg, s, run[0]);
      RunKeepsStored(cfg, Next(cfg, s, run[0]), run[1..]);
    }
  }

  /**
    Over every run: at most one row per (event, user); every row belongs to an
    accepted event; and a delivered event has a row for each of its recipients.
   */
  lemma NotificationsAreExactlyOnce(cfg: Config, run: seq<Action>)
    requires cfg.Valid() && CanRun(cfg, Init, run)
    requires forall a <- run :: Clean(a)
    ensures var s := After(cfg, Init, run);
            && RowsGenuine(s) && Reached(s)
            && (forall i, j, e, u ::
                  0 <= i < |s.rows| && 0 <= j < |s.rows| && IsFor(s.rows[i], e, u) && IsFor(s.rows[j], e, u)
                  ==> i == j)
  {
    ReachableStatesAreSound(cfg, []);
    RunKeepsStored(cfg, Init, run);
  }

  // ---- without any assumption on user ids

  /** For every recipient of every delivered event the store holds the key, whoever owns its row. */
  ghost predicate Held(s: State) {
    forall t <- s.outcomes :: s.outcomes[t].Delivered? ==>
      t < |s.accepted| && HoldsAll(s.rows, EventIdFor(s.accepted[t]), s.outcomes[t].recipients)
  }

  ghost predicate HoldsAll(rows: seq<Notification>, eventId: string, users: seq<string>) {
    forall u <- users :: HasKey(rows, DedupeKey(eventId, u))
  }

  lemma InsertHoldsAll(rows: seq<Notification>, job: Job, users: seq<string>)
    requires UniqueKeys(rows)
    ensures HoldsAll(Insert(rows, job, users), job.eventId, users)
  {
    var all := Insert(rows, job, users);
    InsertAppends(rows, job, users);
    forall u <- users ensures HasKey(all, DedupeKey(job.eventId, u)) {
      InsertReaches(rows, job, users, u);
      var row :| row in all && row.dedupeKey == DedupeKey(job.eventId, u);
      var i :| 0 <= i < |all| && all[i] == row;
    }
  }

  lemma LaterHoldsAll(rows: seq<Notification>, all: seq<Notification>, eventId: string, users: seq<string>)
    requires rows <= all && HoldsAll(rows, eventId, users)
    ensures HoldsAll(all, eventId, users)
  {
    forall u <- users ensures HasKey(all, DedupeKey(eventId, u)) {
      var i :| 0 <= i < |rows| && rows[i].dedupeKey == DedupeKey(eventId, u);
      assert all[i] == rows[i];
    }
  }

  /** A step that decides no run touches neither rows nor outcomes. */
  lemma OtherStepsKeepRows(cfg: Config, s: State, a: Action)
    requires Enabled(s, a) && !a.DeliverySucceeds? && !a.DeliveryFails?
    ensures var next := Next(cfg, s, a);
            next.rows == s.rows && next.outcomes == s.outcomes && s.accepted <= next.accepted
  {}

  lemma DecisionWrites(cfg: Config, s: State, a: Action)
    requires Enabled(s, a) && (a.DeliverySucceeds? || a.DeliveryFails?)
    ensures var next, job := Next(cfg, s, a), s.running[a.index];
            var users := if a.DeliverySucceeds? then Recipients(job.event, a.investors) else a.written;
            && next.rows == Insert(s.rows, job, users) && next.accepted == s.accepted
            && (forall t <- next.outcomes :: next.outcomes[t].Delivered? ==>
                  (t in s.outcomes && next.outcomes[t] == s.outcomes[t]) || (t == job.ticket && next.outcomes[t].recipients == users))
  {
    hide Insert, Recipients, RemoveAt;
  }

  lemma NextKeepsHeld(cfg: Config, s: State, a: Action)
    requires cfg.Valid() && JobsSound(cfg, s) && UniqueKeys(s.rows) && Held(s) && Enabled(s, a)
    ensures UniqueKeys(Next(cfg, s, a).rows) && Held(Next(cfg, s, a))
  {
    var next := Next(cfg, s, a);
    if a.DeliverySucceeds? || a.DeliveryFails? {
      var job := s.running[a.index];
      var users := if a.DeliverySucceeds? then Recipients(job.event, a.investors) else a.written;
      assert job in s.running && JobSound(s, job);
      DecisionWrites(cfg, s, a);
      InsertAppends(s.rows, job, users);
      InsertHoldsAll(s.rows, job, users);
      hide Next, JobsSound, Insert, HoldsAll, EventIdFor, UniqueKeys, Recipients;
      forall t <- s.outcomes | s.outcomes[t].Delivered?
        ensures HoldsAll(next.rows, EventIdFor(s.accepted[t]), s.outcomes[t].recipients)
      {
        LaterHoldsAll(s.rows, next.rows, EventIdFor(s.accepted[t]), s.outcomes[t].recipients);
      }
    } else {
      OtherStepsKeepRows(cfg, s, a);
      hide Next, JobsSound, EventIdFor, UniqueKeys, HoldsAll;
      forall t <- s.outcomes | s.outcomes[t].Delivered? ensures next.accepted[t] == s.accepted[t] {}
    }
  }

  lemma {:induction false} RunKeepsHeld(cfg: Config, s: State, run: seq<Action>)
    requires cfg.Valid() && Inv(cfg, s) && UniqueKeys(s.rows) && Held(s) && CanRun(cfg, s, run)
    ensures UniqueKeys(After(cfg, s, run).rows) && Held(After(cfg, s, run))
    decreases |run|
  {
    hide UniqueKeys, Held;
    if run != [] {
      NextKeeps(cfg, s, run[0]);
      assert Live(cfg, s);
      NextKeepsHeld(cfg, s, run[0]);
      RunKeepsHeld(cfg, Next(cfg, s, run[0]), run[1..]);
    }
  }

  /**
    Over every run and for any user ids: a recipient of a delivered event has the
    event's row exactly when its key does not belong to another user.
   */
  lemma DeliveredExactly(cfg: Config, run: seq<Action>)
    requires cfg.Valid() && CanRun(cfg, Init, run)
    ensures var s := After(cfg, Init, run);
            forall t <- s.outcomes :: s.outcomes[t].Delivered? ==>
              t < |s.accepted| && forall u <- s.outcomes[t].recipients ::
                HasRow(s.rows, EventIdFor(s.accepted[t]), u) <==> !KeyTaken(s.rows, EventIdFor(s.accepted[t]), u)
  {
    hide EventIdFor;
    ReachableStatesAreSound(cfg, []);
    RunKeepsHeld(cfg, Init, run);
    var s := After(cfg, Init, run);
    forall t <- s.outcomes | s.outcomes[t].Delivered?
      ensures forall u <- s.outcomes[t].recipients ::
        HasRow(s.rows, EventIdFor(s.accepted[t]), u) <==> !KeyTaken(s.rows, EventIdFor(s.accepted[t]), u)
    {
      forall u <- s.outcomes[t].recipients
        ensures HasRow(s.rows, EventIdFor(s.accepted[t]), u) <==> !KeyTaken(s.rows, EventIdFor(s.accepted[t]), u)
      {
        assert HasKey(s.rows, DedupeKey(EventIdFor(s.accepted[t]), u));
        HolderDecides(s.rows, EventIdFor(s.accepted[t]), u);
      }
    }
  }

  lemma HolderDecides(rows: seq<Notification>, eventId: string, u: string)
    requires UniqueKeys(rows) && HasKey(rows, DedupeKey(eventId, u))
    ensures HasRow(rows, eventId, u) <==> !KeyTaken(rows, eventId, u)
  {
    hide DedupeKey;
    var i :| 0 <= i < |rows| && rows[i].dedupeKey == DedupeKey(eventId, u);
    forall j | 0 <= j < |rows| && rows[j].dedupeKey == DedupeKey(eventId, u) ensures j == i {
    }
    assert rows[i] in rows;
  }

  /** Even with colons in user ids no event and user ever get a second row, and rows are never lost. */
  lemma {:induction false} RowsAreUniqueAndKept(cfg: Config, s: State, run: seq<Action>)
    requires UniqueKeys(s.rows) && CanRun(cfg, s, run)
    ensures UniqueKeys(After(cfg, s, run).rows) && s.rows <= After(cfg, s, run).rows
    decreases |run|
  {
    if run != [] {
      var a := run[0];
      match a {
        case DeliverySucceeds(i, investors) =>
          InsertAppends(s.rows, s.running[i], Recipients(s.running[i].event, investors));
        case DeliveryFails(i, _, written) => InsertAppends(s.rows, s.running[i], written);
        case _ =>
      }
      RowsAreUniqueAndKept(cfg, Next(cfg, s, a), run[1..]);
    }
  }
}
