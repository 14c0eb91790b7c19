/**
  The whole notification path as one system: invoices that move through their
  lifecycle, dispatches of the committed transitions, other lifecycle events, and
  the dispatcher's own steps, all interleaved.
 */
module LifecycleSystem {
  import opened Wrappers
  import opened Shared
  import opened LifecycleNotifications
  import L = InvoiceLifecycle
  import E = LifecycleEvents
  import M = DispatchModel
  import Safety = DispatchSafety
  import Progress = DispatchProgress
  import Delivery = DispatchDelivery

  /** A committed transition, named by its invoice and its position in that invoice's history. */
  datatype Stamp = Stamp(invoiceId: string, index: nat)

  /**
    `commits` lists the transitions in the order of their commits; their numbers are
    the transition objects.  `dispatched` is the state machine's WeakSet of them, and
    `told` holds those whose enqueueing effect did not throw.
   */
  datatype State = State(
    records: map<string, L.Record>,
    commits: seq<Stamp>,
    dispatched: set<nat>,
    told: set<nat>,
    dispatcher: M.State)

  datatype Happening =
    | Works(id: string, step: L.Step)
    | Dispatches(serial: nat, throws: bool)
    | Announces(event: E.Event)
    | Calls(action: M.Action)

  /** Lifecycle events that no transition stands for; they may repeat. */
  predicate Other(event: E.Event) {
    && (event.kind.DeadlineExtended? || event.kind.Matured?)
    && !E.HasExplicitId(event) && E.ColonFree(event.invoice.id) && E.ColonFree(event.invoice.sellerId)
  }

  ghost predicate Enabled(s: State, h: Happening) {
    match h
    case Works(id, _) => id in s.records
    case Dispatches(serial, _) => serial < |s.commits|
    case Announces(event) => Other(event)
    case Calls(a) => !a.Enqueue? && M.Enabled(s.dispatcher, a) && Delivery.Clean(a)
  }

  predicate InRange(records: map<string, L.Record>, stamp: Stamp) {
    stamp.invoiceId in records && stamp.index < |records[stamp.invoiceId].log|
  }

  function EventAt(records: map<string, L.Record>, stamp: Stamp): Option<E.Event> {
    if InRange(records, stamp) then EventOf(records[stamp.invoiceId].log[stamp.index]) else None
  }

  function Work(s: State, id: string, step: L.Step): State
    requires id in s.records
  {
    var record := s.records[id];
    var next := L.Apply(record, step);
    s.(records := s.records[id := next],
       commits := if |next.log| > |record.log| then s.commits + [Stamp(id, |record.log|)] else s.commits)
  }

  /** The effects run once per transition object. */
  function Dispatch(s: State, serial: nat, throws: bool): State
    requires serial < |s.commits|
  {
    if serial in s.dispatched then s
    else if throws then s.(dispatched := s.dispatched + {serial})
    else
      var event := EventAt(s.records, s.commits[serial]);
      s.(dispatched := s.dispatched + {serial},
         told := s.told + {serial},
         dispatcher := if event.Some? then M.Accept(s.dispatcher, event.value) else s.dispatcher)
  }

  function Next(cfg: M.Config, s: State, h: Happening): State
    requires Enabled(s, h)
  {
    match h
    case Works(id, step) => Work(s, id, step)
    case Dispatches(serial, throws) => Dispatch(s, serial, throws)
    case Announces(event) => s.(dispatcher := M.Accept(s.dispatcher, event))
    case Calls(a) => s.(dispatcher := M.Next(cfg, s.dispatcher, a))
  }

  // ---- the invariant

  ghost predicate RecordsSound(records: map<string, L.Record>) {
    forall id <- records ::
      && records[id].invoice.id == id && L.PathSound(records[id])
      && E.ColonFree(id) && E.ColonFree(records[id].invoice.sellerId)
  }

  ghost predicate CommitsSound(s: State) {
    && NoRepeats(s.commits)
    && (forall stamp <- s.commits :: InRange(s.records, stamp))
    && s.told <= s.dispatched
    && (forall n <- s.dispatched :: n < |s.commits|)
  }

  /** The dispatcher was fed what was told and what was announced, and nothing told is missing or doubled. */
  ghost predicate Fed(s: State)
    requires forall n <- s.told :: n < |s.commits|
  {
    && (forall n <- s.told :: var event := EventAt(s.records, s.commits[n]);
          event.Some? ==> event.value in s.dispatcher.accepted)
    && (forall e <- s.dispatcher.accepted ::
          Other(e) || exists n <- s.told :: EventAt(s.records, s.commits[n]) == Some(e))
    && (forall i, j :: 0 <= i < j < |s.dispatcher.accepted| && s.dispatcher.accepted[i] == s.dispatcher.accepted[j]
          ==> Other(s.dispatcher.accepted[i]))
  }

  ghost predicate Sound(cfg: M.Config, s: State) {
    && RecordsSound(s.records) && CommitsSound(s) && Fed(s)
    && Safety.Inv(cfg, s.dispatcher) && Delivery.Stored(s.dispatcher)
  }

  lemma ApplyKeepsRecord(record: L.Record, step: L.Step)
    requires L.PathSound(record)
    ensures var next := L.Apply(record, step);
            && L.PathSound(next) && record.log <= next.log
            && next.invoice.id == record.invoice.id && next.invoice.sellerId == record.invoice.sellerId
  {
    L.StepKeepsPath(record, step);
    hide L.AssertTransition, L.PathSound;
  }

  lemma WorkKeepsEvents(s: State, id: string, step: L.Step, stamp: Stamp)
    requires RecordsSound(s.records) && id in s.records && InRange(s.records, stamp)
    ensures InRange(Work(s, id, step).records, stamp)
    ensures EventAt(Work(s, id, step).records, stamp) == EventAt(s.records, stamp)
  {
    hide L.Apply, L.PathSound, EventOf;
    ApplyKeepsRecord(s.records[id], step);
  }

  lemma WorkKeepsRecords(s: State, id: string, step: L.Step)
    requires RecordsSound(s.records) && id in s.records
    ensures RecordsSound(Work(s, id, step).records)
  {
    hide L.Apply, L.PathSound;
    ApplyKeepsRecord(s.records[id], step);
  }

  lemma WorkKeepsCommits(s: State, id: string, step: L.Step)
    requires RecordsSound(s.records) && CommitsSound(s) && id in s.records
    ensures CommitsSound(Work(s, id, step)) && s.commits <= Work(s, id, step).commits
  {
    hide L.Apply, L.PathSound, EventAt;
    var t := Work(s, id, step);
    ApplyKeepsRecord(s.records[id], step);
    forall stamp <- s.commits ensures InRange(t.records, stamp) {
      WorkKeepsEvents(s, id, step, stamp);
    }
    var added := Stamp(id, |s.records[id].log|);
    assert !InRange(s.records, added) && added !in s.commits;
    if t.commits != s.commits {
      assert t.commits == s.commits + [added] && InRange(t.records, added);
    }
  }

  lemma WorkKeeps(cfg: M.Config, s: State, id: string, step: L.Step)
    requires Sound(cfg, s) && id in s.records
    ensures Sound(cfg, Work(s, id, step))
  {
    WorkKeepsRecords(s, id, step);
    WorkKeepsCommits(s, id, step);
    var t := Work(s, id, step);
    forall n <- s.told ensures EventAt(t.records, t.commits[n]) == EventAt(s.records, s.commits[n]) {
      assert s.commits[n] in s.commits;
      WorkKeepsEvents(s, id, step, s.commits[n]);
    }
    hide L.Apply, RecordsSound, EventAt, InRange, Other, Safety.Inv, Delivery.Stored;
  }

  lemma OtherIdsDiffer(records: map<string, L.Record>, stamp: Stamp, event: E.Event)
    requires RecordsSound(records) && EventAt(records, stamp).Some? && Other(event)
    ensures E.EventIdFor(EventAt(records, stamp).value) != E.EventIdFor(event)
  {
    hide L.AssertTransition;
    var e := EventAt(records, stamp).value;
    if E.EventIdFor(e) == E.EventIdFor(event) {
      E.DefaultIdsAreInjective(e, event);
    }
  }

  lemma StampIdsDiffer(records: map<string, L.Record>, a: Stamp, b: Stamp)
    requires RecordsSound(records) && EventAt(records, a).Some? && EventAt(records, b).Some? && a != b
    ensures E.EventIdFor(EventAt(records, a).value) != E.EventIdFor(EventAt(records, b).value)
  {
    EventIdsAreDistinct(records[a.invoiceId], a.index, records[b.invoiceId], b.index);
  }

  /** The event of a transition not told before has an id unlike that of every event accepted so far. */
  lemma FreshEvent(cfg: M.Config, s: State, serial: nat)
    requires Sound(cfg, s) && serial < |s.commits| && serial !in s.dispatched
    requires EventAt(s.records, s.commits[serial]).Some?
    ensures var event := EventAt(s.records, s.commits[serial]).value;
            && E.EventIdFor(event) !in s.dispatcher.pending
            && event !in s.dispatcher.accepted && !Other(event)
  {
    hide RecordsSound, EventAt, E.EventIdFor, Safety.Inv, Other;
    var event := EventAt(s.records, s.commits[serial]).value;
    forall e <- s.dispatcher.accepted ensures E.EventIdFor(e) != E.EventIdFor(event) {
      if Other(e) {
        OtherIdsDiffer(s.records, s.commits[serial], e);
      } else {
        var n :| n in s.told && EventAt(s.records, s.commits[n]) == Some(e);
        StampIdsDiffer(s.records, s.commits[n], s.commits[serial]);
      }
    }
    if Other(event) {
      OtherIdsDiffer(s.records, s.commits[serial], event);
    }
    if E.EventIdFor(event) in s.dispatcher.pending {
      PendingWasAccepted(cfg, s.dispatcher, E.EventIdFor(event));
    }
  }

  lemma SellerIsClean(records: map<string, L.Record>, stamp: Stamp)
    requires RecordsSound(records) && EventAt(records, stamp).Some?
    ensures E.ColonFree(EventAt(records, stamp).value.invoice.sellerId)
  {
    hide L.AssertTransition;
  }

  lemma DispatchKeeps(cfg: M.Config, s: State, serial: nat, throws: bool)
    requires cfg.Valid() && Sound(cfg, s) && serial < |s.commits|
    ensures Sound(cfg, Dispatch(s, serial, throws))
  {
    hide RecordsSound, EventAt, E.EventIdFor, Safety.Inv, Delivery.Stored, Other;
    var event := EventAt(s.records, s.commits[serial]);
    if serial !in s.dispatched && !throws && event.Some? {
      FreshEvent(cfg, s, serial);
      SellerIsClean(s.records, s.commits[serial]);
      AcceptKeepsDispatcher(cfg, s.dispatcher, event.value);
      var t := Dispatch(s, serial, throws);
      assert t.dispatcher.accepted == s.dispatcher.accepted + [event.value];
      assert forall e <- s.dispatcher.accepted :: e in t.dispatcher.accepted;
      assert serial in t.told;
    }
  }

  lemma AcceptKeepsDispatcher(cfg: M.Config, d: M.State, event: E.Event)
    requires cfg.Valid() && Safety.Inv(cfg, d) && Delivery.Stored(d) && E.ColonFree(event.invoice.sellerId)
    ensures Safety.Inv(cfg, M.Accept(d, event)) && Delivery.Stored(M.Accept(d, event))
  {
    Safety.NextKeeps(cfg, d, M.Enqueue(event));
    Delivery.NextKeepsStored(cfg, d, M.Enqueue(event));
  }

  lemma AnnounceKeeps(cfg: M.Config, s: State, event: E.Event)
    requires cfg.Valid() && Sound(cfg, s) && Other(event)
    ensures Sound(cfg, s.(dispatcher := M.Accept(s.dispatcher, event)))
  {
    hide RecordsSound, EventAt, E.EventIdFor, Safety.Inv, Delivery.Stored;
    AcceptKeepsDispatcher(cfg, s.dispatcher, event);
    var t := M.Accept(s.dispatcher, event);
    assert forall e <- s.dispatcher.accepted :: e in t.accepted;
    assert forall e <- t.accepted :: e in s.dispatcher.accepted || e == event;
  }

  lemma CallKeepsDispatcher(cfg: M.Config, d: M.State, a: M.Action)
    requires cfg.Valid() && Safety.Inv(cfg, d) && Delivery.Stored(d)
    requires !a.Enqueue? && M.Enabled(d, a) && Delivery.Clean(a)
    ensures var next := M.Next(cfg, d, a);
            Safety.Inv(cfg, next) && Delivery.Stored(next) && next.accepted == d.accepted
  {
    hide Safety.Placed, Safety.Accounted, Delivery.Stored;
    Safety.NextKeeps(cfg, d, a);
    Delivery.NextKeepsStored(cfg, d, a);
    OnlyEnqueueAccepts(cfg, d, a);
  }

  lemma CallKeeps(cfg: M.Config, s: State, a: M.Action)
    requires cfg.Valid() && Sound(cfg, s) && !a.Enqueue? && M.Enabled(s.dispatcher, a) && Delivery.Clean(a)
    ensures Sound(cfg, s.(dispatcher := M.Next(cfg, s.dispatcher, a)))
  {
    hide M.Next, RecordsSound, EventAt, Safety.Inv, Delivery.Stored, Other;
    CallKeepsDispatcher(cfg, s.dispatcher, a);
  }

  lemma NextKeeps(cfg: M.Config, s: State, h: Happening)
    requires cfg.Valid() && Sound(cfg, s) && Enabled(s, h)
    ensures Sound(cfg, Next(cfg, s, h))
  {
    hide Sound, Work, Dispatch;
    match h
    case Works(id, step) => WorkKeeps(cfg, s, id, step);
    case Dispatches(serial, throws) => DispatchKeeps(cfg, s, serial, throws);
    case Announces(event) => AnnounceKeeps(cfg, s, event);
    case Calls(a) => CallKeeps(cfg, s, a);
  }

  /** After an announcement its id is pending; it is accepted exactly if it was not pending already. */
  lemma AnnouncedIsPending(cfg: M.Config, s: State, event: E.Event)
    requires Enabled(s, Announces(event))
    ensures var d, next := s.dispatcher, Next(cfg, s, Announces(event)).dispatcher;
            && E.EventIdFor(event) in next.pending
            && next.accepted == (if E.EventIdFor(event) in d.pending then d.accepted else d.accepted + [event])
  {
    hide E.EventIdFor;
  }

  // ---- whole runs

  ghost predicate CanRun(cfg: M.Config, s: State, run: seq<Happening>)
    decreases |run|
  {
    run == [] || (Enabled(s, run[0]) && CanRun(cfg, Next(cfg, s, run[0]), run[1..]))
  }

  ghost function After(cfg: M.Config, s: State, run: seq<Happening>): State
    requires CanRun(cfg, s, run)
    decreases |run|
  {
    if run == [] then s else After(cfg, Next(cfg, s, run[0]), run[1..])
  }

  // ---- what was committed and told, in terms of the run

  ghost predicate IsDispatch(h: Happening, serial: nat) {
    h.Dispatches? && h.serial == serial
  }

  /** The first dispatch of the transition did not fail to enqueue. */
  ghost predicate ToldBy(run: seq<Happening>, serial: nat) {
    exists i :: 0 <= i < |run| && run[i] == Dispatches(serial, false) && !DispatchedBy(run[..i], serial)
  }

  ghost predicate DispatchedBy(run: seq<Happening>, serial: nat) {
    exists i :: 0 <= i < |run| && IsDispatch(run[i], serial)
  }

  lemma DispatchedByCons(h: Happening, rest: seq<Happening>, serial: nat)
    ensures DispatchedBy([h] + rest, serial) <==> IsDispatch(h, serial) || DispatchedBy(rest, serial)
  {
    var run := [h] + rest;
    if IsDispatch(h, serial) {
      assert run[0] == h;
    }
    if i :| 0 <= i < |rest| && IsDispatch(rest[i], serial) {
      assert run[i + 1] == rest[i];
    }
  }

  lemma ToldByCons(h: Happening, rest: seq<Happening>, serial: nat)
    ensures ToldBy([h] + rest, serial) <==>
              h == Dispatches(serial, false) || (!IsDispatch(h, serial) && ToldBy(rest, serial))
  {
    var run := [h] + rest;
    if h == Dispatches(serial, false) {
      assert run[0] == h && !DispatchedBy(run[..0], serial);
    }
    if !IsDispatch(h, serial) {
      forall i | 0 <= i < |rest| ensures DispatchedBy(run[..i + 1], serial) <==> DispatchedBy(rest[..i], serial) {
        assert run[..i + 1] == [h] + rest[..i];
        DispatchedByCons(h, rest[..i], serial);
      }
      if i :| 0 <= i < |rest| && rest[i] == Dispatches(serial, false) && !DispatchedBy(rest[..i], serial) {
        assert run[i + 1] == rest[i] && DispatchedBy(run[..i + 1], serial) <==> DispatchedBy(rest[..i], serial);
      }
    }
    if i :| 0 <= i < |run| && run[i] == Dispatches(serial, false) && !DispatchedBy(run[..i], serial) {
      if i > 0 {
        assert run[..i][0] == h;
        assert rest[i - 1] == run[i] && run[..i] == [h] + rest[..i - 1];
        DispatchedByCons(h, rest[..i - 1], serial);
      }
    }
  }

  /** Told are exactly the transitions whose first dispatch did not fail to enqueue. */
  lemma {:induction false} ToldExactly(cfg: M.Config, s: State, run: seq<Happening>, serial: nat)
    requires CanRun(cfg, s, run)
    ensures serial in After(cfg, s, run).told <==>
              serial in s.told || (serial !in s.dispatched && ToldBy(run, serial))
    decreases |run|
  {
    hide ToldBy;
    if run == [] {
      NothingTold(serial);
    } else {
      assert run == [run[0]] + run[1..];
      ToldByCons(run[0], run[1..], serial);
      ToldExactly(cfg, Next(cfg, s, run[0]), run[1..], serial);
    }
  }

  lemma NothingTold(serial: nat)
    ensures !ToldBy([], serial)
  {}

  lemma StepsCommitOnce(record: L.Record, step: L.Step)
    ensures |record.log| <= |L.Apply(record, step).log| <= |record.log| + 1
  {
    hide L.AssertTransition;
  }

  /** The commits of a run are exactly what it adds to the histories. */
  lemma {:induction false} CommitsExactly(cfg: M.Config, s: State, run: seq<Happening>, stamp: Stamp)
    requires CanRun(cfg, s, run) && stamp.invoiceId in s.records
    ensures var t := After(cfg, s, run);
            && stamp.invoiceId in t.records
            && |s.records[stamp.invoiceId].log| <= |t.records[stamp.invoiceId].log|
            && (stamp in t.commits <==>
                  stamp in s.commits
                  || |s.records[stamp.invoiceId].log| <= stamp.index < |t.records[stamp.invoiceId].log|)
    decreases |run|
  {
    hide L.Apply;
    if run != [] {
      var h := run[0];
      if h.Works? {
        StepsCommitOnce(s.records[h.id], h.step);
      }
      CommitsExactly(cfg, Next(cfg, s, h), run[1..], stamp);
    }
  }

  /** Nothing is dispatched yet; the invoices may have a history. */
  function Start(records: map<string, L.Record>): State {
    State(records, [], {}, {}, M.Init)
  }

  lemma {:induction false} RunKeeps(cfg: M.Config, s: State, run: seq<Happening>)
    requires cfg.Valid() && Sound(cfg, s) && CanRun(cfg, s, run)
    ensures Sound(cfg, After(cfg, s, run))
    decreases |run|
  {
    hide Sound, Next, Enabled;
    if run != [] {
      NextKeeps(cfg, s, run[0]);
      RunKeeps(cfg, Next(cfg, s, run[0]), run[1..]);
    }
  }

  lemma StartIsSound(cfg: M.Config, records: map<string, L.Record>)
    requires cfg.Valid() && RecordsSound(records)
    ensures Sound(cfg, Start(records))
  {
    hide RecordsSound;
    Safety.ReachableStatesAreSound(cfg, []);
  }

  /** The seller has a notification of the event's kind under the event's key. */
  ghost predicate TellsSeller(rows: seq<M.Notification>, event: E.Event) {
    exists row <- rows :: Delivery.IsFor(row, E.EventIdFor(event), event.invoice.sellerId) && row.kind == event.kind
  }

  /** The event was dead-lettered after all its attempts, or its seller has its notification. */
  ghost predicate Concluded(cfg: M.Config, d: M.State, ticket: nat, event: E.Event) {
    ticket in d.outcomes &&
    match d.outcomes[ticket]
    case DeadLettered(attempts) => attempts == cfg.maxAttempts
    case Delivered(_) => TellsSeller(d.rows, event)
  }

  /** The only event accepted under a told transition's id is that transition's. */
  lemma IdIsTheTransitions(cfg: M.Config, s: State, n: nat, other: E.Event)
    requires Sound(cfg, s) && n in s.told && EventAt(s.records, s.commits[n]).Some? && other in s.dispatcher.accepted
    requires E.EventIdFor(other) == E.EventIdFor(EventAt(s.records, s.commits[n]).value)
    ensures other == EventAt(s.records, s.commits[n]).value
  {
    hide RecordsSound, EventAt, E.EventIdFor, Safety.Inv, Delivery.Stored, Other;
    if Other(other) {
      OtherIdsDiffer(s.records, s.commits[n], other);
    } else {
      var k :| k in s.told && EventAt(s.records, s.commits[k]) == Some(other);
      if s.commits[k] != s.commits[n] {
        StampIdsDiffer(s.records, s.commits[k], s.commits[n]);
      }
    }
  }

  lemma SameKeySameId(e1: string, e2: string, u: string)
    requires E.DedupeKey(e1, u) == E.DedupeKey(e2, u)
    ensures e1 == e2
  {
    var key := E.DedupeKey(e1, u);
    assert |e1| == |e2| && e1 == key[..|e1|] && e2 == key[..|e2|];
  }

  lemma RowTellsSeller(cfg: M.Config, s: State, n: nat)
    requires Sound(cfg, s) && n in s.told && EventAt(s.records, s.commits[n]).Some?
    requires var event := EventAt(s.records, s.commits[n]).value;
             Delivery.HasRow(s.dispatcher.rows, E.EventIdFor(event), event.invoice.sellerId)
    ensures TellsSeller(s.dispatcher.rows, EventAt(s.records, s.commits[n]).value)
  {
    hide RecordsSound, EventAt, E.EventIdFor, E.DedupeKey, Safety.Inv, Other, Delivery.KeyedRows, Delivery.Reached;
    var event := EventAt(s.records, s.commits[n]).value;
    var row :| row in s.dispatcher.rows && Delivery.IsFor(row, E.EventIdFor(event), event.invoice.sellerId);
    assert Delivery.RowsGenuine(s.dispatcher);
    var other :| other in s.dispatcher.accepted && Delivery.WrittenFor(row, other);
    SameKeySameId(E.EventIdFor(other), E.EventIdFor(event), row.userId);
    IdIsTheTransitions(cfg, s, n, other);
  }

  lemma QuietMeansConcluded(cfg: M.Config, s: State, n: nat, ticket: nat)
    requires cfg.Valid() && Sound(cfg, s) && Progress.Quiescent(s.dispatcher)
    requires n in s.told && EventAt(s.records, s.commits[n]).Some?
    requires HasTicket(s.dispatcher, ticket, EventAt(s.records, s.commits[n]).value)
    ensures Concluded(cfg, s.dispatcher, ticket, EventAt(s.records, s.commits[n]).value)
  {
    var d, event := s.dispatcher, EventAt(s.records, s.commits[n]).value;
    Progress.QuiescentMeansDone(cfg, d);
    assert ticket in d.outcomes && Safety.RunsBounded(cfg, d) && Delivery.Reached(d);
    hide Sound, Safety.Inv, Progress.Quiescent, EventAt, E.EventIdFor, TellsSeller;
    if d.outcomes[ticket].Delivered? {
      RowTellsSeller(cfg, s, n);
    }
  }

  /** The dispatcher accepted the event once; and if it is quiet, the event is concluded. */
  ghost predicate Heard(cfg: M.Config, d: M.State, event: E.Event) {
    exists ticket: nat ::
      && HasTicket(d, ticket, event)
      && (forall other: nat :: HasTicket(d, other, event) ==> other == ticket)
      && (Progress.Quiescent(d) ==> Concluded(cfg, d, ticket, event))
  }

  ghost predicate HasTicket(d: M.State, ticket: nat, event: E.Event) {
    ticket < |d.accepted| && d.accepted[ticket] == event
  }

  lemma ToldIsHeard(cfg: M.Config, s: State, n: nat)
    requires cfg.Valid() && Sound(cfg, s) && n in s.told && EventAt(s.records, s.commits[n]).Some?
    ensures Heard(cfg, s.dispatcher, EventAt(s.records, s.commits[n]).value)
  {
    hide RecordsSound, Safety.Inv, Delivery.Stored, Progress.Quiescent, Concluded;
    var d, event := s.dispatcher, EventAt(s.records, s.commits[n]).value;
    assert event in d.accepted;
    var ticket: nat :| ticket < |d.accepted| && d.accepted[ticket] == event;
    assert HasTicket(d, ticket, event);
    TransitionIsNotOther(s.records, s.commits[n]);
    if Progress.Quiescent(d) {
      QuietMeansConcluded(cfg, s, n, ticket);
    }
  }

  lemma TransitionIsNotOther(records: map<string, L.Record>, stamp: Stamp)
    requires EventAt(records, stamp).Some?
    ensures !Other(EventAt(records, stamp).value)
  {}

  function TransitionAt(records: map<string, L.Record>, stamp: Stamp): L.Transition
    requires InRange(records, stamp)
  {
    records[stamp.invoiceId].log[stamp.index]
  }

  /** The event tells the news of a transition that was told. */
  ghost predicate IsToldNews(s: State, n: nat, event: E.Event) {
    && n in s.told && n < |s.commits| && InRange(s.records, s.commits[n])
    && IsNews(TransitionAt(s.records, s.commits[n]), event.kind)
    && event == News(TransitionAt(s.records, s.commits[n]), event.kind)
  }

  lemma EventAtIsNews(s: State, n: nat, event: E.Event)
    requires n in s.told && n < |s.commits| && InRange(s.records, s.commits[n])
    ensures EventAt(s.records, s.commits[n]) == Some(event) <==> IsToldNews(s, n, event)
  {
    EventsExactly(TransitionAt(s.records, s.commits[n]), event.kind);
  }

  /**
    Main result: whatever the invoices do, however often and in whatever order their
    transitions are dispatched, and whatever else is announced in between, the
    dispatcher accepts the news of every transition it is told of, exactly once, and
    no other news; once it is quiet, that event has been dead-lettered after
    maxAttempts runs or the seller has its notification.
   */
  lemma DedupeNeverHidesATransition(cfg: M.Config, records: map<string, L.Record>, run: seq<Happening>)
    requires cfg.Valid() && RecordsSound(records) && CanRun(cfg, Start(records), run)
    ensures var s := After(cfg, Start(records), run);
            && (forall n: nat, event :: IsToldNews(s, n, event) ==> Heard(cfg, s.dispatcher, event))
            && (forall event <- s.dispatcher.accepted :: Other(event) || exists n: nat :: IsToldNews(s, n, event))
            && (forall n: nat :: n in s.told <==> ToldBy(run, n))
  {
    hide RecordsSound, CanRun, After, EventAt, ToldBy, Other, Heard;
    StartIsSound(cfg, records);
    RunKeeps(cfg, Start(records), run);
    var s := After(cfg, Start(records), run);
    forall n: nat ensures n in s.told <==> ToldBy(run, n) {
      ToldExactly(cfg, Start(records), run, n);
    }
    forall n: nat, event | IsToldNews(s, n, event) ensures Heard(cfg, s.dispatcher, event) {
      EventAtIsNews(s, n, event);
      ToldIsHeard(cfg, s, n);
    }
    forall event <- s.dispatcher.accepted | !Other(event) ensures exists n: nat :: IsToldNews(s, n, event) {
      AcceptedIsNews(cfg, s, event);
    }
  }

  lemma AcceptedIsNews(cfg: M.Config, s: State, event: E.Event)
    requires Sound(cfg, s) && event in s.dispatcher.accepted && !Other(event)
    ensures exists n: nat :: IsToldNews(s, n, event)
  {
    hide RecordsSound, EventAt, Other, Safety.Inv, Delivery.Stored, IsToldNews;
    var n :| n in s.told && EventAt(s.records, s.commits[n]) == Some(event);
    assert s.commits[n] in s.commits;
    EventAtIsNews(s, n, event);
  }

  // ---- everything told can be concluded

  function AsCalls(run: seq<M.Action>): seq<Happening> {
    seq(|run|, i requires 0 <= i < |run| => Calls(run[i]))
  }

  lemma {:induction false} CallsRunTheDispatcher(cfg: M.Config, s: State, run: seq<M.Action>)
    requires M.CanRun(cfg, s.dispatcher, run) && forall a <- run :: !M.IsInput(a) && Progress.Bare(a)
    ensures CanRun(cfg, s, AsCalls(run))
    ensures After(cfg, s, AsCalls(run)) == s.(dispatcher := M.After(cfg, s.dispatcher, run))
    decreases |run|
  {
    if run == [] {
      assert AsCalls(run) == [];
    } else {
      assert run[0] in run;
      assert AsCalls(run)[0] == Calls(run[0]) && AsCalls(run)[1..] == AsCalls(run[1..]);
      var next := M.Next(cfg, s.dispatcher, run[0]);
      hide M.Next;
      CallsRunTheDispatcher(cfg, s.(dispatcher := next), run[1..]);
    }
  }

  /**
    From every reachable state, callbacks of the event loop alone can conclude every
    transition told so far, and no more of them than the measure of remaining work.
   */
  lemma EverythingToldCanBeConcluded(cfg: M.Config, records: map<string, L.Record>, run: seq<Happening>)
      returns (rest: seq<Happening>)
    requires cfg.Valid() && RecordsSound(records) && CanRun(cfg, Start(records), run)
    ensures var s := After(cfg, Start(records), run);
            && |rest| <= Progress.Measure(cfg, s.dispatcher)
            && (forall h <- rest :: h.Calls? && !M.IsInput(h.action))
            && CanRun(cfg, s, rest)
            && var t := After(cfg, s, rest);
               forall n: nat, event :: IsToldNews(s, n, event) ==>
                 exists ticket: nat :: HasTicket(t.dispatcher, ticket, event) && Concluded(cfg, t.dispatcher, ticket, event)
  {
    hide RecordsSound, After, CanRun, EventAt, IsNews, News, Concluded, Progress.Quiescent, Progress.Measure, Sound;
    StartIsSound(cfg, records);
    RunKeeps(cfg, Start(records), run);
    var s := After(cfg, Start(records), run);
    rest := CallsFinish(cfg, s);
    var t := After(cfg, s, rest);
    forall n: nat, event | IsToldNews(s, n, event)
      ensures exists ticket: nat :: HasTicket(t.dispatcher, ticket, event) && Concluded(cfg, t.dispatcher, ticket, event)
    {
      EventAtIsNews(t, n, event);
      ToldIsHeard(cfg, t, n);
    }
  }

  lemma CallsFinish(cfg: M.Config, s: State) returns (rest: seq<Happening>)
    requires cfg.Valid() && Sound(cfg, s)
    ensures |rest| <= Progress.Measure(cfg, s.dispatcher) && forall h <- rest :: h.Calls? && !M.IsInput(h.action)
    ensures CanRun(cfg, s, rest)
    ensures var t := After(cfg, s, rest);
            Sound(cfg, t) && Progress.Quiescent(t.dispatcher) && t == s.(dispatcher := t.dispatcher)
  {
    var actions := Progress.CanAlwaysFinish(cfg, s.dispatcher);
    hide Progress.Quiescent, Progress.Measure, Sound;
    CallsRunTheDispatcher(cfg, s, actions);
    rest := AsCalls(actions);
    RunKeeps(cfg, s, rest);
  }
}
