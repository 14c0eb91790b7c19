/**
  From the lifecycle to the dispatcher: which event a committed transition becomes,
  which channel tells the seller, and why event ids do not collide.
 */
module LifecycleNotifications {
  import opened Wrappers
  import L = InvoiceLifecycle
  import E = LifecycleEvents
  import M = DispatchModel
  import Safety = DispatchSafety

  // ---- effects of a transition

  function KindOf(t: L.Transition): Option<E.Kind> {
    match t.To()
    case Funded => Some(E.Funded)
    case Settled => Some(E.Settled)
    case Rejected => Some(E.Rejected)
    case Published => if t.req.trigger == L.AdminApproved then Some(E.Approved) else None
    case _ => None
  }

  function EventOf(t: L.Transition): Option<E.Event> {
    match KindOf(t)
    case Some(kind) => Some(E.Event(kind, E.Subject(t.before.id, t.before.sellerId), None, None))
    case None => None
  }

  /** What an effect does that a user can see. */
  datatype Notice = SellerNotice(userId: string, status: L.Status) | Enqueued(event: E.Event)

  datatype Effect = AuditLog | NotifySeller | UnlessDispatched(effect: Effect) | EnqueueLifecycle

  /** Only a draft has no seller message, and no rule leads there. */
  function Notices(effect: Effect, t: L.Transition): seq<Notice> {
    match effect
    case AuditLog => []
    case NotifySeller => if t.To() == L.Draft then [] else [SellerNotice(t.before.sellerId, t.To())]
    case UnlessDispatched(inner) => if EventOf(t).Some? then [] else Notices(inner, t)
    case EnqueueLifecycle => if EventOf(t).Some? then [Enqueued(EventOf(t).value)] else []
  }

  /** Effects run in order; one that throws is logged and the others still run. */
  function AllNotices(effects: seq<Effect>, throws: seq<bool>, t: L.Transition): seq<Notice>
    requires |effects| == |throws|
  {
    if effects == [] then []
    else (if throws[0] then [] else Notices(effects[0], t)) + AllNotices(effects[1..], throws[1..], t)
  }

  /** The effects as the application wires them: the audit log first, then these two. */
  const WIRED: seq<Effect> := [AuditLog, UnlessDispatched(NotifySeller), EnqueueLifecycle]

  /** What a transition is news of, status by status. */
  predicate IsNews(t: L.Transition, kind: E.Kind) {
    match kind
    case Funded => t.To() == L.Funded
    case Settled => t.To() == L.Settled
    case Rejected => t.To() == L.Rejected
    case Approved => t.To() == L.Published && t.req.trigger == L.AdminApproved
    case DeadlineExtended => false
    case Matured => false
  }

  /** The event with its default id that tells this news of the transition's invoice. */
  function News(t: L.Transition, kind: E.Kind): E.Event {
    E.Event(kind, E.Subject(t.before.id, t.before.sellerId), None, None)
  }

  /** A transition becomes an event exactly if it is news, and then the event of that news. */
  lemma EventsExactly(t: L.Transition, kind: E.Kind)
    ensures EventOf(t) == Some(News(t, kind)) <==> IsNews(t, kind)
    ensures EventOf(t).Some? <==>
              t.To() in {L.Funded, L.Settled, L.Rejected} || (t.To() == L.Published && t.req.trigger == L.AdminApproved)
    ensures EventOf(t).Some? ==> IsNews(t, EventOf(t).value.kind) && EventOf(t).value == News(t, EventOf(t).value.kind)
  {}

  /**
    Every committed transition reaches the seller through exactly one of the two
    wired effects, as the event it is news of or else with its new status, and
    exactly when that effect does not throw.
   */
  lemma SellerIsToldOnce(t: L.Transition, throws: seq<bool>, kind: E.Kind)
    requires t.Allowed() && |throws| == 3
    ensures IsNews(t, kind) ==> AllNotices(WIRED, throws, t) == if throws[2] then [] else [Enqueued(News(t, kind))]
    ensures (forall k :: !IsNews(t, k)) ==>
              AllNotices(WIRED, throws, t) == if throws[1] then [] else [SellerNotice(t.before.sellerId, t.To())]
    ensures t.before.sellerId in M.Recipients(News(t, kind), [])
  {
    hide L.AssertTransition;
    L.AllowedEdge(t);
    EventsExactly(t, kind);
    M.RecipientsExactly(News(t, kind), [], t.before.sellerId);
    var second, third := Notices(UnlessDispatched(NotifySeller), t), Notices(EnqueueLifecycle, t);
    assert second == if EventOf(t).Some? then [] else Notices(NotifySeller, t);
    assert WIRED[1..] == [UnlessDispatched(NotifySeller), EnqueueLifecycle];
    assert WIRED[1..][1..] == [EnqueueLifecycle] && throws[1..][1..] == [throws[2]];
    assert AllNotices([EnqueueLifecycle], [throws[2]], t) == if throws[2] then [] else third;
  }

  // ---- event ids along a lifecycle

  /** Two transitions of one invoice never become events with the same id, nor do those of two invoices. */
  lemma EventIdsAreDistinct(r1: L.Record, i: nat, r2: L.Record, j: nat)
    requires L.PathSound(r1) && L.PathSound(r2) && i < |r1.log| && j < |r2.log|
    requires EventOf(r1.log[i]).Some? && EventOf(r2.log[j]).Some?
    requires E.ColonFree(r1.invoice.id) && E.ColonFree(r2.invoice.id)
    requires r1.invoice.id != r2.invoice.id || (r1 == r2 && i != j)
    ensures E.EventIdFor(EventOf(r1.log[i]).value) != E.EventIdFor(EventOf(r2.log[j]).value)
  {
    hide L.AssertTransition;
    var e1, e2 := EventOf(r1.log[i]).value, EventOf(r2.log[j]).value;
    if E.EventIdFor(e1) == E.EventIdFor(e2) {
      E.DefaultIdsAreInjective(e1, e2);
      assert r1.log[i].To() == r2.log[j].To();
      L.NoStatusTwice(r1);
    }
  }

  // ---- distinct ids are all accepted

  function Enqueues(run: seq<M.Action>): seq<E.Event> {
    if run == [] then []
    else (if run[0].Enqueue? then [run[0].event] else []) + Enqueues(run[1..])
  }

  ghost predicate DistinctIds(events: seq<E.Event>) {
    forall i, j :: 0 <= i < j < |events| ==> E.EventIdFor(events[i]) != E.EventIdFor(events[j])
  }

  lemma {:induction false} PositiveCountHasJob(jobs: seq<M.Job>, id: string) returns (job: M.Job)
    requires Safety.Count(jobs, Safety.IdOf, id) > 0
    ensures job in jobs && job.eventId == id
  {
    if jobs[0].eventId == id {
      job := jobs[0];
    } else {
      job := PositiveCountHasJob(jobs[1..], id);
    }
  }

  lemma PendingWasAccepted(cfg: M.Config, s: M.State, id: string)
    requires Safety.Inv(cfg, s) && id in s.pending
    ensures exists e <- s.accepted :: E.EventIdFor(e) == id
  {
    assert Safety.Places(s, Safety.IdOf, id) == 1;
    var job;
    if Safety.Count(s.queue, Safety.IdOf, id) > 0 {
      job := PositiveCountHasJob(s.queue, id);
    } else if Safety.Count(s.running, Safety.IdOf, id) > 0 {
      job := PositiveCountHasJob(s.running, id);
    } else {
      job := PositiveCountHasJob(s.retryTimers, id);
    }
    assert Safety.JobSound(s, job);
    assert s.accepted[job.ticket] in s.accepted;
  }

  lemma NewIdIsAccepted(cfg: M.Config, s: M.State, event: E.Event, rest: seq<E.Event>)
    requires Safety.Inv(cfg, s) && DistinctIds(s.accepted + ([event] + rest))
    ensures M.Accept(s, event).accepted + rest == s.accepted + ([event] + rest)
  {
    hide Safety.Inv, E.EventIdFor;
    var all := s.accepted + ([event] + rest);
    assert all[|s.accepted|] == event;
    forall e <- s.accepted ensures E.EventIdFor(e) != E.EventIdFor(event) {
      var i :| 0 <= i < |s.accepted| && s.accepted[i] == e;
      assert all[i] == e;
    }
    if E.EventIdFor(event) in s.pending {
      PendingWasAccepted(cfg, s, E.EventIdFor(event));
    }
  }

  lemma {:induction false} DistinctIdsAreAccepted(cfg: M.Config, s: M.State, run: seq<M.Action>)
    requires cfg.Valid() && Safety.Inv(cfg, s) && M.CanRun(cfg, s, run)
    requires DistinctIds(s.accepted + Enqueues(run))
    ensures M.After(cfg, s, run).accepted == s.accepted + Enqueues(run)
    decreases |run|
  {
    hide Safety.Inv, M.Accept, M.Succeed, M.Fail, M.Retry, M.Settle, M.StartNext, DistinctIds;
    if run == [] {
      assert s.accepted + Enqueues(run) == s.accepted;
    } else {
      var a, rest := run[0], Enqueues(run[1..]);
      Safety.NextKeeps(cfg, s, a);
      if a.Enqueue? {
        assert Enqueues(run) == [a.event] + rest;
        NewIdIsAccepted(cfg, s, a.event, rest);
      } else {
        assert Enqueues(run) == [] + rest == rest;
        OnlyEnqueueAccepts(cfg, s, a);
      }
      DistinctIdsAreAccepted(cfg, M.Next(cfg, s, a), run[1..]);
    }
  }

  lemma OnlyEnqueueAccepts(cfg: M.Config, s: M.State, a: M.Action)
    requires M.Enabled(s, a) && !a.Enqueue?
    ensures M.Next(cfg, s, a).accepted == s.accepted
  {}
}
