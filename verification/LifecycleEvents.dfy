/**
  Lifecycle events, the ids that identify them, and the dedupe key of a
  notification.  A deadline is represented by the text `toISOString` gives.
 */
module LifecycleEvents {
  import opened Wrappers

  datatype Kind = Funded | Settled | Rejected | Approved | DeadlineExtended | Matured
  datatype Subject = Subject(id: string, sellerId: string)
  datatype Event = Event(
    kind: Kind, invoice: Subject, newDeadline: Option<string>, eventId: Option<string>)

  function KindName(kind: Kind): string {
    match kind
    case Funded => "funded"
    case Settled => "settled"
    case Rejected => "rejected"
    case Approved => "approved"
    case DeadlineExtended => "deadline_extended"
    case Matured => "matured"
  }

  /** An explicit id wins unless it is the empty string, which is falsy. */
  predicate HasExplicitId(event: Event) {
    event.eventId.Some? && event.eventId.value != ""
  }

  function EventIdFor(event: Event): string {
    if HasExplicitId(event) then event.eventId.value
    else
      var base := "invoice:" + event.invoice.id + ":" + KindName(event.kind);
      if event.kind.DeadlineExtended? && event.newDeadline.Some?
      then base + ":" + event.newDeadline.value
      else base
  }

  /** Every template's audience includes the seller; two kinds go to the seller only. */
  predicate ToInvestors(kind: Kind) {
    !kind.Rejected? && !kind.Approved?
  }

  function DedupeKey(eventId: string, userId: string): string {
    eventId + ":" + userId
  }

  /** The ids the notification table stores: an explicit one, or one made of invoice, kind and new deadline. */
  lemma EventIdText(event: Event)
    ensures event.eventId.Some? && event.eventId.value != "" ==> EventIdFor(event) == event.eventId.value
    ensures event.eventId.None? || event.eventId.value == "" ==>
              EventIdFor(event) ==
                (match event.kind
                 case Funded => "invoice:" + event.invoice.id + ":" + "funded"
                 case Settled => "invoice:" + event.invoice.id + ":" + "settled"
                 case Rejected => "invoice:" + event.invoice.id + ":" + "rejected"
                 case Approved => "invoice:" + event.invoice.id + ":" + "approved"
                 case Matured => "invoice:" + event.invoice.id + ":" + "matured"
                 case DeadlineExtended =>
                   var base := "invoice:" + event.invoice.id + ":" + "deadline_extended";
                   if event.newDeadline.Some? then base + ":" + event.newDeadline.value else base)
  {}

  predicate ColonFree(s: string) {
    ':' !in s
  }

  lemma FirstColonSplits(a: string, x: string, b: string, y: string)
    requires ColonFree(a) && ColonFree(b)
    requires a + ":" + x == b + ":" + y
    ensures a == b && x == y
  {
    var s, t := a + ":" + x, b + ":" + y;
    assert s[|a|] == ':' && t[|b|] == ':';
    assert forall i :: 0 <= i < |a| ==> s[i] == a[i];
    assert forall i :: 0 <= i < |b| ==> t[i] == b[i];
    assert |a| == |b|;
    assert a == s[..|a|] && b == t[..|b|];
    assert x == s[|a| + 1..] && y == t[|b| + 1..];
  }

  lemma KindNamesAreDistinct(k1: Kind, k2: Kind)
    ensures ColonFree(KindName(k1))
    ensures KindName(k1) == KindName(k2) ==> k1 == k2
  {
    var n1, n2 := KindName(k1), KindName(k2);
    if n1 == n2 {
      assert |n1| == |n2| && n1[0] == n2[0] && n1[1] == n2[1];
    }
  }

  /** Default ids tell apart invoices, kinds and, for extensions, deadlines. */
  lemma DefaultIdsAreInjective(e1: Event, e2: Event)
    requires !HasExplicitId(e1) && !HasExplicitId(e2)
    requires ColonFree(e1.invoice.id) && ColonFree(e2.invoice.id)
    requires EventIdFor(e1) == EventIdFor(e2)
    ensures e1.invoice.id == e2.invoice.id && e1.kind == e2.kind
    ensures e1.kind.DeadlineExtended? ==> e1.newDeadline == e2.newDeadline
  {
    var r1, r2 := IdTail(e1), IdTail(e2);
    IdShape(e1);
    IdShape(e2);
    var i1, i2 := e1.invoice.id + ":" + r1, e2.invoice.id + ":" + r2;
    assert i1 == ("invoice:" + i1)[8..] && i2 == ("invoice:" + i2)[8..];
    FirstColonSplits(e1.invoice.id, r1, e2.invoice.id, r2);
    KindNamesAreDistinct(e1.kind, e2.kind);
    KindNamesAreDistinct(e2.kind, e1.kind);
    if Dated(e1) && Dated(e2) {
      FirstColonSplits(KindName(e1.kind), e1.newDeadline.value, KindName(e2.kind), e2.newDeadline.value);
    } else {
      assert Dated(e1) ==> ':' in r1;
      assert Dated(e2) ==> ':' in r2;
    }
  }

  predicate Dated(event: Event) {
    event.kind.DeadlineExtended? && event.newDeadline.Some?
  }

  /** What follows the invoice id in a default event id. */
  function IdTail(event: Event): string {
    if Dated(event) then KindName(event.kind) + ":" + event.newDeadline.value else KindName(event.kind)
  }

  lemma IdShape(event: Event)
    requires !HasExplicitId(event)
    ensures EventIdFor(event) == "invoice:" + (event.invoice.id + ":" + IdTail(event))
  {
    var id, kind := event.invoice.id, KindName(event.kind);
    assert "invoice:" + id + ":" + kind == "invoice:" + (id + ":" + kind);
    if Dated(event) {
      assert "invoice:" + id + ":" + kind + ":" + event.newDeadline.value
          == "invoice:" + (id + ":" + (kind + ":" + event.newDeadline.value));
    }
  }

  /**
    Exactly when two (event, user) pairs share a dedupe key: they are the same
    pair, or one user id continues the other across a colon.
   */
  lemma SharedDedupeKeys(e1: string, u1: string, e2: string, u2: string)
    ensures DedupeKey(e1, u1) == DedupeKey(e2, u2) <==>
              || (e1 == e2 && u1 == u2)
              || (exists w {:trigger Joined(w, u2)} :: u1 == Joined(w, u2) && e2 == Joined(e1, w))
              || (exists w {:trigger Joined(w, u1)} :: u2 == Joined(w, u1) && e1 == Joined(e2, w))
  {
    if DedupeKey(e1, u1) == DedupeKey(e2, u2) {
      if |u1| < |u2| {
        LongerUserAbsorbs(e2, u2, e1, u1);
      } else if |u2| < |u1| {
        LongerUserAbsorbs(e1, u1, e2, u2);
      } else {
        assert u1 == DedupeKey(e1, u1)[|e1| + 1..] && u2 == DedupeKey(e2, u2)[|e2| + 1..];
        assert e1 == DedupeKey(e1, u1)[..|e1|] && e2 == DedupeKey(e2, u2)[..|e2|];
      }
    }
    forall w | u1 == Joined(w, u2) && e2 == Joined(e1, w)
      ensures DedupeKey(e1, u1) == DedupeKey(e2, u2)
    {
      assert e1 + ":" + (w + ":" + u2) == (e1 + ":" + w) + ":" + u2;
    }
    forall w | u2 == Joined(w, u1) && e1 == Joined(e2, w)
      ensures DedupeKey(e1, u1) == DedupeKey(e2, u2)
    {
      assert e2 + ":" + (w + ":" + u1) == (e2 + ":" + w) + ":" + u1;
    }
  }

  function Joined(a: string, b: string): string {
    a + ":" + b
  }

  lemma LongerUserAbsorbs(e1: string, u1: string, e2: string, u2: string)
    requires DedupeKey(e1, u1) == DedupeKey(e2, u2) && |u2| < |u1|
    ensures exists w :: u1 == Joined(w, u2) && e2 == Joined(e1, w)
  {
    var key := DedupeKey(e1, u1);
    var w := u1[..|u1| - |u2| - 1];
    assert u1 == key[|e1| + 1..] && u2 == key[|e2| + 1..];
    assert key[|e2|] == ':' && key[|e1|] == ':';
    assert u1 == Joined(w, u2);
    assert e2 == key[..|e2|] == Joined(e1, w);
  }

  lemma DedupeKeysAreInjective(e1: string, u1: string, e2: string, u2: string)
    requires ColonFree(u1) && ColonFree(u2)
    requires DedupeKey(e1, u1) == DedupeKey(e2, u2)
    ensures e1 == e2 && u1 == u2
  {
    SharedDedupeKeys(e1, u1, e2, u2);
    forall w ensures u1 != Joined(w, u2) && u2 != Joined(w, u1) {
      assert Joined(w, u2)[|w|] == ':' && Joined(w, u1)[|w|] == ':';
    }
  }
}
