/**
  The state machine as the object the source writes.  `Transition` changes the
  invoice in memory before it saves it; the database changes only when the
  surrounding transaction commits, and effects run at most once per transition.
 */
module InvoiceStateMachine {
  import opened Wrappers
  import opened InvoiceLifecycle
  import opened LifecycleNotifications

  /** An invoice loaded from the database. */
  class InvoiceEntity {
    const id: string
    const sellerId: string
    const amount: real
    const netAmount: real
    const dueDate: Option<int>
    const ipfsHash: string
    var status: Status
    var rejectionReason: Option<string>

    constructor Load(invoice: Invoice)
      ensures Snapshot() == invoice
    {
      id, sellerId, amount, netAmount := invoice.id, invoice.sellerId, invoice.amount, invoice.netAmount;
      dueDate, ipfsHash, status, rejectionReason :=
        invoice.dueDate, invoice.ipfsHash, invoice.status, invoice.rejectionReason;
    }

    function Snapshot(): Invoice
      reads this
    {
      Invoice(id, sellerId, status, amount, netAmount, dueDate, ipfsHash, rejectionReason)
    }
  }

  class TransitionStore {
    var records: map<string, Record>
  }

  /** `serial` is the identity of the transition object, the key of the WeakSet. */
  datatype Handle = Handle(serial: nat, transition: InvoiceLifecycle.Transition)

  datatype Failure = Refused(refusal: Refusal) | StoreFailed

  class StateMachine {
    const effects: seq<Effect>
    var dispatched: set<nat>
    var issued: nat
    var notices: seq<Notice>

    constructor (effects: seq<Effect>)
      ensures this.effects == effects && dispatched == {} && issued == 0 && notices == []
    {
      this.effects := effects;
      dispatched, issued, notices := {}, 0, [];
    }

    /**
      One transition of a freshly loaded invoice, inside one database transaction.
      A refusal changes nothing; a failing store leaves the database as it was but
      the invoice in memory already has the new status.
     */
    method Transition(store: TransitionStore, invoice: InvoiceEntity, req: Request, storeFails: bool)
        returns (result: Result<Handle, Failure>)
      requires invoice.id in store.records && store.records[invoice.id].invoice == invoice.Snapshot()
      modifies invoice, store, this`issued
      ensures result.Ok? <==> AssertTransition(old(invoice.Snapshot()), req).None? && !storeFails
      ensures result.Ok? ==>
                && result.value == Handle(old(issued), InvoiceLifecycle.Transition.Transition(old(invoice.Snapshot()), req))
                && store.records == old(store.records)[invoice.id := Apply(old(store.records[invoice.id]), Attempt(req))]
                && store.records[invoice.id].invoice == invoice.Snapshot()
                && issued == old(issued) + 1
      ensures result.Ok? ==>
                && invoice.status == req.to
                && (req.to == Rejected ==> KeepsReason(invoice.rejectionReason, req.context.reason))
                && (req.to != Rejected ==> invoice.rejectionReason == old(invoice.rejectionReason))
      ensures result.Err? ==> store.records == old(store.records) && issued == old(issued)
      ensures result.Err? && result.error.Refused? ==> invoice.Snapshot() == old(invoice.Snapshot())
      ensures result.Err? && result.error.StoreFailed? ==> invoice.Snapshot() == Moved(old(invoice.Snapshot()), req)
    {
      var before := invoice.Snapshot();
      var refusal := AssertTransition(before, req);
      if refusal.Some? {
        return Err(Refused(refusal.value));
      }
      var reason := CleanReason(req.context.reason);
      CleanReasonExactly(req.context.reason);
      invoice.status := req.to;
      if req.to == Rejected {
        invoice.rejectionReason := reason;
      }
      if storeFails {
        return Err(StoreFailed);
      }
      var record := store.records[invoice.id];
      var transition := InvoiceLifecycle.Transition.Transition(before, req);
      store.records := store.records[invoice.id := Record(invoice.Snapshot(), record.log + [transition])];
      result := Ok(Handle(issued, transition));
      issued := issued + 1;
    }

    /** Runs every effect once per transition object, whatever throws. */
    method Dispatch(handle: Handle, throws: seq<bool>)
      requires |throws| == |effects|
      modifies this`dispatched, this`notices
      ensures dispatched == old(dispatched) + {handle.serial}
      ensures handle.serial in old(dispatched) ==> notices == old(notices)
      ensures handle.serial !in old(dispatched) ==>
                notices == old(notices) + AllNotices(effects, throws, handle.transition)
    {
      if handle.serial in dispatched {
        return;
      }
      dispatched := dispatched + {handle.serial};
      for k := 0 to |effects|
        invariant dispatched == old(dispatched) + {handle.serial}
        invariant notices + AllNotices(effects[k..], throws[k..], handle.transition)
               == old(notices) + AllNotices(effects, throws, handle.transition)
      {
        var emitted := if throws[k] then [] else Notices(effects[k], handle.transition);
        assert effects[k..][1..] == effects[k + 1..] && throws[k..][1..] == throws[k + 1..];
        assert notices + (emitted + AllNotices(effects[k + 1..], throws[k + 1..], handle.transition))
            == (notices + emitted) + AllNotices(effects[k + 1..], throws[k + 1..], handle.transition);
        notices := notices + emitted;
      }
    }
  }
}
