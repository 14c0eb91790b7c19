/**
  The invoice status machine: the rule table, the checks of a transition, and the
  persisted invoice with its history.  Amounts are decimals, so reals here.
 */
module InvoiceLifecycle {
  import opened Wrappers
  import Text

  datatype Status = Draft | Pending | Published | Funded | Settled | Cancelled | Rejected | Failed
  datatype Role = Seller | Admin | System
  datatype Trigger =
    | SellerSubmitted | SellerPublished | SellerBatchPublished | SellerCancelled | AdminApproved
    | AdminCancelled | FullyFundedTrigger | AdminSettled | OnChainSettled | AdminRejected
    | MaturitySettled | MaturityUnderfunded

  datatype Guard = NoGuard | PublishReady | ReasonRequired | FullyFunded
  datatype GuardCode = PreconditionFailed | NotPublishable
  datatype Rule = Rule(from: Status, to: Status, roles: set<Role>, guard: Guard, code: GuardCode)

  datatype Actor = Actor(role: Role, id: Option<string>, wallet: Option<string>)
  datatype Context = Context(fundedAmount: Option<real>, reason: Option<string>)

  /** `dueDate` is in milliseconds, None when it does not parse; an empty hash means no document. */
  datatype Invoice = Invoice(
    id: string, sellerId: string, status: Status, amount: real, netAmount: real,
    dueDate: Option<int>, ipfsHash: string, rejectionReason: Option<string>)

  const RULE_COUNT := 12

  /** The rule table, in declaration order. */
  function RuleAt(i: nat): Rule
    requires i < RULE_COUNT
  {
    match i
    case 0 => Rule(Draft, Pending, {Seller}, PublishReady, NotPublishable)
    case 1 => Rule(Draft, Published, {Seller}, PublishReady, NotPublishable)
    case 2 => Rule(Pending, Published, {Admin}, PublishReady, NotPublishable)
    case 3 => Rule(Draft, Rejected, {Admin}, ReasonRequired, PreconditionFailed)
    case 4 => Rule(Pending, Rejected, {Admin}, ReasonRequired, PreconditionFailed)
    case 5 => Rule(Published, Funded, {System}, FullyFunded, PreconditionFailed)
    case 6 => Rule(Funded, Settled, {Admin, System}, NoGuard, PreconditionFailed)
    case 7 => Rule(Published, Failed, {System}, NoGuard, PreconditionFailed)
    case 8 => Rule(Draft, Cancelled, {Seller, Admin}, NoGuard, PreconditionFailed)
    case 9 => Rule(Pending, Cancelled, {Seller, Admin}, NoGuard, PreconditionFailed)
    case 10 => Rule(Published, Cancelled, {Admin}, NoGuard, PreconditionFailed)
    case _ => Rule(Funded, Cancelled, {Admin}, NoGuard, PreconditionFailed)
  }

  function Rules(): (rules: seq<Rule>) {
    seq(RULE_COUNT, i requires 0 <= i < RULE_COUNT => RuleAt(i))
  }

  function Targets(rules: seq<Rule>, from: Status): seq<Status> {
    if rules == [] then []
    else (if rules[0].from == from then [rules[0].to] else []) + Targets(rules[1..], from)
  }

  lemma {:induction false} TargetsExact(rules: seq<Rule>, from: Status, to: Status)
    ensures to in Targets(rules, from) <==> exists r <- rules :: r.from == from && r.to == to
  {
    if rules != [] {
      assert rules == [rules[0]] + rules[1..];
      TargetsExact(rules[1..], from, to);
    }
  }

  function AllowedTransitionsFrom(from: Status): seq<Status> {
    Targets(Rules(), from)
  }

  predicate IsTerminal(status: Status) {
    |AllowedTransitionsFrom(status)| == 0
  }

  /** The first rule for the edge. */
  function Find(rules: seq<Rule>, from: Status, to: Status): (found: Option<Rule>)
    ensures found.Some? ==> found.value in rules && found.value.from == from && found.value.to == to
    ensures found.None? ==> forall r <- rules :: r.from != from || r.to != to
  {
    if rules == [] then None
    else if rules[0].from == from && rules[0].to == to then Some(rules[0])
    else
      assert rules == [rules[0]] + rules[1..];
      Find(rules[1..], from, to)
  }

  function FindRule(from: Status, to: Status): (found: Option<Rule>) {
    Find(Rules(), from, to)
  }

  // ---- guards

  const MIN_LEAD_TIME_MS := 24 * 60 * 60 * 1000
  const MIN_FACE_VALUE := 100.0

  predicate DeadlineOk(dueDate: Option<int>, now: int) {
    dueDate.Some? && dueDate.value - now > 0 && dueDate.value - now >= MIN_LEAD_TIME_MS
  }

  /** `validateInvoiceForPublish` reports nothing. */
  predicate Publishable(invoice: Invoice, now: int) {
    invoice.amount >= MIN_FACE_VALUE && DeadlineOk(invoice.dueDate, now) && invoice.ipfsHash != ""
  }

  function CleanReason(reason: Option<string>): Option<string> {
    if reason.Some? && Text.Trim(reason.value) != "" then Some(Text.Trim(reason.value)) else None
  }

  predicate SaysSomething(reason: Option<string>) {
    reason.Some? && !Text.Blank(reason.value)
  }

  /** A kept reason is the given one without the white space around it; a blank one is none. */
  ghost predicate KeepsReason(kept: Option<string>, given: Option<string>) {
    && (kept.Some? <==> SaysSomething(given))
    && (kept.Some? ==> Text.IsTrimOf(kept.value, given.value))
  }

  lemma CleanReasonExactly(reason: Option<string>)
    ensures KeepsReason(CleanReason(reason), reason)
  {
    if reason.Some? {
      Text.TrimExactly(reason.value);
    }
  }

  predicate GuardHolds(guard: Guard, invoice: Invoice, context: Context, now: int) {
    match guard
    case NoGuard => true
    case PublishReady => Publishable(invoice, now)
    case ReasonRequired => CleanReason(context.reason).Some?
    case FullyFunded => context.fundedAmount.Some? && context.fundedAmount.value >= invoice.netAmount
  }

  // ---- one transition

  datatype Refusal =
    | InvalidStatusTransition(allowed: seq<Status>)
    | NotPermitted(roles: set<Role>)
    | GuardFailed(code: GuardCode)

  datatype Request = Request(to: Status, actor: Actor, trigger: Trigger, context: Context, now: int)

  function AssertTransition(invoice: Invoice, req: Request): Option<Refusal> {
    var rule := FindRule(invoice.status, req.to);
    if rule.None? then Some(InvalidStatusTransition(AllowedTransitionsFrom(invoice.status)))
    else
      var ownerMismatch := req.actor.role == Seller && req.actor.id != Some(invoice.sellerId);
      if req.actor.role !in rule.value.roles || ownerMismatch then Some(NotPermitted(rule.value.roles))
      else if !GuardHolds(rule.value.guard, invoice, req.context, req.now) then Some(GuardFailed(rule.value.code))
      else None
  }

  /** A committed change: the invoice as it was checked, and the request. */
  datatype Transition = Transition(before: Invoice, req: Request) {
    predicate Allowed() { AssertTransition(before, req).None? }
    function From(): Status { before.status }
    function To(): Status { req.to }
    function Reason(): Option<string> { CleanReason(req.context.reason) }
  }

  function Moved(invoice: Invoice, req: Request): Invoice {
    invoice.(status := req.to,
             rejectionReason := if req.to == Rejected then CleanReason(req.context.reason)
                                else invoice.rejectionReason)
  }

  datatype HistoryRow = HistoryRow(
    from: Status, to: Status, role: Role, actorId: Option<string>, trigger: Trigger, reason: Option<string>)

  function HistoryRowOf(t: Transition): HistoryRow {
    var actor := t.req.actor;
    HistoryRow(t.From(), t.To(), actor.role, if actor.id.Some? then actor.id else actor.wallet, t.req.trigger, t.Reason())
  }

  /** What the database holds for one invoice: the row, and the commits its history rows came from. */
  datatype Record = Record(invoice: Invoice, log: seq<Transition>)

  function History(record: Record): seq<HistoryRow> {
    seq(|record.log|, i requires 0 <= i < |record.log| => HistoryRowOf(record.log[i]))
  }

  function Commit(record: Record, req: Request): Record {
    Record(Moved(record.invoice, req), record.log + [Transition(record.invoice, req)])
  }

  /**
    Between transitions the seller may edit an invoice, but not its id, owner or status.
   */
  datatype Step = Edit(amount: real, netAmount: real, dueDate: Option<int>, ipfsHash: string) | Attempt(req: Request)

  function Apply(record: Record, step: Step): Record {
    match step
    case Edit(amount, netAmount, dueDate, ipfsHash) =>
      record.(invoice := record.invoice.(amount := amount, netAmount := netAmount, dueDate := dueDate, ipfsHash := ipfsHash))
    case Attempt(req) =>
      if AssertTransition(record.invoice, req).None? then Commit(record, req) else record
  }

  function ApplyAll(record: Record, steps: seq<Step>): Record
    decreases |steps|
  {
    if steps == [] then record else ApplyAll(Apply(record, steps[0]), steps[1..])
  }

  // ---- the graph

  /** The lifecycle as the documentation draws it. */
  predicate Documented(from: Status, to: Status) {
    match to
    case Draft => false
    case Pending => from == Draft
    case Published => from == Draft || from == Pending
    case Funded => from == Published
    case Settled => from == Funded
    case Rejected => from == Draft || from == Pending
    case Failed => from == Published
    case Cancelled => from == Draft || from == Pending || from == Published || from == Funded
  }

  lemma RulesAreDocumented(r: Rule)
    requires r in Rules()
    ensures Documented(r.from, r.to)
  {
    var i :| 0 <= i < RULE_COUNT && r == RuleAt(i);
  }

  lemma DocumentedHasRule(from: Status, to: Status)
    requires Documented(from, to)
    ensures exists r <- Rules() :: r.from == from && r.to == to
  {
    var rs := Rules();
    var i :=
      match to
      case Pending => 0
      case Published => if from == Draft then 1 else 2
      case Rejected => if from == Draft then 3 else 4
      case Funded => 5
      case Settled => 6
      case Failed => 7
      case _ => if from == Draft then 8 else if from == Pending then 9 else if from == Published then 10 else 11;
    assert rs[i] == RuleAt(i) && rs[i] in rs;
  }

  lemma GraphIsAsDocumented(from: Status, to: Status)
    ensures FindRule(from, to).Some? <==> Documented(from, to)
    ensures to in AllowedTransitionsFrom(from) <==> Documented(from, to)
  {
    hide Rules, Targets, Find;
    TargetsExact(Rules(), from, to);
    if Documented(from, to) {
      DocumentedHasRule(from, to);
    }
    if r :| r in Rules() && r.from == from && r.to == to {
      RulesAreDocumented(r);
    }
  }

  lemma TerminalStatuses(from: Status)
    ensures IsTerminal(from) <==> from in {Settled, Cancelled, Rejected, Failed}
  {
    hide AllowedTransitionsFrom, FindRule;
    var tos := AllowedTransitionsFrom(from);
    if from !in {Settled, Cancelled, Rejected, Failed} {
      GraphIsAsDocumented(from, Cancelled);
    } else if |tos| > 0 {
      GraphIsAsDocumented(from, tos[0]);
    }
  }

  /** Longest distance from draft; every edge climbs. */
  function Rank(status: Status): nat {
    match status
    case Draft => 0
    case Pending => 1
    case Published => 2
    case Funded => 3
    case _ => 4
  }

  /** Who may take an edge, edge by edge. */
  predicate Permitted(role: Role, from: Status, to: Status) {
    match to
    case Draft => false
    case Pending => role == Seller
    case Published => role == if from == Draft then Seller else Admin
    case Rejected => role == Admin
    case Funded => role == System
    case Failed => role == System
    case Settled => role != Seller
    case Cancelled => role == Admin || (role == Seller && (from == Draft || from == Pending))
  }

  /** At least 100 XLM, a deadline at least a day ahead, and a document. */
  predicate FitForMarket(invoice: Invoice, now: int) {
    && invoice.amount >= 100.0
    && invoice.dueDate.Some? && invoice.dueDate.value - now >= 86400000
    && invoice.ipfsHash != ""
  }

  /** What an edge to a status demands of the invoice and the request. */
  predicate Precondition(t: Transition) {
    match t.To()
    case Pending => FitForMarket(t.before, t.req.now)
    case Published => FitForMarket(t.before, t.req.now)
    case Rejected => SaysSomething(t.req.context.reason)
    case Funded => t.req.context.fundedAmount.Some? && t.req.context.fundedAmount.value >= t.before.netAmount
    case _ => true
  }

  lemma RuleDemands(r: Rule)
    requires r in Rules()
    ensures forall role :: role in r.roles <==> Permitted(role, r.from, r.to)
    ensures r.guard == match r.to
                       case Pending => PublishReady
                       case Published => PublishReady
                       case Rejected => ReasonRequired
                       case Funded => FullyFunded
                       case _ => NoGuard
    ensures r.code == if r.to == Pending || r.to == Published then NotPublishable else PreconditionFailed
  {
    var i :| 0 <= i < RULE_COUNT && r == RuleAt(i);
  }

  lemma GuardDemands(r: Rule, t: Transition)
    requires r in Rules() && r.to == t.To()
    ensures GuardHolds(r.guard, t.before, t.req.context, t.req.now) <==> Precondition(t)
  {
    RuleDemands(r);
    CleanReasonExactly(t.req.context.reason);
    hide Rules, CleanReason, SaysSomething;
  }

  predicate ByOwner(t: Transition) {
    t.req.actor.role == Seller ==> t.req.actor.id == Some(t.before.sellerId)
  }

  /**
    Which requests are refused, and as what: no such edge first, then the actor, then
    the edge's precondition; everything else is allowed.
   */
  lemma RefusalsExactly(t: Transition)
    ensures match AssertTransition(t.before, t.req)
            case Some(InvalidStatusTransition(allowed)) =>
              !Documented(t.From(), t.To()) && forall s :: s in allowed <==> Documented(t.From(), s)
            case Some(NotPermitted(roles)) =>
              && Documented(t.From(), t.To())
              && !(Permitted(t.req.actor.role, t.From(), t.To()) && ByOwner(t))
              && forall role :: role in roles <==> Permitted(role, t.From(), t.To())
            case Some(GuardFailed(code)) =>
              && Documented(t.From(), t.To()) && Permitted(t.req.actor.role, t.From(), t.To()) && ByOwner(t)
              && !Precondition(t)
              && (code == NotPublishable <==> t.To() == Pending || t.To() == Published)
            case None =>
              && Documented(t.From(), t.To()) && Permitted(t.req.actor.role, t.From(), t.To()) && ByOwner(t)
              && Precondition(t)
  {
    hide Rules, AllowedTransitionsFrom, Find, Documented, Permitted, GuardHolds, Precondition;
    forall s ensures s in AllowedTransitionsFrom(t.From()) <==> Documented(t.From(), s) {
      GraphIsAsDocumented(t.From(), s);
    }
    GraphIsAsDocumented(t.From(), t.To());
    if FindRule(t.From(), t.To()).Some? {
      RuleDemands(FindRule(t.From(), t.To()).value);
      GuardDemands(FindRule(t.From(), t.To()).value, t);
    }
  }

  /** What an allowed transition guarantees. */
  lemma AllowedEdge(t: Transition)
    requires t.Allowed()
    ensures Documented(t.From(), t.To()) && Rank(t.From()) < Rank(t.To())
    ensures Permitted(t.req.actor.role, t.From(), t.To()) && ByOwner(t) && Precondition(t)
  {
    RefusalsExactly(t);
    hide AssertTransition;
  }

  // ---- every run

  function StatusBefore(log: seq<Transition>, i: nat): Status
    requires i <= |log|
  {
    if i == 0 then Draft else log[i - 1].To()
  }

  /** The log is a contiguous path of allowed transitions of this invoice from draft to its status. */
  ghost predicate PathSound(record: Record) {
    && (forall i :: 0 <= i < |record.log| ==>
          && record.log[i].Allowed()
          && record.log[i].before.id == record.invoice.id
          && record.log[i].before.sellerId == record.invoice.sellerId)
    && (forall i {:trigger StatusBefore(record.log, i)} :: 0 <= i < |record.log| ==>
          record.log[i].From() == StatusBefore(record.log, i))
    && record.invoice.status == StatusBefore(record.log, |record.log|)
  }

  lemma StepKeepsPath(record: Record, step: Step)
    requires PathSound(record)
    ensures PathSound(Apply(record, step)) && record.log <= Apply(record, step).log
    ensures Apply(record, step).invoice.id == record.invoice.id
  {
    hide AssertTransition;
    var next := Apply(record, step);
    if step.Attempt? && AssertTransition(record.invoice, step.req).None? {
      assert next.log[|record.log|] == Transition(record.invoice, step.req);
    }
    forall i | 0 <= i < |next.log| ensures next.log[i].From() == StatusBefore(next.log, i) {
      if i < |record.log| {
        assert StatusBefore(record.log, i) == StatusBefore(next.log, i);
      }
    }
  }

  lemma {:induction false} RunsArePaths(record: Record, steps: seq<Step>)
    requires PathSound(record)
    ensures PathSound(ApplyAll(record, steps))
    ensures ApplyAll(record, steps).invoice.id == record.invoice.id
    ensures record.log <= ApplyAll(record, steps).log
    decreases |steps|
  {
    if steps != [] {
      StepKeepsPath(record, steps[0]);
      RunsArePaths(Apply(record, steps[0]), steps[1..]);
    }
  }

  lemma {:induction false} RanksClimb(record: Record, i: nat, j: nat)
    requires PathSound(record) && i < j < |record.log|
    ensures Rank(record.log[j].To()) >= Rank(record.log[i].To()) + (j - i)
    decreases j
  {
    hide AssertTransition;
    AllowedEdge(record.log[j]);
    assert record.log[j].From() == StatusBefore(record.log, j);
    if i < j - 1 {
      RanksClimb(record, i, j - 1);
    }
  }

  /** Main result on the history: no status is visited twice, and there are at most four entries. */
  lemma NoStatusTwice(record: Record)
    requires PathSound(record)
    ensures forall i, j :: 0 <= i < j < |record.log| ==> record.log[i].To() != record.log[j].To()
    ensures forall i :: 0 <= i < |record.log| ==> record.log[i].To() != Draft
    ensures |record.log| <= 4
  {
    hide AssertTransition;
    forall i, j | 0 <= i < j < |record.log| ensures record.log[i].To() != record.log[j].To() {
      RanksClimb(record, i, j);
    }
    forall i | 0 <= i < |record.log| ensures record.log[i].To() != Draft {
      AllowedEdge(record.log[i]);
    }
    if |record.log| > 0 {
      AllowedEdge(record.log[0]);
      assert record.log[0].From() == StatusBefore(record.log, 0);
      if |record.log| > 1 {
        RanksClimb(record, 0, |record.log| - 1);
      }
    }
  }

  lemma RowIsSound(t: Transition)
    requires t.Allowed()
    ensures RowSound(HistoryRowOf(t), t.before.sellerId) && RowTells(HistoryRowOf(t), t)
    ensures HistoryRowOf(t).from == t.From() && HistoryRowOf(t).to == t.To()
  {
    AllowedEdge(t);
    CleanReasonExactly(t.req.context.reason);
    hide AssertTransition, CleanReason, KeepsReason;
  }

  /** The stored history: a contiguous path of documented edges from draft to the stored status. */
  lemma HistoryIsAPath(record: Record)
    requires PathSound(record)
    ensures var rows := History(record);
            && |rows| == |record.log| <= 4
            && (forall i :: 0 <= i < |rows| ==>
                  && Documented(rows[i].from, rows[i].to)
                  && RowSound(rows[i], record.invoice.sellerId) && RowTells(rows[i], record.log[i]))
            && (forall i, j :: 0 <= i && j == i + 1 && j < |rows| ==> rows[j].from == rows[i].to)
            && (if rows == [] then record.invoice.status == Draft
                else rows[0].from == Draft && rows[|rows| - 1].to == record.invoice.status)
  {
    hide AssertTransition, CleanReason, RowTells, HistoryRowOf, RowSound;
    NoStatusTwice(record);
    var rows := History(record);
    forall i | 0 <= i < |rows|
      ensures Documented(rows[i].from, rows[i].to) && RowSound(rows[i], record.invoice.sellerId) && RowTells(rows[i], record.log[i])
      ensures rows[i].from == StatusBefore(record.log, i) && rows[i].to == record.log[i].To()
    {
      AllowedEdge(record.log[i]);
      RowIsSound(record.log[i]);
      assert record.log[i].From() == StatusBefore(record.log, i);
    }
    assert record.invoice.status == StatusBefore(record.log, |record.log|);
  }

  /** A seller's row names the owner, and a rejection carries its reason. */
  predicate RowSound(row: HistoryRow, sellerId: string) {
    && (row.role == Seller ==> row.actorId == Some(sellerId))
    && (row.to == Rejected ==> row.role == Admin && row.reason.Some?)
  }

  /** The row keeps the trigger, the actor by id or else by wallet, and the reason. */
  ghost predicate RowTells(row: HistoryRow, t: Transition) {
    && row.trigger == t.req.trigger && row.role == t.req.actor.role
    && row.actorId == (match t.req.actor.id
                       case Some(id) => Some(id)
                       case None => t.req.actor.wallet)
    && KeepsReason(row.reason, t.req.context.reason)
  }

  /** A rejected invoice carries the reason given with its last transition. */
  ghost predicate RejectionRecorded(record: Record) {
    record.invoice.status == Rejected ==>
      record.log != [] && KeepsReason(record.invoice.rejectionReason, record.log[|record.log| - 1].req.context.reason)
  }

  lemma StepRecordsRejection(record: Record, step: Step)
    requires RejectionRecorded(record)
    ensures RejectionRecorded(Apply(record, step))
  {
    if step.Attempt? {
      CleanReasonExactly(step.req.context.reason);
    }
    hide AssertTransition, CleanReason, KeepsReason;
  }

  lemma {:induction false} RejectionsAreRecorded(record: Record, steps: seq<Step>)
    requires PathSound(record) && RejectionRecorded(record)
    ensures RejectionRecorded(ApplyAll(record, steps))
    decreases |steps|
  {
    if steps != [] {
      hide AssertTransition, PathSound, RejectionRecorded, Apply;
      StepKeepsPath(record, steps[0]);
      StepRecordsRejection(record, steps[0]);
      RejectionsAreRecorded(Apply(record, steps[0]), steps[1..]);
    }
  }

  lemma Predecessor(record: Record, k: nat, from: Status)
    requires PathSound(record) && k < |record.log| && record.log[k].From() == from != Draft
    ensures k > 0 && record.log[k - 1].To() == from
  {
    hide AssertTransition;
    assert record.log[k].From() == StatusBefore(record.log, k);
  }

  predicate ValidatedPublish(t: Transition) {
    t.To() == Published && FitForMarket(t.before, t.req.now)
  }

  predicate FullyFundedBySystem(t: Transition) {
    && t.To() == Funded && t.req.actor.role == System
    && t.req.context.fundedAmount.Some? && t.req.context.fundedAmount.value >= t.before.netAmount
  }

  /**
    A settled invoice was published after passing validation, then marked funded by
    the system with at least its net amount committed, and settled by admin or system.
   */
  lemma SettledWasPublishedAndFunded(record: Record)
    requires PathSound(record) && record.invoice.status == Settled
    ensures |record.log| >= 3
    ensures var n := |record.log|;
            ValidatedPublish(record.log[n - 3]) && FullyFundedBySystem(record.log[n - 2])
            && record.log[n - 1].To() == Settled && record.log[n - 1].req.actor.role != Seller
  {
    hide AssertTransition;
    var n := |record.log|;
    AllowedEdge(record.log[n - 1]);
    Predecessor(record, n - 1, Funded);
    AllowedEdge(record.log[n - 2]);
    Predecessor(record, n - 2, Published);
    AllowedEdge(record.log[n - 3]);
  }

  /** A finished invoice never moves again, whatever is requested. */
  lemma {:induction false} TerminalIsFinal(record: Record, steps: seq<Step>)
    requires IsTerminal(record.invoice.status)
    ensures ApplyAll(record, steps).log == record.log
    ensures ApplyAll(record, steps).invoice.status == record.invoice.status
    decreases |steps|
  {
    if steps != [] {
      if steps[0].Attempt? {
        GraphIsAsDocumented(record.invoice.status, steps[0].req.to);
      }
      TerminalIsFinal(Apply(record, steps[0]), steps[1..]);
    }
  }
}
