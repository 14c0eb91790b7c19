/**
  The Stellar payment ledger: two tables whose rows may name an on-chain operation,
  the claims table with its triggers, and the migration that fills it.  A statement
  that raises is rolled back as a whole.
 */
module PaymentClaims {
  import opened Wrappers

  type Uuid = string

  datatype InvestmentRow = InvestmentRow(hash: Option<string>, op: Option<int>)
  datatype TransactionRow = TransactionRow(hash: Option<string>, op: Option<int>, investment: Option<Uuid>)

  datatype ClaimKey = ClaimKey(hash: string, op: int)

  /** The two owner columns of a claim; the triggers fill exactly one. */
  datatype Claim = Claim(investment: Option<Uuid>, transaction: Option<Uuid>)

  type Claims = map<ClaimKey, Claim>

  datatype Db = Db(investments: map<Uuid, InvestmentRow>, transactions: map<Uuid, TransactionRow>, claims: Claims)

  datatype Error = AlreadyClaimed | DuplicateId | NoSuchInvestment | StillReferenced | MultipleOwners

  /** SQL upper, for ASCII text. */
  function Upper(s: string): string {
    seq(|s|, i requires 0 <= i < |s| => if 'a' <= s[i] <= 'z' then (s[i] as int - 32) as char else s[i])
  }

  function KeyOf(hash: Option<string>, op: Option<int>): Option<ClaimKey> {
    if hash.Some? && op.Some? then Some(ClaimKey(Upper(hash.value), op.value)) else None
  }

  /** Equal, or one the ASCII capital of the other. */
  predicate SameLetter(c: char, d: char) {
    || c == d
    || ('a' <= c <= 'z' && d as int == c as int - 32)
    || ('a' <= d <= 'z' && c as int == d as int - 32)
  }

  /** Two spellings of one transaction hash. */
  predicate SameHash(a: string, b: string) {
    |a| == |b| && forall i :: 0 <= i < |a| ==> SameLetter(a[i], b[i])
  }

  /** The columns name this operation, however the hash is spelled. */
  predicate Names(hash: Option<string>, op: Option<int>, h: string, o: int) {
    hash.Some? && op.Some? && SameHash(hash.value, h) && op.value == o
  }

  lemma UpperExactly(a: string, b: string)
    ensures Upper(a) == Upper(b) <==> SameHash(a, b)
    ensures SameHash(Upper(a), a)
  {
    var u, v := Upper(a), Upper(b);
    assert |u| == |a| && |v| == |b|;
    if u == v {
      forall i | 0 <= i < |a| ensures SameLetter(a[i], b[i]) {
        assert u[i] == v[i];
      }
    }
    if SameHash(a, b) {
      forall i | 0 <= i < |a| ensures u[i] == v[i] {
        assert SameLetter(a[i], b[i]);
      }
    }
  }

  /** Rows have the same key exactly when they name the same operation up to the case of the hash. */
  lemma KeysExactly(hash: Option<string>, op: Option<int>, h: string, o: int)
    ensures KeyOf(hash, op) == KeyOf(Some(h), Some(o)) <==> Names(hash, op, h, o)
    ensures KeyOf(hash, op).Some? <==> hash.Some? && op.Some?
  {
    if hash.Some? {
      UpperExactly(hash.value, h);
    }
    hide Upper, SameHash;
  }

  function InvestmentClaim(id: Uuid): Claim {
    Claim(Some(id), None)
  }

  function TransactionClaim(id: Uuid, row: TransactionRow): Claim {
    Claim(row.investment, if row.investment.None? then Some(id) else None)
  }

  /** `claim_stellar_payment_operation`: insert, or leave an equal claim, or raise. */
  function ClaimOperation(claims: Claims, hash: Option<string>, op: Option<int>, owner: Claim): Result<Claims, Error> {
    match KeyOf(hash, op)
    case None => Ok(claims)
    case Some(key) =>
      if key !in claims then Ok(claims[key := owner])
      else if claims[key] == owner then Ok(claims)
      else Err(AlreadyClaimed)
  }

  // ---- statements; a column that is not set keeps its value

  datatype Statement =
    | InsertInvestment(id: Uuid, inv: InvestmentRow)
    | UpdateInvestment(id: Uuid, setId: Option<Uuid>, setHash: Option<Option<string>>, setOp: Option<Option<int>>)
    | DeleteInvestment(id: Uuid, order: seq<Uuid>)
    | InsertTransaction(id: Uuid, tx: TransactionRow)
    | UpdateTransaction(id: Uuid, setId: Option<Uuid>, setHash: Option<Option<string>>, setOp: Option<Option<int>>,
                        setInvestment: Option<Option<Uuid>>)
    | DeleteTransaction(id: Uuid)

  function Set<T>(column: Option<T>, value: T): T {
    if column.Some? then column.value else value
  }

  function References(db: Db, investment: Uuid): set<Uuid> {
    set t <- db.transactions | db.transactions[t].investment == Some(investment)
  }

  predicate Referable(db: Db, investment: Option<Uuid>) {
    investment.None? || investment.value in db.investments
  }

  function InsertInv(db: Db, id: Uuid, row: InvestmentRow): Result<Db, Error> {
    match ClaimOperation(db.claims, row.hash, row.op, InvestmentClaim(id))
    case Err(e) => Err(e)
    case Ok(claims) =>
      if id in db.investments then Err(DuplicateId)
      else Ok(db.(investments := db.investments[id := row], claims := claims))
  }

  /** The trigger fires only when the hash or the operation index is in the SET list. */
  function UpdateInv(
      db: Db, id: Uuid, setId: Option<Uuid>, setHash: Option<Option<string>>, setOp: Option<Option<int>>): Result<Db, Error>
  {
    if id !in db.investments then Ok(db)
    else
      var row := InvestmentRow(Set(setHash, db.investments[id].hash), Set(setOp, db.investments[id].op));
      var newId := Set(setId, id);
      match if setHash.Some? || setOp.Some? then ClaimOperation(db.claims, row.hash, row.op, InvestmentClaim(newId))
            else Ok(db.claims)
      case Err(e) => Err(e)
      case Ok(claims) =>
        if newId != id && newId in db.investments then Err(DuplicateId)
        else if newId != id && References(db, id) != {} then Err(StillReferenced)
        else Ok(db.(investments := (db.investments - {id})[newId := row], claims := claims))
  }

  function InsertTx(db: Db, id: Uuid, row: TransactionRow): Result<Db, Error> {
    match ClaimOperation(db.claims, row.hash, row.op, TransactionClaim(id, row))
    case Err(e) => Err(e)
    case Ok(claims) =>
      if id in db.transactions then Err(DuplicateId)
      else if !Referable(db, row.investment) then Err(NoSuchInvestment)
      else Ok(db.(transactions := db.transactions[id := row], claims := claims))
  }

  function UpdateTx(
      db: Db, id: Uuid, setId: Option<Uuid>, setHash: Option<Option<string>>, setOp: Option<Option<int>>,
      setInvestment: Option<Option<Uuid>>): Result<Db, Error>
  {
    if id !in db.transactions then Ok(db)
    else
      var old_ := db.transactions[id];
      var row := TransactionRow(Set(setHash, old_.hash), Set(setOp, old_.op), Set(setInvestment, old_.investment));
      var newId := Set(setId, id);
      match if setHash.Some? || setOp.Some? || setInvestment.Some?
            then ClaimOperation(db.claims, row.hash, row.op, TransactionClaim(newId, row))
            else Ok(db.claims)
      case Err(e) => Err(e)
      case Ok(claims) =>
        if newId != id && newId in db.transactions then Err(DuplicateId)
        else if !Referable(db, row.investment) then Err(NoSuchInvestment)
        else Ok(db.(transactions := (db.transactions - {id})[newId := row], claims := claims))
  }

  /** ON DELETE SET NULL updates each referring transaction, which fires its trigger. */
  function Detach(db: Db, order: seq<Uuid>): Result<Db, Error>
    decreases |order|
  {
    if order == [] then Ok(db)
    else
      match UpdateTx(db, order[0], None, None, None, Some(None))
      case Err(e) => Err(e)
      case Ok(next) => Detach(next, order[1..])
  }

  function DeleteInv(db: Db, id: Uuid, order: seq<Uuid>): Result<Db, Error> {
    match Detach(db, order)
    case Err(e) => Err(e)
    case Ok(next) => Ok(next.(investments := next.investments - {id}))
  }

  /** The order in which the database visits the referring rows is its own choice. */
  ghost predicate Possible(db: Db, s: Statement) {
    s.DeleteInvestment? ==> forall t :: t in s.order <==> s.id in db.investments && t in References(db, s.id)
  }

  function Exec(db: Db, s: Statement): Result<Db, Error> {
    match s
    case InsertInvestment(id, row) => InsertInv(db, id, row)
    case UpdateInvestment(id, setId, setHash, setOp) => UpdateInv(db, id, setId, setHash, setOp)
    case DeleteInvestment(id, order) => DeleteInv(db, id, order)
    case InsertTransaction(id, row) => InsertTx(db, id, row)
    case UpdateTransaction(id, setId, setHash, setOp, setInvestment) => UpdateTx(db, id, setId, setHash, setOp, setInvestment)
    case DeleteTransaction(id) => Ok(db.(transactions := db.transactions - {id}))
  }

  // ---- the invariant

  ghost predicate Claimed(claims: Claims, hash: Option<string>, op: Option<int>, owner: Claim) {
    match KeyOf(hash, op)
    case None => true
    case Some(key) => key in claims && claims[key] == owner
  }

  /** Every row that names an operation agrees with the operation's claim. */
  ghost predicate Agrees(db: Db) {
    && (forall id <- db.investments ::
          Claimed(db.claims, db.investments[id].hash, db.investments[id].op, InvestmentClaim(id)))
    && (forall id <- db.transactions ::
          Claimed(db.claims, db.transactions[id].hash, db.transactions[id].op, TransactionClaim(id, db.transactions[id])))
  }

  ghost predicate ForeignKeys(db: Db) {
    forall id <- db.transactions :: Referable(db, db.transactions[id].investment)
  }

  ghost predicate Inv(db: Db) {
    Agrees(db) && ForeignKeys(db)
  }

  ghost predicate Extends(later: Claims, earlier: Claims) {
    forall k <- earlier :: k in later && later[k] == earlier[k]
  }

  lemma ClaimsExtend(claims: Claims, hash: Option<string>, op: Option<int>, owner: Claim)
    ensures var r := ClaimOperation(claims, hash, op, owner);
            r.Ok? ==> Extends(r.value, claims) && Claimed(r.value, hash, op, owner)
  {}

  /** A committed claim's owner never changes and no claim disappears, whatever the statement. */
  lemma ExecExtends(db: Db, s: Statement)
    ensures var r := Exec(db, s); r.Ok? ==> Extends(r.value.claims, db.claims)
  {
    match s
    case InsertInvestment(id, row) => ClaimsExtend(db.claims, row.hash, row.op, InvestmentClaim(id));
    case InsertTransaction(id, row) => ClaimsExtend(db.claims, row.hash, row.op, TransactionClaim(id, row));
    case DeleteInvestment(id, order) => DetachExtends(db, order);
    case _ =>
  }

  lemma {:induction false} DetachExtends(db: Db, order: seq<Uuid>)
    ensures var r := Detach(db, order);
            r.Ok? ==> Extends(r.value.claims, db.claims) && r.value.investments == db.investments
    decreases |order|
  {
    if order != [] {
      var r := UpdateTx(db, order[0], None, None, None, Some(None));
      if r.Ok? {
        DetachExtends(r.value, order[1..]);
      }
    }
  }

  /**
    The updates the triggers do not see: a new primary key, with no watched column in
    the SET list, on a row whose claim is under its own id.
   */
  ghost predicate Unwatched(db: Db, s: Statement) {
    match s
    case UpdateInvestment(id, Some(newId), None, None) =>
      id in db.investments && newId != id && KeyOf(db.investments[id].hash, db.investments[id].op).Some?
    case UpdateTransaction(id, Some(newId), None, None, None) =>
      id in db.transactions && newId != id && db.transactions[id].investment.None?
      && KeyOf(db.transactions[id].hash, db.transactions[id].op).Some?
    case _ => false
  }

  lemma InsertInvKeeps(db: Db, id: Uuid, row: InvestmentRow)
    requires Inv(db) && InsertInv(db, id, row).Ok?
    ensures Inv(InsertInv(db, id, row).value)
  {
    ClaimsExtend(db.claims, row.hash, row.op, InvestmentClaim(id));
  }

  lemma InsertTxKeeps(db: Db, id: Uuid, row: TransactionRow)
    requires Inv(db) && InsertTx(db, id, row).Ok?
    ensures Inv(InsertTx(db, id, row).value)
  {
    ClaimsExtend(db.claims, row.hash, row.op, TransactionClaim(id, row));
  }

  lemma UpdateInvKeeps(db: Db, s: Statement)
    requires Inv(db) && s.UpdateInvestment? && Exec(db, s).Ok?
    ensures Inv(Exec(db, s).value) <==> !Unwatched(db, s)
  {
    hide KeyOf, ClaimOperation;
    if s.id in db.investments {
      var row := InvestmentRow(Set(s.setHash, db.investments[s.id].hash), Set(s.setOp, db.investments[s.id].op));
      var newId := Set(s.setId, s.id);
      var next := Exec(db, s).value;
      ClaimsExtend(db.claims, row.hash, row.op, InvestmentClaim(newId));
      assert newId in next.investments && next.investments[newId] == row;
      assert forall i <- next.investments :: i == newId || i in db.investments;
      if newId != s.id {
        assert forall t <- db.transactions :: t !in References(db, s.id);
      }
    }
  }

  lemma UpdateTxKeeps(db: Db, s: Statement)
    requires Inv(db) && s.UpdateTransaction? && Exec(db, s).Ok?
    ensures Inv(Exec(db, s).value) <==> !Unwatched(db, s)
  {
    hide KeyOf, ClaimOperation;
    if s.id in db.transactions {
      var old_ := db.transactions[s.id];
      var row := TransactionRow(Set(s.setHash, old_.hash), Set(s.setOp, old_.op), Set(s.setInvestment, old_.investment));
      var newId := Set(s.setId, s.id);
      var next := Exec(db, s).value;
      ClaimsExtend(db.claims, row.hash, row.op, TransactionClaim(newId, row));
      assert newId in next.transactions && next.transactions[newId] == row;
      assert forall i <- next.transactions :: i == newId || i in db.transactions;
    }
  }

  lemma DetachOne(db: Db, t: Uuid)
    requires Inv(db) && t in db.transactions
    ensures var r := UpdateTx(db, t, None, None, None, Some(None));
            && (r.Ok? <==> db.transactions[t].investment == None || !Paid(db, t))
            && (r.Ok? ==>
                  && Inv(r.value)
                  && r.value == db.(transactions := db.transactions[t := db.transactions[t].(investment := None)]))
  {
    var s := UpdateTransaction(t, None, None, None, Some(None));
    var row := db.transactions[t].(investment := None);
    if Exec(db, s).Ok? {
      UpdateTxKeeps(db, s);
      assert (db.transactions - {t})[t := row] == db.transactions[t := row];
    }
  }

  /** With the invariant, detaching a paid transaction always conflicts with its claim. */
  lemma {:induction false} DetachKeeps(db: Db, investment: Uuid, order: seq<Uuid>)
    requires Inv(db) && forall t <- order :: t in db.transactions
    requires forall t <- order :: db.transactions[t].investment == None || db.transactions[t].investment == Some(investment)
    ensures var r := Detach(db, order);
            && (r.Ok? ==>
                  && Inv(r.value) && r.value.transactions.Keys == db.transactions.Keys && r.value.claims == db.claims
                  && (forall t <- db.transactions :: r.value.transactions[t] ==
                        if t in order then db.transactions[t].(investment := None) else db.transactions[t]))
            && (r.Ok? <==> forall t <- order :: db.transactions[t].investment == None || !Paid(db, t))
    decreases |order|
  {
    hide UpdateTx, Inv, KeyOf;
    if order != [] {
      var t := order[0];
      var r := UpdateTx(db, t, None, None, None, Some(None));
      assert forall u <- order :: u == t || u in order[1..];
      DetachOne(db, t);
      if r.Ok? {
        DetachKeeps(r.value, investment, order[1..]);
      }
    }
  }

  predicate Paid(db: Db, t: Uuid)
    requires t in db.transactions
  {
    db.transactions[t].hash.Some? && db.transactions[t].op.Some?
  }

  /**
    An investment can be deleted exactly when no transaction that names an operation
    refers to it; a successful deletion keeps the invariant.
   */
  lemma DeleteInvestmentExactly(db: Db, s: Statement)
    requires Inv(db) && s.DeleteInvestment? && Possible(db, s)
    ensures Exec(db, s).Ok? <==>
              (s.id in db.investments ==> forall t <- References(db, s.id) :: !Paid(db, t))
    ensures Exec(db, s).Ok? ==> Inv(Exec(db, s).value)
    ensures Exec(db, s).Ok? ==>
              var next := Exec(db, s).value;
              && next.investments == db.investments - {s.id}
              && next.claims == db.claims
              && next.transactions.Keys == db.transactions.Keys
              && forall t <- db.transactions :: next.transactions[t] ==
                   if s.id in db.investments && db.transactions[t].investment == Some(s.id)
                   then db.transactions[t].(investment := None) else db.transactions[t]
  {
    DetachKeeps(db, s.id, s.order);
    DetachExtends(db, s.order);
    if Exec(db, s).Ok? {
      var mid, next := Detach(db, s.order).value, Exec(db, s).value;
      forall t <- next.transactions ensures Referable(next, next.transactions[t].investment) {
        assert Referable(mid, mid.transactions[t].investment);
        if s.id in db.investments && db.transactions[t].investment == Some(s.id) {
          assert t in References(db, s.id);
        }
      }
    }
  }

  /** Deleting a transaction never fails, and gives no operation back. */
  lemma DeletedTransactionsStayClaimed(db: Db, id: Uuid)
    ensures var r := Exec(db, DeleteTransaction(id));
            && r.Ok? && id !in r.value.transactions && r.value.claims == db.claims && r.value.investments == db.investments
            && forall t <- db.transactions :: t != id ==> t in r.value.transactions && r.value.transactions[t] == db.transactions[t]
  {}

  /** Main step: a statement that commits keeps every row in agreement exactly when the triggers see it. */
  lemma ExecKeepsExactly(db: Db, s: Statement)
    requires Inv(db) && Possible(db, s) && Exec(db, s).Ok?
    ensures Inv(Exec(db, s).value) <==> !Unwatched(db, s)
  {
    match s
    case InsertInvestment(id, row) => InsertInvKeeps(db, id, row);
    case UpdateInvestment(_, _, _, _) => UpdateInvKeeps(db, s);
    case DeleteInvestment(_, _) => DeleteInvestmentExactly(db, s);
    case InsertTransaction(id, row) => InsertTxKeeps(db, id, row);
    case UpdateTransaction(_, _, _, _, _) => UpdateTxKeeps(db, s);
    case DeleteTransaction(_) =>
  }

  // ---- exactly which statements commit

  /** Claims are stored under the capital spelling of the hash. */
  ghost predicate Capital(claims: Claims) {
    forall k <- claims :: Upper(k.hash) == k.hash
  }

  /** Somebody else has claimed the operation, under whatever spelling. */
  ghost predicate Taken(claims: Claims, hash: Option<string>, op: Option<int>, owner: Claim) {
    hash.Some? && op.Some? &&
    exists k <- claims :: k.op == op.value && SameHash(k.hash, hash.value) && claims[k] != owner
  }

  lemma ClaimExactly(claims: Claims, hash: Option<string>, op: Option<int>, owner: Claim)
    requires Capital(claims)
    ensures var r := ClaimOperation(claims, hash, op, owner);
            && (r.Ok? <==> !Taken(claims, hash, op, owner))
            && (r.Ok? ==> Capital(r.value) && forall k <- r.value :: k in claims || Names(hash, op, k.hash, k.op))
            && (r.Ok? && hash.Some? && op.Some? ==>
                  exists k <- r.value :: Names(hash, op, k.hash, k.op) && r.value[k] == owner)
  {
    hide Upper, SameHash;
    if hash.Some? && op.Some? {
      forall k <- claims ensures k.hash == Upper(hash.value) <==> SameHash(k.hash, hash.value) {
        UpperExactly(k.hash, hash.value);
      }
      UpperExactly(Upper(hash.value), hash.value);
      UpperExactly(hash.value, Upper(hash.value));
    }
  }

  /** An insert commits exactly when the id is free, the link exists and nobody else has claimed the operation. */
  lemma InsertsCommitExactly(db: Db, id: Uuid, inv: InvestmentRow, tx: TransactionRow)
    requires Capital(db.claims)
    ensures var r := Exec(db, InsertInvestment(id, inv));
            && (r.Ok? <==> id !in db.investments && !Taken(db.claims, inv.hash, inv.op, Claim(Some(id), None)))
            && (r.Ok? ==>
                  && r.value.investments == db.investments[id := inv] && r.value.transactions == db.transactions
                  && Capital(r.value.claims)
                  && forall k <- r.value.claims :: k in db.claims || Names(inv.hash, inv.op, k.hash, k.op))
    ensures var r := Exec(db, InsertTransaction(id, tx));
            var owner := if tx.investment.Some? then Claim(tx.investment, None) else Claim(None, Some(id));
            && (r.Ok? <==>
                  && id !in db.transactions && !Taken(db.claims, tx.hash, tx.op, owner)
                  && (tx.investment.Some? ==> tx.investment.value in db.investments))
            && (r.Ok? ==>
                  && r.value.transactions == db.transactions[id := tx] && r.value.investments == db.investments
                  && Capital(r.value.claims)
                  && forall k <- r.value.claims :: k in db.claims || Names(tx.hash, tx.op, k.hash, k.op))
  {
    ClaimExactly(db.claims, inv.hash, inv.op, Claim(Some(id), None));
    ClaimExactly(db.claims, tx.hash, tx.op, TransactionClaim(id, tx));
    hide ClaimOperation, Taken, Capital, Names;
  }

  /**
    An update of an existing investment commits exactly when its new id is free and
    not needed by a transaction, and, if a watched column is set, nobody else has
    claimed the operation.
   */
  lemma UpdateInvestmentExactly(
      db: Db, id: Uuid, setId: Option<Uuid>, setHash: Option<Option<string>>, setOp: Option<Option<int>>)
    requires Capital(db.claims) && id in db.investments
    ensures var r := Exec(db, UpdateInvestment(id, setId, setHash, setOp));
            var newId := if setId.Some? then setId.value else id;
            var hash := if setHash.Some? then setHash.value else db.investments[id].hash;
            var op := if setOp.Some? then setOp.value else db.investments[id].op;
            && (r.Ok? <==>
                  && (setHash.Some? || setOp.Some? ==> !Taken(db.claims, hash, op, Claim(Some(newId), None)))
                  && (newId == id
                      || (newId !in db.investments && forall t <- db.transactions :: db.transactions[t].investment != Some(id))))
            && (r.Ok? ==>
                  && r.value.investments == (db.investments - {id})[newId := InvestmentRow(hash, op)]
                  && r.value.transactions == db.transactions && Capital(r.value.claims)
                  && (setHash.None? && setOp.None? ==> r.value.claims == db.claims))
  {
    var newId := Set(setId, id);
    ClaimExactly(db.claims, Set(setHash, db.investments[id].hash), Set(setOp, db.investments[id].op), Claim(Some(newId), None));
    assert References(db, id) != {} <==> exists t <- db.transactions :: db.transactions[t].investment == Some(id) by {
      if t :| t in db.transactions && db.transactions[t].investment == Some(id) {
        assert t in References(db, id);
      }
    }
    hide ClaimOperation, Taken, Capital, References;
  }

  /** The same for a transaction, where the link to an investment is watched as well and must exist. */
  lemma UpdateTransactionExactly(
      db: Db, id: Uuid, setId: Option<Uuid>, setHash: Option<Option<string>>, setOp: Option<Option<int>>,
      setInvestment: Option<Option<Uuid>>)
    requires Capital(db.claims) && id in db.transactions
    ensures var r := Exec(db, UpdateTransaction(id, setId, setHash, setOp, setInvestment));
            var newId := if setId.Some? then setId.value else id;
            var hash := if setHash.Some? then setHash.value else db.transactions[id].hash;
            var op := if setOp.Some? then setOp.value else db.transactions[id].op;
            var investment := if setInvestment.Some? then setInvestment.value else db.transactions[id].investment;
            var owner := if investment.Some? then Claim(investment, None) else Claim(None, Some(newId));
            && (r.Ok? <==>
                  && (setHash.Some? || setOp.Some? || setInvestment.Some? ==> !Taken(db.claims, hash, op, owner))
                  && (newId == id || newId !in db.transactions)
                  && (investment.Some? ==> investment.value in db.investments))
            && (r.Ok? ==>
                  && r.value.transactions == (db.transactions - {id})[newId := TransactionRow(hash, op, investment)]
                  && r.value.investments == db.investments && Capital(r.value.claims)
                  && (setHash.None? && setOp.None? && setInvestment.None? ==> r.value.claims == db.claims))
  {
    var newId, old_ := Set(setId, id), db.transactions[id];
    var row := TransactionRow(Set(setHash, old_.hash), Set(setOp, old_.op), Set(setInvestment, old_.investment));
    ClaimExactly(db.claims, row.hash, row.op, TransactionClaim(newId, row));
    hide ClaimOperation, Taken, Capital;
  }

  lemma {:induction false} DetachKeepsCapital(db: Db, order: seq<Uuid>)
    requires Capital(db.claims)
    ensures var r := Detach(db, order); r.Ok? ==> Capital(r.value.claims)
    decreases |order|
  {
    if order != [] {
      var r := UpdateTx(db, order[0], None, None, None, Some(None));
      if order[0] in db.transactions {
        UpdateTransactionExactly(db, order[0], None, None, None, Some(None));
      }
      hide UpdateTx, Capital;
      if r.Ok? {
        DetachKeepsCapital(r.value, order[1..]);
      }
    }
  }

  /** Every statement keeps the claims under capital spellings. */
  lemma ExecKeepsCapital(db: Db, s: Statement)
    requires Capital(db.claims)
    ensures var r := Exec(db, s); r.Ok? ==> Capital(r.value.claims)
  {
    hide Capital;
    match s
    case InsertInvestment(id, inv) => InsertsCommitExactly(db, id, inv, TransactionRow(None, None, None));
    case UpdateInvestment(id, setId, setHash, setOp) =>
      if id in db.investments {
        UpdateInvestmentExactly(db, id, setId, setHash, setOp);
      }
    case DeleteInvestment(_, order) => DetachKeepsCapital(db, order);
    case InsertTransaction(id, tx) => InsertsCommitExactly(db, id, InvestmentRow(None, None), tx);
    case UpdateTransaction(id, setId, setHash, setOp, setInvestment) =>
      if id in db.transactions {
        UpdateTransactionExactly(db, id, setId, setHash, setOp, setInvestment);
      }
    case DeleteTransaction(_) =>
  }

  // ---- runs: a statement that raises changes nothing

  function Commit(db: Db, s: Statement): Db {
    match Exec(db, s)
    case Ok(next) => next
    case Err(_) => db
  }

  ghost predicate Watched(db: Db, run: seq<Statement>)
    decreases |run|
  {
    run == [] || (Possible(db, run[0]) && !Unwatched(db, run[0]) && Watched(Commit(db, run[0]), run[1..]))
  }

  function After(db: Db, run: seq<Statement>): Db
    decreases |run|
  {
    if run == [] then db else After(Commit(db, run[0]), run[1..])
  }

  lemma {:induction false} RunsKeepTheLedger(db: Db, run: seq<Statement>)
    requires Inv(db) && Watched(db, run)
    ensures Inv(After(db, run)) && Extends(After(db, run).claims, db.claims)
    decreases |run|
  {
    if run != [] {
      ExecExtends(db, run[0]);
      if Exec(db, run[0]).Ok? {
        ExecKeepsExactly(db, run[0]);
      }
      RunsKeepTheLedger(Commit(db, run[0]), run[1..]);
    }
  }

  /** Some row of either table names the operation, and this is who owns it: its investment, else the transaction. */
  ghost predicate Owns(db: Db, h: string, o: int, owner: Claim) {
    || (exists id <- db.investments ::
          Names(db.investments[id].hash, db.investments[id].op, h, o) && owner == Claim(Some(id), None))
    || (exists id <- db.transactions ::
          && Names(db.transactions[id].hash, db.transactions[id].op, h, o)
          && owner == match db.transactions[id].investment
                      case Some(investment) => Claim(Some(investment), None)
                      case None => Claim(None, Some(id)))
  }

  /**
    Main result: after any run, no operation has two owners among the rows, and an
    operation that ever had an owner has no other one later, even once the rows that
    named it are gone; hashes that differ in case are one operation.
   */
  lemma OneOwnerForever(db: Db, run: seq<Statement>, h: string, o: int, owner: Claim, other: Claim)
    requires Inv(db) && Watched(db, run)
    requires Owns(db, h, o, owner) || Owns(After(db, run), h, o, owner)
    requires Owns(After(db, run), h, o, other)
    ensures owner == other
  {
    hide Owns, Inv, Watched, Upper;
    RunsKeepTheLedger(db, run);
    OwnerIsClaimed(After(db, run), h, o, other);
    if Owns(db, h, o, owner) {
      OwnerIsClaimed(db, h, o, owner);
    } else {
      OwnerIsClaimed(After(db, run), h, o, owner);
    }
  }

  lemma OwnerIsClaimed(db: Db, h: string, o: int, owner: Claim)
    requires Inv(db) && Owns(db, h, o, owner)
    ensures ClaimKey(Upper(h), o) in db.claims && db.claims[ClaimKey(Upper(h), o)] == owner
  {
    hide Names, Upper;
    forall hash, op ensures KeyOf(hash, op) == KeyOf(Some(h), Some(o)) <==> Names(hash, op, h, o) {
      KeysExactly(hash, op, h, o);
    }
  }

  ghost predicate TwoOwners(db: Db) {
    exists h, o, owner, other :: Owns(db, h, o, owner) && Owns(db, h, o, other) && owner != other
  }

  /** A run the triggers see all of, and that ends with an operation two rows own differently. */
  ghost predicate SplitsAnOperation(db: Db, run: seq<Statement>) {
    Watched(db, run) && TwoOwners(After(db, run))
  }

  /**
    Exactly the updates that the triggers do not see break this: after one, the old
    id can be inserted again for the same operation, and the claim still accepts it.
   */
  lemma TwoOwnersExactly(db: Db, s: Statement)
    requires Inv(db) && Possible(db, s) && Exec(db, s).Ok?
    ensures (exists run :: SplitsAnOperation(Exec(db, s).value, run)) <==> Unwatched(db, s)
  {
    hide Inv, Exec, Owns, Watched, After;
    var next := Exec(db, s).value;
    if Unwatched(db, s) {
      var again := if s.UpdateInvestment? then InsertInvestment(s.id, db.investments[s.id])
                   else InsertTransaction(s.id, db.transactions[s.id]);
      OldIdIsAcceptedAgain(db, s, again);
      OneStatement(next, again);
      assert SplitsAnOperation(next, [again]);
    } else {
      ExecKeepsExactly(db, s);
      forall run | Watched(next, run) ensures !SplitsAnOperation(next, run) {
        forall h, o, owner, other | Owns(After(next, run), h, o, owner) && Owns(After(next, run), h, o, other)
          ensures owner == other
        {
          OneOwnerForever(next, run, h, o, owner, other);
        }
      }
    }
  }

  lemma OneStatement(db: Db, s: Statement)
    requires Exec(db, s).Ok? && !s.DeleteInvestment? && !Unwatched(db, s)
    ensures Watched(db, [s]) && After(db, [s]) == Exec(db, s).value
  {
    hide Exec, Unwatched;
    assert [s][1..] == [];
    assert Watched(Commit(db, s), []);
    assert After(Commit(db, s), []) == Exec(db, s).value;
  }

  lemma OldIdIsAcceptedAgain(db: Db, s: Statement, again: Statement)
    requires Inv(db) && Exec(db, s).Ok? && Unwatched(db, s)
    requires again == if s.UpdateInvestment? then InsertInvestment(s.id, db.investments[s.id])
                      else InsertTransaction(s.id, db.transactions[s.id])
    ensures Exec(Exec(db, s).value, again).Ok? && TwoOwners(Exec(Exec(db, s).value, again).value)
  {
    var next, newId := Exec(db, s).value, s.setId.value;
    var after := Exec(next, again).value;
    if s.UpdateInvestment? {
      var row := db.investments[s.id];
      assert after.investments[s.id] == row && after.investments[newId] == row;
      assert Owns(after, row.hash.value, row.op.value, Claim(Some(s.id), None));
      assert Owns(after, row.hash.value, row.op.value, Claim(Some(newId), None));
    } else {
      var row := db.transactions[s.id];
      assert after.transactions[s.id] == row && after.transactions[newId] == row;
      assert Owns(after, row.hash.value, row.op.value, Claim(None, Some(s.id)));
      assert Owns(after, row.hash.value, row.op.value, Claim(None, Some(newId)));
    }
  }

  // ---- the migration

  function PaymentOwners(db: Db): set<(ClaimKey, Claim)> {
    (set id <- db.investments | KeyOf(db.investments[id].hash, db.investments[id].op).Some? ::
       (KeyOf(db.investments[id].hash, db.investments[id].op).value, InvestmentClaim(id)))
    + (set id <- db.transactions | KeyOf(db.transactions[id].hash, db.transactions[id].op).Some? ::
         (KeyOf(db.transactions[id].hash, db.transactions[id].op).value, TransactionClaim(id, db.transactions[id])))
  }

  /** GROUP BY key: the distinct owners of one operation. */
  function OwnersOf(owners: set<(ClaimKey, Claim)>, key: ClaimKey): set<Claim> {
    set p <- owners | p.0 == key :: p.1
  }

  /** The duplicate check, then one claim per operation (DISTINCT ON). */
  ghost function Migrate(db: Db): Result<Db, Error> {
    var owners := PaymentOwners(db);
    var keys := set p <- owners :: p.0;
    if exists k <- keys :: |OwnersOf(owners, k)| > 1 then Err(MultipleOwners)
    else Ok(db.(claims := map k <- keys :: First(OwnersOf(owners, k))))
  }

  ghost function First(owners: set<Claim>): Claim {
    if owners == {} then Claim(None, None) else var o :| o in owners; o
  }

  lemma OwnsIsOwner(db: Db, h: string, o: int, owner: Claim)
    ensures Owns(db, h, o, owner) <==> (ClaimKey(Upper(h), o), owner) in PaymentOwners(db)
    ensures Owns(db, h, o, owner) <==> owner in OwnersOf(PaymentOwners(db), ClaimKey(Upper(h), o))
  {
    hide Names, Upper;
    var key := ClaimKey(Upper(h), o);
    forall hash, op ensures KeyOf(hash, op) == Some(key) <==> Names(hash, op, h, o) {
      KeysExactly(hash, op, h, o);
    }
    assert owner in OwnersOf(PaymentOwners(db), key) <==> (key, owner) in PaymentOwners(db) by {
      if (key, owner) in PaymentOwners(db) {
        assert (key, owner).0 == key;
      }
    }
  }

  /** Every key of an owner is that of some spelled hash. */
  lemma KeyIsSpelled(db: Db, key: ClaimKey, owner: Claim) returns (h: string)
    requires (key, owner) in PaymentOwners(db)
    ensures key == ClaimKey(Upper(h), key.op)
  {
    hide Upper;
    if id :| id in db.investments && KeyOf(db.investments[id].hash, db.investments[id].op) == Some(key) {
      h := db.investments[id].hash.value;
    } else {
      var id :| id in db.transactions && KeyOf(db.transactions[id].hash, db.transactions[id].op) == Some(key);
      h := db.transactions[id].hash.value;
    }
  }

  lemma AtMostOne(owners: set<Claim>, a: Claim, b: Claim)
    requires |owners| <= 1 && a in owners && b in owners
    ensures a == b
  {
    if a != b {
      assert |owners - {a}| >= 1 by {
        assert b in owners - {a};
      }
    }
  }

  lemma TwoElements(owners: set<Claim>) returns (a: Claim, b: Claim)
    requires |owners| > 1
    ensures a in owners && b in owners && a != b
  {
    a :| a in owners;
    assert |owners - {a}| >= 1;
    b :| b in owners - {a};
  }

  /**
    The migration succeeds exactly when no operation, however its hash is spelled, has
    two owners, and then establishes the invariant.
   */
  lemma MigrationExactly(db: Db)
    requires ForeignKeys(db)
    ensures Migrate(db).Ok? <==> !TwoOwners(db)
    ensures Migrate(db).Ok? ==> Inv(Migrate(db).value) && Capital(Migrate(db).value.claims)
  {
    hide Owns, Upper, PaymentOwners;
    var owners := PaymentOwners(db);
    var keys := set p <- owners :: p.0;
    if Migrate(db).Ok? {
      forall h, o, a, b | Owns(db, h, o, a) && Owns(db, h, o, b) ensures a == b {
        OwnsIsOwner(db, h, o, a);
        OwnsIsOwner(db, h, o, b);
        assert (ClaimKey(Upper(h), o), a).0 in keys;
        AtMostOne(OwnersOf(owners, ClaimKey(Upper(h), o)), a, b);
      }
      forall h, o, a | Owns(db, h, o, a)
        ensures ClaimKey(Upper(h), o) in keys && First(OwnersOf(owners, ClaimKey(Upper(h), o))) == a
      {
        var key := ClaimKey(Upper(h), o);
        OwnsIsOwner(db, h, o, a);
        assert (key, a).0 in keys;
        AtMostOne(OwnersOf(owners, key), a, First(OwnersOf(owners, key)));
      }
      MigratedAgrees(db);
      forall key <- keys ensures Upper(key.hash) == key.hash {
        var p :| p in owners && p.0 == key;
        var h := KeyIsSpelled(db, key, p.1);
        UpperExactly(h, h);
        UpperExactly(Upper(h), h);
      }
    } else {
      var key :| key in keys && |OwnersOf(owners, key)| > 1;
      var a, b := TwoElements(OwnersOf(owners, key));
      var h := KeyIsSpelled(db, key, a);
      OwnsIsOwner(db, h, key.op, a);
      OwnsIsOwner(db, h, key.op, b);
    }
  }

  lemma MigratedAgrees(db: Db)
    requires Migrate(db).Ok?
    requires forall h, o, owner :: Owns(db, h, o, owner) ==>
               ClaimKey(Upper(h), o) in Migrate(db).value.claims && Migrate(db).value.claims[ClaimKey(Upper(h), o)] == owner
    ensures Agrees(Migrate(db).value)
  {
    hide Upper, Migrate;
    var after := Migrate(db).value;
    assert after.investments == db.investments && after.transactions == db.transactions by {
      MigrationKeepsRows(db);
    }
    forall id <- db.investments
      ensures Claimed(after.claims, db.investments[id].hash, db.investments[id].op, InvestmentClaim(id))
    {
      var row := db.investments[id];
      if row.hash.Some? && row.op.Some? {
        SpeltAsIs(row.hash.value);
        assert Owns(db, row.hash.value, row.op.value, Claim(Some(id), None));
      }
    }
    forall id <- db.transactions
      ensures Claimed(after.claims, db.transactions[id].hash, db.transactions[id].op,
                      TransactionClaim(id, db.transactions[id]))
    {
      var row := db.transactions[id];
      if row.hash.Some? && row.op.Some? {
        SpeltAsIs(row.hash.value);
        assert Owns(db, row.hash.value, row.op.value, TransactionClaim(id, row));
      }
    }
  }

  lemma MigrationKeepsRows(db: Db)
    requires Migrate(db).Ok?
    ensures Migrate(db).value.investments == db.investments && Migrate(db).value.transactions == db.transactions
  {
    hide PaymentOwners;
  }

  lemma SpeltAsIs(h: string)
    ensures SameHash(h, h)
  {}
}
