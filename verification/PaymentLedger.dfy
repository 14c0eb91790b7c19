/**
  The tables with their triggers as an object: each statement works on the tables
  in place and restores them when something in it raises.
 */
module PaymentLedger {
  import opened Wrappers
  import opened PaymentClaims

  class Ledger {
    var investments: map<Uuid, InvestmentRow>
    var transactions: map<Uuid, TransactionRow>
    var claims: Claims

    ghost function Abs(): Db
      reads this
    {
      Db(investments, transactions, claims)
    }

    constructor (db: Db)
      ensures Abs() == db
    {
      investments, transactions, claims := db.investments, db.transactions, db.claims;
    }

    /** The outcome of a statement: its new tables, or the old ones and the error. */
    ghost predicate Outcome(before: Db, s: Statement, error: Option<Error>)
      reads this
    {
      match Exec(before, s)
      case Ok(next) => error == None && Abs() == next
      case Err(e) => error == Some(e) && Abs() == before
    }

    /** `claim_stellar_payment_operation`. */
    method ClaimPaymentOperation(hash: Option<string>, op: Option<int>, owner: Claim) returns (error: Option<Error>)
      modifies this`claims
      ensures match ClaimOperation(old(claims), hash, op, owner)
              case Ok(next) => error == None && claims == next
              case Err(e) => error == Some(e) && claims == old(claims)
    {
      if hash.None? || op.None? {
        return None;
      }
      var key := ClaimKey(Upper(hash.value), op.value);
      if key in claims && claims[key] != owner {
        return Some(AlreadyClaimed);
      }
      if key in claims {
        assert claims[key := owner] == claims;
      }
      claims := claims[key := owner];
      return None;
    }

    method InsertInvestment(id: Uuid, row: InvestmentRow) returns (error: Option<Error>)
      modifies this
      ensures Outcome(old(Abs()), Statement.InsertInvestment(id, row), error)
    {
      var saved := claims;
      error := ClaimPaymentOperation(row.hash, row.op, InvestmentClaim(id));
      if error.None? && id in investments {
        claims := saved;
        error := Some(DuplicateId);
      }
      if error.None? {
        investments := investments[id := row];
      }
    }

    method InsertTransaction(id: Uuid, row: TransactionRow) returns (error: Option<Error>)
      modifies this
      ensures Outcome(old(Abs()), Statement.InsertTransaction(id, row), error)
    {
      var saved := claims;
      error := ClaimPaymentOperation(row.hash, row.op, TransactionClaim(id, row));
      if error.None? {
        if id in transactions {
          error := Some(DuplicateId);
        } else if row.investment.Some? && row.investment.value !in investments {
          error := Some(NoSuchInvestment);
        }
      }
      if error.Some? {
        claims := saved;
        return;
      }
      transactions := transactions[id := row];
    }

    method UpdateInvestment(
        id: Uuid, setId: Option<Uuid>, setHash: Option<Option<string>>, setOp: Option<Option<int>>)
        returns (error: Option<Error>)
      modifies this
      ensures Outcome(old(Abs()), Statement.UpdateInvestment(id, setId, setHash, setOp), error)
    {
      hide KeyOf, ClaimOperation;
      if id !in investments {
        return None;
      }
      var saved := claims;
      var row := InvestmentRow(Set(setHash, investments[id].hash), Set(setOp, investments[id].op));
      var newId := Set(setId, id);
      error := None;
      if setHash.Some? || setOp.Some? {
        error := ClaimPaymentOperation(row.hash, row.op, InvestmentClaim(newId));
      }
      if error.None? && newId != id {
        var referring := set t <- transactions | transactions[t].investment == Some(id);
        assert referring == References(old(Abs()), id);
        if newId in investments {
          error := Some(DuplicateId);
        } else if referring != {} {
          error := Some(StillReferenced);
        }
      }
      if error.Some? {
        claims := saved;
        return;
      }
      investments := (investments - {id})[newId := row];
    }

    method UpdateTransaction(
        id: Uuid, setId: Option<Uuid>, setHash: Option<Option<string>>, setOp: Option<Option<int>>,
        setInvestment: Option<Option<Uuid>>)
        returns (error: Option<Error>)
      modifies this
      ensures investments == old(investments)
      ensures Outcome(old(Abs()), Statement.UpdateTransaction(id, setId, setHash, setOp, setInvestment), error)
    {
      hide KeyOf, ClaimOperation;
      if id !in transactions {
        return None;
      }
      var saved, before := claims, transactions[id];
      var row := TransactionRow(Set(setHash, before.hash), Set(setOp, before.op), Set(setInvestment, before.investment));
      var newId := Set(setId, id);
      error := None;
      if setHash.Some? || setOp.Some? || setInvestment.Some? {
        error := ClaimPaymentOperation(row.hash, row.op, TransactionClaim(newId, row));
      }
      if error.None? {
        if newId != id && newId in transactions {
          error := Some(DuplicateId);
        } else if row.investment.Some? && row.investment.value !in investments {
          error := Some(NoSuchInvestment);
        }
      }
      if error.Some? {
        claims := saved;
        return;
      }
      transactions := (transactions - {id})[newId := row];
    }

    /** Sets the link of every referring transaction to NULL, row by row, then deletes the investment. */
    method DeleteInvestment(id: Uuid, order: seq<Uuid>) returns (error: Option<Error>)
      modifies this
      ensures Outcome(old(Abs()), Statement.DeleteInvestment(id, order), error)
    {
      var savedTransactions, savedClaims := transactions, claims;
      error := None;
      var k := 0;
      while k < |order|
        invariant 0 <= k <= |order| && error == None && investments == old(investments)
        invariant Detach(Abs(), order[k..]) == Detach(old(Abs()), order)
      {
        assert order[k..][1..] == order[k + 1..];
        error := UpdateTransaction(order[k], None, None, None, Some(None));
        if error.Some? {
          transactions, claims := savedTransactions, savedClaims;
          return;
        }
        k := k + 1;
      }
      investments := investments - {id};
    }

    method DeleteTransaction(id: Uuid) returns (error: Option<Error>)
      modifies this
      ensures Outcome(old(Abs()), Statement.DeleteTransaction(id), error)
    {
      transactions := transactions - {id};
      return None;
    }
  }
}
