/** The credit ledger, in integer units of 1e-8 dollars: balance records and usage charges, each one transaction. */
module BillingLedger {
  import opened Wrappers
  import opened TableSums

  datatype User = User(credits: int, unlimited: bool)

  datatype RecordType = Recharge | Deduct

  datatype BalanceRecord = BalanceRecord(user: nat, kind: RecordType, amount: int, before: int, after: int)

  datatype Charge = Charge(user: Option<nat>, amount: int)

  datatype LedgerError = MissingUser | AmountNotPositive | NoteRequired

  function Signed(record: BalanceRecord): int { if record.kind == Recharge then record.amount else -record.amount }

  // What the balance records of a user add up to, and what its charges do.
  ghost function Recorded(records: map<nat, BalanceRecord>, user: nat): int {
    Sum(records, (id: nat, r: BalanceRecord) => if r.user == user then Signed(r) else 0)
  }

  ghost function Charged(charges: map<string, Charge>, user: nat): int {
    Sum(charges, (hash: string, c: Charge) => if c.user == Some(user) then c.amount else 0)
  }

  // The user rows with a delta applied, unless the user has unlimited credits.
  function WithDelta(users: map<nat, User>, user: nat, delta: int): map<nat, User>
    requires user in users
  {
    if users[user].unlimited then users else users[user := User(users[user].credits + delta, false)]
  }

  // A delta moves exactly the credits of a metered user, by exactly that much.
  lemma DeltaMoves(users: map<nat, User>, user: nat, delta: int)
    requires user in users
    ensures var after := WithDelta(users, user, delta);
            && after.Keys == users.Keys
            && (forall other :: other in users ==> after[other].unlimited == users[other].unlimited)
            && (forall other :: other in users && (other != user || users[other].unlimited) ==> after[other].credits == users[other].credits)
            && (!users[user].unlimited ==> after[user].credits - users[user].credits == delta)
  {
  }

  class Ledger {
    var users: map<nat, User>
    var records: map<nat, BalanceRecord>
    var charges: map<string, Charge>    // keyed by payload hash
    ghost var opening: map<nat, int>    // the credits users started with
    ghost var metered: set<nat>         // the users that never had unlimited credits

    // Credits are the opening balance plus recharges minus deductions minus charges.
    ghost predicate Valid()
      reads this
    {
      forall user :: user in metered ==>
        user in users && user in opening && !users[user].unlimited
        && users[user].credits == opening[user] + Recorded(records, user) - Charged(charges, user)
    }

    constructor (users: map<nat, User>)
      ensures Valid() && this.users == users && records == map[] && charges == map[]
      ensures metered == set user | user in users && !users[user].unlimited
    {
      this.users, records, charges := users, map[], map[];
      opening := map user | user in users :: users[user].credits;
      metered := set user | user in users && !users[user].unlimited;
    }

    // billingApplyUserCreditDeltaTx: the balances before and after.
    method ApplyDelta(user: nat, delta: int) returns (r: Result<(int, int), LedgerError>)
      modifies this`users
      ensures r.Err? <==> user !in old(users)
      ensures r.Err? ==> users == old(users)
      ensures r.Ok? ==> users == WithDelta(old(users), user, delta) && r.value == (old(users)[user].credits, users[user].credits)
    {
      if user !in users { return Err(MissingUser); }
      var row := users[user];
      if delta == 0 || row.unlimited {
        assert users == users[user := row];
        return Ok((row.credits, row.credits));
      }
      users := users[user := row.(credits := row.credits + delta)];
      r := Ok((users[user].credits - delta, users[user].credits));
    }

    lemma RecordAdded(id: nat, record: BalanceRecord, user: nat)
      requires id !in records
      ensures Recorded(records[id := record], user) == Recorded(records, user) + (if record.user == user then Signed(record) else 0)
    {
      SumSet(records, id, record, (i: nat, r: BalanceRecord) => if r.user == user then Signed(r) else 0);
    }

    lemma ChargeAdded(hash: string, charge: Charge, user: nat)
      requires hash !in charges
      ensures Charged(charges[hash := charge], user) == Charged(charges, user) + (if charge.user == Some(user) then charge.amount else 0)
    {
      SumSet(charges, hash, charge, (h: string, c: Charge) => if c.user == Some(user) then c.amount else 0);
    }

    // ApplyBillingBalanceRecord; id is fresh.
    method ApplyBalance(id: nat, user: nat, kind: RecordType, amount: int, note: string) returns (error: Option<LedgerError>)
      requires Valid() && id !in records
      modifies this`users, this`records
      ensures Valid()
      ensures error.None? <==> amount > 0 && (kind == Deduct ==> note != "") && user in old(users)
      ensures error.Some? ==> users == old(users) && records == old(records)
      ensures error.None? ==> users == WithDelta(old(users), user, if kind == Recharge then amount else -amount)
      ensures error.None? ==> records == old(records)[id := BalanceRecord(user, kind, amount, old(users)[user].credits,
          users[user].credits)]
    {
      if amount <= 0 { return Some(AmountNotPositive); }
      if kind == Deduct && note == "" { return Some(NoteRequired); }
      var balances := ApplyDelta(user, if kind == Deduct then -amount else amount);
      if balances.Err? { return Some(balances.error); }
      var record := BalanceRecord(user, kind, amount, balances.value.0, balances.value.1);
      forall other: nat ensures Recorded(records[id := record], other) == Recorded(records, other) + (if user
          == other then Signed(record) else 0) {
        RecordAdded(id, record, other);
      }
      records := records[id := record];
      error := None;
    }

    // createBillingChargeForUsageTx for a usage with billable activity: a payload is charged at most
    // once. candidates are all hashes the payload may have been charged under.
    method CreateCharge(hash: string, candidates: seq<string>, user: Option<nat>, amount: int) returns (r: Result<bool, LedgerError>)
      requires Valid() && hash in candidates
      modifies this`users, this`charges
      ensures Valid()
      ensures r.Err? <==> (forall h :: h in candidates ==> h !in old(charges)) && user.Some? && user.value !in old(users)
      ensures r == Ok(true)
          ==> (forall h :: h in candidates ==> h !in old(charges)) && charges == old(charges)[hash := Charge(user, amount)]
      ensures r == Ok(true) ==> users == if user.Some? then WithDelta(old(users), user.value, -amount) else old(users)
      ensures r != Ok(true) ==> charges == old(charges) && users == old(users)
    {
      if |candidates| > 1 && exists h :: h in candidates && h in charges { return Ok(false); }
      if hash in charges { return Ok(false); }
      assert forall h :: h in candidates ==> h !in charges by {
        if |candidates| == 1 { assert candidates == [hash]; }
      }
      if user.Some? {
        var balances := ApplyDelta(user.value, -amount);
        if balances.Err? { return Err(balances.error); }
      }
      forall other: nat ensures Charged(charges[hash := Charge(user, amount)], other) == Charged(charges, other)
          + (if user == Some(other) then amount else 0) {
        ChargeAdded(hash, Charge(user, amount), other);
      }
      charges := charges[hash := Charge(user, amount)];
      r := Ok(true);
    }

    // An administrator changes whether a user has unlimited credits.
    method SetUnlimited(user: nat, unlimited: bool)
      requires Valid() && user in users
      modifies this`users, this`metered
      ensures Valid() && users == old(users)[user := User(old(users)[user].credits, unlimited)]
      ensures metered == if unlimited then old(metered) - {user} else old(metered)
    {
      users := users[user := User(users[user].credits, unlimited)];
      if unlimited { metered := metered - {user}; }
    }
  }
}
