/** Transaction checks (src/validation.cpp). */
module Validation {
  import opened Types
  import opened Sums
  import opened Ledger

  // ---------- Shape ----------

  /** Addition that refuses to leave the 64-bit range. */
  function CheckedAdd(total: i64, delta: i64): (r: Option<i64>)
    ensures r.Some? <==> InI64(total + delta)
    ensures r.Some? ==> r.value == total + delta
  {
    if delta > 0 && total > I64_MAX - delta then None
    else if delta < 0 && total < I64_MIN - delta then None
    else Some(total + delta)
  }

  datatype Totals = Totals(debit: i64, credit: i64)

  function AddLeg(t: Totals, leg: EntryLeg): Result<Totals> {
    if leg.amount <= 0 then Err(ZeroAmountLeg)
    else
      var sum := CheckedAdd(if leg.direction == Debit then t.debit else t.credit, leg.amount);
      if sum.None? then Err(AmountOverflow)
      else Ok(if leg.direction == Debit then t.(debit := sum.value) else t.(credit := sum.value))
  }

  function AddLegs(t: Totals, legs: seq<EntryLeg>): Result<Totals>
    decreases |legs|
  {
    if legs == [] then Ok(t)
    else
      var next := AddLeg(t, legs[0]);
      if next.Err? then next else AddLegs(next.value, legs[1..])
  }

  function ShapeOf(tx: Transaction): Result<()> {
    if |tx.legs| < 2 then Err(TooFewLegs)
    else
      var t := AddLegs(Totals(0, 0), tx.legs);
      if t.Err? then Err(t.error)
      else if t.value.debit != t.value.credit then Err(UnbalancedTransaction)
      else Ok(())
  }

  predicate Positive(legs: seq<EntryLeg>) {
    forall i :: 0 <= i < |legs| ==> legs[i].amount > 0
  }

  lemma {:induction false} TotalsNonNegative(legs: seq<EntryLeg>, d: Direction)
    requires Positive(legs)
    ensures TotalOf(legs, d) >= 0
  {
    if legs != [] {
      TotalsNonNegative(legs[1..], d);
    }
  }

  /** The running totals succeed exactly if all amounts are positive and both totals fit. */
  lemma {:induction false} AddLegsMeaning(t: Totals, legs: seq<EntryLeg>)
    requires t.debit >= 0 && t.credit >= 0
    ensures AddLegs(t, legs).Ok? <==>
            Positive(legs) && t.debit + TotalOf(legs, Debit) <= I64_MAX && t.credit + TotalOf(legs, Credit) <= I64_MAX
    ensures AddLegs(t, legs).Ok? ==>
            && AddLegs(t, legs).value.debit == t.debit + TotalOf(legs, Debit)
            && AddLegs(t, legs).value.credit == t.credit + TotalOf(legs, Credit)
    ensures AddLegs(t, legs).Err? ==> AddLegs(t, legs).error in {ZeroAmountLeg, AmountOverflow}
    ensures AddLegs(t, legs) == Err(ZeroAmountLeg) ==> !Positive(legs)
    decreases |legs|
  {
    if legs != [] {
      var next := AddLeg(t, legs[0]);
      if Positive(legs) {
        TotalsNonNegative(legs[1..], Debit);
        TotalsNonNegative(legs[1..], Credit);
      }
      if next.Ok? {
        AddLegsMeaning(next.value, legs[1..]);
        assert Positive(legs) <==> Positive(legs[1..]) by {
          assert forall i :: 1 <= i < |legs| ==> legs[i] == legs[1..][i - 1];
        }
      }
    }
  }

  /** What an accepted shape means, and what each refusal means. */
  lemma ShapeMeaning(tx: Transaction)
    ensures ShapeOf(tx).Ok? <==>
            && |tx.legs| >= 2
            && Positive(tx.legs)
            && BalancedLegs(tx.legs)
            && TotalOf(tx.legs, Debit) <= I64_MAX
    ensures ShapeOf(tx) == Err(TooFewLegs) <==> |tx.legs| < 2
    ensures ShapeOf(tx) == Err(ZeroAmountLeg) ==> !Positive(tx.legs)
    ensures ShapeOf(tx) == Err(UnbalancedTransaction) <==>
            && |tx.legs| >= 2
            && Positive(tx.legs)
            && !BalancedLegs(tx.legs)
            && TotalOf(tx.legs, Debit) <= I64_MAX
            && TotalOf(tx.legs, Credit) <= I64_MAX
    ensures ShapeOf(tx) == Err(AmountOverflow) && Positive(tx.legs) ==>
            TotalOf(tx.legs, Debit) > I64_MAX || TotalOf(tx.legs, Credit) > I64_MAX
  {
    AddLegsMeaning(Totals(0, 0), tx.legs);
  }

  // ---------- Which fault is reported ----------

  /** No fault up to here: positive amounts, both totals within 64 bits. */
  predicate Clean(legs: seq<EntryLeg>) {
    Positive(legs) && TotalOf(legs, Debit) <= I64_MAX && TotalOf(legs, Credit) <= I64_MAX
  }

  predicate ZeroAt(legs: seq<EntryLeg>, i: nat) {
    i < |legs| && Clean(legs[..i]) && legs[i].amount <= 0
  }

  predicate OverflowAt(legs: seq<EntryLeg>, i: nat) {
    i < |legs| && Clean(legs[..i]) && legs[i].amount > 0 && !Clean(legs[..i + 1])
  }

  /** The first leg that cannot be added decides the error. */
  lemma {:induction false} FirstFault(t: Totals, legs: seq<EntryLeg>) returns (i: nat)
    requires AddLegs(t, legs).Err?
    ensures i < |legs| && AddLegs(t, legs[..i]).Ok? && AddLeg(AddLegs(t, legs[..i]).value, legs[i]) == AddLegs(t, legs)
    decreases |legs|
  {
    hide AddLeg;
    if AddLeg(t, legs[0]).Err? {
      i := 0;
    } else {
      var j := FirstFault(AddLeg(t, legs[0]).value, legs[1..]);
      i := j + 1;
      assert legs[..i][1..] == legs[1..][..j] && legs[..i][0] == legs[0];
    }
  }

  lemma {:induction false} FaultAt(t: Totals, legs: seq<EntryLeg>, i: nat)
    requires i < |legs| && AddLegs(t, legs[..i]).Ok? && AddLeg(AddLegs(t, legs[..i]).value, legs[i]).Err?
    ensures AddLegs(t, legs) == AddLeg(AddLegs(t, legs[..i]).value, legs[i])
    decreases |legs|
  {
    hide AddLeg;
    if i != 0 {
      assert legs[..i][1..] == legs[1..][..i - 1] && legs[..i][0] == legs[0];
      FaultAt(AddLeg(t, legs[0]).value, legs[1..], i - 1);
    }
  }

  lemma {:induction false} TotalSnoc(legs: seq<EntryLeg>, leg: EntryLeg, d: Direction)
    ensures TotalOf(legs + [leg], d) == TotalOf(legs, d) + if leg.direction == d then leg.amount else 0
  {
    if legs == [] {
      assert ([] + [leg])[1..] == [];
    } else {
      assert (legs + [leg])[1..] == legs[1..] + [leg];
      TotalSnoc(legs[1..], leg, d);
    }
  }

  /** Adding leg `i` to the totals of the legs before it. */
  lemma NextFault(legs: seq<EntryLeg>, i: nat)
    requires i < |legs|
    ensures AddLegs(Totals(0, 0), legs[..i]).Ok? <==> Clean(legs[..i])
    ensures Clean(legs[..i]) ==>
            var r := AddLeg(AddLegs(Totals(0, 0), legs[..i]).value, legs[i]);
            && (r == Err(ZeroAmountLeg) <==> ZeroAt(legs, i))
            && (r == Err(AmountOverflow) <==> OverflowAt(legs, i))
  {
    hide AddLegs;
    AddLegsMeaning(Totals(0, 0), legs[..i]);
    assert legs[..i + 1] == legs[..i] + [legs[i]];
    TotalSnoc(legs[..i], legs[i], Debit);
    TotalSnoc(legs[..i], legs[i], Credit);
    assert Clean(legs[..i]) && legs[i].amount > 0 ==> Positive(legs[..i + 1]);
  }

  /** A zero amount is reported exactly if it is met before any overflow, an overflow exactly if it
      is met before any zero amount. */
  lemma ShapeFaults(tx: Transaction)
    ensures ShapeOf(tx) == Err(ZeroAmountLeg) <==> |tx.legs| >= 2 && exists i: nat :: ZeroAt(tx.legs, i)
    ensures ShapeOf(tx) == Err(AmountOverflow) <==> |tx.legs| >= 2 && exists i: nat :: OverflowAt(tx.legs, i)
  {
    hide AddLegs, AddLeg, ZeroAt, OverflowAt, Clean;
    var start := Totals(0, 0);
    AddLegsMeaning(start, tx.legs);
    if AddLegs(start, tx.legs).Err? {
      var i := FirstFault(start, tx.legs);
      NextFault(tx.legs, i);
    }
    if i: nat :| ZeroAt(tx.legs, i) || OverflowAt(tx.legs, i) {
      FaultRange(tx.legs, i);
      NextFault(tx.legs, i);
      FaultAt(start, tx.legs, i);
      forall j: nat | ZeroAt(tx.legs, j) || OverflowAt(tx.legs, j)
        ensures ZeroAt(tx.legs, j) <==> AddLegs(start, tx.legs) == Err(ZeroAmountLeg)
        ensures OverflowAt(tx.legs, j) <==> AddLegs(start, tx.legs) == Err(AmountOverflow)
      {
        FaultRange(tx.legs, j);
        NextFault(tx.legs, j);
        FaultAt(start, tx.legs, j);
      }
    }
  }

  lemma FaultRange(legs: seq<EntryLeg>, i: nat)
    requires ZeroAt(legs, i) || OverflowAt(legs, i)
    ensures i < |legs| && Clean(legs[..i])
  {
  }

  method ValidateTransactionShape(tx: Transaction) returns (r: Result<()>)
    ensures r == ShapeOf(tx)
  {
    if |tx.legs| < 2 {
      return Err(TooFewLegs);
    }
    var t := Totals(0, 0);
    var i := 0;
    while i < |tx.legs|
      invariant 0 <= i <= |tx.legs|
      invariant AddLegs(t, tx.legs[i..]) == AddLegs(Totals(0, 0), tx.legs)
    {
      var leg := tx.legs[i];
      assert tx.legs[i..][0] == leg && tx.legs[i..][1..] == tx.legs[i + 1..];
      if leg.amount <= 0 {
        return Err(ZeroAmountLeg);
      }
      var sum := CheckedAdd(if leg.direction == Debit then t.debit else t.credit, leg.amount);
      if sum.None? {
        return Err(AmountOverflow);
      }
      t := if leg.direction == Debit then t.(debit := sum.value) else t.(credit := sum.value);
      i := i + 1;
    }
    r := if t.debit != t.credit then Err(UnbalancedTransaction) else Ok(());
  }

  // ---------- Against the state ----------

  /** Debit-normal accounts may not fall below minus their overdraft limit. */
  predicate WithinFloor(a: Account) {
    IsDebitNormal(a.accountType) ==> a.balance >= 0 - a.overdraftLimit
  }

  /** Every account named by the legs is within its floor. */
  predicate TouchedWithinFloor(accounts: Accounts, legs: seq<EntryLeg>)
    requires AccountsExist(accounts, legs)
  {
    forall i :: 0 <= i < |legs| ==> WithinFloor(accounts[legs[i].accountId])
  }

  /** The verdict by execution: apply the legs one by one and look at the balances they leave. */
  function VerdictOf(accounts: Accounts, legs: seq<EntryLeg>): Result<()> {
    if !AccountsExist(accounts, legs) then Err(AccountNotFound)
    else
      ApplyLegsChart(accounts, legs);
      var after := ApplyLegs(accounts, legs).accounts;
      ExistInSameChart(accounts, after, legs);
      if TouchedWithinFloor(after, legs) then Ok(()) else Err(InsufficientFunds)
  }

  /** The change of one account's balance by the legs. */
  function NetDelta(legs: seq<EntryLeg>, id: u64, t: AccountType): int {
    if IsDebitNormal(t) then EffectIn(legs, [id]) else -EffectIn(legs, [id])
  }

  lemma {:induction false} EffectInSnoc(legs: seq<EntryLeg>, leg: EntryLeg, ids: seq<u64>)
    ensures EffectIn(legs + [leg], ids) == EffectIn(legs, ids) + if leg.accountId in ids then Effect(leg) else 0
  {
    if legs == [] {
      assert ([] + [leg])[1..] == [];
    } else {
      assert (legs + [leg])[1..] == legs[1..] + [leg];
      EffectInSnoc(legs[1..], leg, ids);
    }
  }

  lemma NetDeltaSnoc(legs: seq<EntryLeg>, k: nat, id: u64, t: AccountType)
    requires k < |legs|
    ensures NetDelta(legs[..k + 1], id, t)
         == NetDelta(legs[..k], id, t)
          + if legs[k].accountId == id then SignedDelta(t, legs[k].direction, legs[k].amount) else 0
  {
    assert legs[..k + 1] == legs[..k] + [legs[k]];
    EffectInSnoc(legs[..k], legs[k], [id]);
  }

  /** Prediction meets execution: the balance left by the legs is the old one plus the net delta. */
  lemma {:induction false} FinalBalance(accounts: Accounts, legs: seq<EntryLeg>, id: u64)
    requires AccountsExist(accounts, legs) && id in accounts
    ensures id in ApplyLegs(accounts, legs).accounts
    ensures ApplyLegs(accounts, legs).accounts[id]
         == accounts[id].(balance := accounts[id].balance + NetDelta(legs, id, accounts[id].accountType))
  {
    ApplyLegsChart(accounts, legs);
    ApplyLegsSum(accounts, legs, [id]);
    var after := ApplyLegs(accounts, legs).accounts;
    assert id in after.Keys;
    assert Sum(Weights(accounts), [id]) == Sum(Weights(accounts), []) + Weight(accounts[id]);
    assert Sum(Weights(after), [id]) == Sum(Weights(after), []) + Weight(after[id]);
  }

  // ---------- The pending-delta program ----------

  datatype PendingDelta = PendingDelta(accountId: u64, delta: int)

  /** The pending list holds exactly the accounts named so far, once each, with their net deltas. */
  ghost predicate Summarises(pending: seq<PendingDelta>, accounts: Accounts, legs: seq<EntryLeg>)
    requires AccountsExist(accounts, legs)
  {
    && |pending| <= |legs|
    && (forall i, j :: 0 <= i < j < |pending| ==> pending[i].accountId != pending[j].accountId)
    && (forall i :: 0 <= i < |pending| ==>
          && pending[i].accountId in accounts
          && pending[i].delta == NetDelta(legs, pending[i].accountId, accounts[pending[i].accountId].accountType))
    && (forall k :: 0 <= k < |legs| ==> Listed(pending, legs[k].accountId))
    && (forall i :: 0 <= i < |pending| ==> Named(legs, pending[i].accountId))
  }

  ghost predicate Listed(pending: seq<PendingDelta>, id: u64) {
    exists i :: 0 <= i < |pending| && pending[i].accountId == id
  }

  ghost predicate Named(legs: seq<EntryLeg>, id: u64) {
    exists k :: 0 <= k < |legs| && legs[k].accountId == id
  }

  /** Every value the check computes is a 64-bit value: single deltas, merged deltas, projected
      balances and negated limits. */
  ghost predicate CheckFits(accounts: Accounts, legs: seq<EntryLeg>) {
    && (forall i :: 0 <= i < |legs| ==> legs[i].amount > I64_MIN)
    && (forall k, id :: 0 <= k <= |legs| && id in accounts ==> InI64(NetDelta(legs[..k], id, accounts[id].accountType)))
    && (forall id :: id in accounts ==>
          && InI64(accounts[id].balance + NetDelta(legs, id, accounts[id].accountType))
          && InI64(0 - accounts[id].overdraftLimit))
  }

  function IndexOf(pending: seq<PendingDelta>, id: u64): (i: nat)
    ensures i <= |pending|
    ensures i < |pending| ==> pending[i].accountId == id
    ensures forall j :: 0 <= j < i ==> pending[j].accountId != id
  {
    if pending == [] then 0
    else
      var i := IndexOf(pending[..|pending| - 1], id);
      if i < |pending| - 1 then i
      else if pending[i].accountId == id then i else |pending|
  }

  function Merged(pending: seq<PendingDelta>, id: u64, delta: int): seq<PendingDelta> {
    var i := IndexOf(pending, id);
    if i < |pending| then pending[i := PendingDelta(id, pending[i].delta + delta)]
    else pending + [PendingDelta(id, delta)]
  }

  /** Leg `i` names an asset (0) or expense (4) account that all the legs together would take below
      minus its overdraft limit. */
  predicate Overdraws(accounts: Accounts, legs: seq<EntryLeg>, i: nat) {
    && i < |legs| && legs[i].accountId in accounts
    && var a := accounts[legs[i].accountId];
    && a.accountType in {0, 4}
    && a.balance + BookedOn(legs, legs[i].accountId, Debit) - BookedOn(legs, legs[i].accountId, Credit) < 0 - a.overdraftLimit
  }

  /** The verdict on type codes and amounts: not found exactly if some account does not exist,
      insufficient funds exactly if all exist and some leg overdraws. */
  lemma VerdictByType(accounts: Accounts, legs: seq<EntryLeg>)
    ensures VerdictOf(accounts, legs) == Err(AccountNotFound) <==> exists i :: 0 <= i < |legs| && legs[i].accountId !in accounts
    ensures VerdictOf(accounts, legs) == Err(InsufficientFunds) <==>
            AccountsExist(accounts, legs) && exists i: nat :: Overdraws(accounts, legs, i)
    ensures VerdictOf(accounts, legs) == Ok(()) <==>
            AccountsExist(accounts, legs) && forall i: nat :: !Overdraws(accounts, legs, i)
  {
    if AccountsExist(accounts, legs) {
      hide ApplyLegs, BookedOn;
      ApplyLegsChart(accounts, legs);
      var after := ApplyLegs(accounts, legs).accounts;
      ExistInSameChart(accounts, after, legs);
      forall i: nat | i < |legs| ensures WithinFloor(after[legs[i].accountId]) <==> !Overdraws(accounts, legs, i) {
        BalanceAfterLegs(accounts, legs, legs[i].accountId);
      }
    }
  }

  /** A two-leg transfer between two accounts is accepted exactly if the balances it leaves are
      within their floors. */
  lemma TransferVerdict(accounts: Accounts, debited: u64, credited: u64, amount: i64)
    requires debited in accounts && credited in accounts && debited != credited
    ensures var d, c := accounts[debited], accounts[credited];
            VerdictOf(accounts, [EntryLeg(debited, Debit, amount), EntryLeg(credited, Credit, amount)]).Ok? <==>
              && (IsDebitNormal(d.accountType) ==> d.balance + amount >= 0 - d.overdraftLimit)
              && (IsDebitNormal(c.accountType) ==> c.balance - amount >= 0 - c.overdraftLimit)
  {
    var legs := [EntryLeg(debited, Debit, amount), EntryLeg(credited, Credit, amount)];
    assert legs[1..] == [legs[1]] && legs[1..][1..] == [];
    ApplyLegsChart(accounts, legs);
    FinalBalance(accounts, legs, debited);
    FinalBalance(accounts, legs, credited);
    assert EffectIn(legs, [debited]) == Effect(legs[0]) && EffectIn(legs, [credited]) == Effect(legs[1]) by {
      assert EffectIn(legs[1..], [debited]) == EffectIn([], [debited]);
      assert EffectIn(legs[1..], [credited]) == Effect(legs[1]) + EffectIn([], [credited]);
    }
    assert AccountsExist(accounts, legs);
    var after := ApplyLegs(accounts, legs).accounts;
    ExistInSameChart(accounts, after, legs);
    assert TouchedWithinFloor(after, legs) <==> WithinFloor(after[legs[0].accountId]) && WithinFloor(after[legs[1].accountId]);
  }

  lemma MergedSummarises(pending: seq<PendingDelta>, accounts: Accounts, legs: seq<EntryLeg>, k: nat)
    requires AccountsExist(accounts, legs) && k < |legs| && Summarises(pending, accounts, legs[..k])
    ensures var leg := legs[k];
            Summarises(Merged(pending, leg.accountId, SignedDelta(accounts[leg.accountId].accountType, leg.direction, leg.amount)),
                       accounts, legs[..k + 1])
  {
    var leg := legs[k];
    var id := leg.accountId;
    var next := Merged(pending, id, SignedDelta(accounts[id].accountType, leg.direction, leg.amount));
    var at := IndexOf(pending, id);
    forall i | 0 <= i < |next|
      ensures next[i].accountId in accounts
      ensures next[i].delta == NetDelta(legs[..k + 1], next[i].accountId, accounts[next[i].accountId].accountType)
      ensures Named(legs[..k + 1], next[i].accountId)
    {
      var t := accounts[next[i].accountId].accountType;
      NetDeltaSnoc(legs, k, next[i].accountId, t);
      if i != at {
        var j :| 0 <= j < k && legs[..k][j].accountId == pending[i].accountId;
        assert legs[..k + 1][j].accountId == next[i].accountId;
      } else {
        assert legs[..k + 1][k].accountId == id;
        if at == |pending| {
          NotListedNoDelta(pending, legs[..k], id, t);
        }
      }
    }
    var some := legs[..k + 1];
    forall j | 0 <= j < |some| ensures Listed(next, some[j].accountId) {
      if j < k {
        assert legs[..k][j] == some[j];
        var i :| 0 <= i < |pending| && pending[i].accountId == some[j].accountId;
        assert next[i].accountId == some[j].accountId;
      } else {
        assert next[at].accountId == id;
      }
    }
  }

  lemma NotListedNoDelta(pending: seq<PendingDelta>, legs: seq<EntryLeg>, id: u64, t: AccountType)
    requires forall k :: 0 <= k < |legs| ==> Listed(pending, legs[k].accountId)
    requires forall i :: 0 <= i < |pending| ==> pending[i].accountId != id
    ensures NetDelta(legs, id, t) == 0
  {
    forall k | 0 <= k < |legs| ensures legs[k].accountId != id {
      assert Listed(pending, legs[k].accountId);
    }
    NoEffect(legs, id);
  }

  lemma {:induction false} NoEffect(legs: seq<EntryLeg>, id: u64)
    requires forall k :: 0 <= k < |legs| ==> legs[k].accountId != id
    ensures EffectIn(legs, [id]) == 0
  {
    if legs != [] {
      NoEffect(legs[1..], id);
    }
  }

  /** Looking at each pending account once is looking at the balances the legs would leave. */
  lemma PendingDecides(pending: seq<PendingDelta>, accounts: Accounts, legs: seq<EntryLeg>)
    requires AccountsExist(accounts, legs) && Summarises(pending, accounts, legs)
    ensures VerdictOf(accounts, legs) == if AllProjectedFine(pending, accounts) then Ok(()) else Err(InsufficientFunds)
  {
    ApplyLegsChart(accounts, legs);
    var after := ApplyLegs(accounts, legs).accounts;
    ExistInSameChart(accounts, after, legs);
    if AllProjectedFine(pending, accounts) {
      forall k | 0 <= k < |legs| ensures WithinFloor(after[legs[k].accountId]) {
        assert Listed(pending, legs[k].accountId);
        var i :| 0 <= i < |pending| && pending[i].accountId == legs[k].accountId;
        FinalBalance(accounts, legs, legs[k].accountId);
        assert ProjectedFine(pending[i], accounts);
      }
    } else {
      var i :| 0 <= i < |pending| && !ProjectedFine(pending[i], accounts);
      assert Named(legs, pending[i].accountId);
      var k :| 0 <= k < |legs| && legs[k].accountId == pending[i].accountId;
      FinalBalance(accounts, legs, legs[k].accountId);
    }
  }

  predicate ProjectedFine(p: PendingDelta, accounts: Accounts) {
    p.accountId in accounts ==>
      WithinFloor(accounts[p.accountId].(balance := accounts[p.accountId].balance + p.delta))
  }

  predicate AllProjectedFine(pending: seq<PendingDelta>, accounts: Accounts) {
    forall i :: 0 <= i < |pending| ==> ProjectedFine(pending[i], accounts)
  }

  /** The inner loop: merges a delta into the first entry of the same account, or appends one. */
  method AddPending(pending: array<PendingDelta>, count: nat, id: u64, delta: int)
    returns (newCount: nat, ghost fits: bool)
    requires count < pending.Length
    modifies pending
    ensures newCount <= count + 1 && pending[..newCount] == Merged(old(pending[..count]), id, delta)
    ensures fits <==> InI64(pending[IndexOf(old(pending[..count]), id)].delta)
  {
    ghost var before := pending[..count];
    var i := 0;
    while i < count
      invariant 0 <= i <= count
      invariant pending[..count] == before
      invariant forall j :: 0 <= j < i ==> pending[j].accountId != id
    {
      if pending[i].accountId == id {
        FirstIndex(before, id, i);
        pending[i] := PendingDelta(id, pending[i].delta + delta);
        return count, InI64(pending[i].delta);
      }
      i := i + 1;
    }
    FirstIndex(before, id, count);
    pending[count] := PendingDelta(id, delta);
    newCount, fits := count + 1, InI64(delta);
  }

  lemma FirstIndex(pending: seq<PendingDelta>, id: u64, i: nat)
    requires i <= |pending| && forall j :: 0 <= j < i ==> pending[j].accountId != id
    requires i < |pending| ==> pending[i].accountId == id
    ensures IndexOf(pending, id) == i
  {
  }

  /** The first loop: the net delta of every account named by the legs. */
  method CollectPending(legs: LegList, accounts: Accounts, pending: array<PendingDelta>)
    returns (found: bool, count: nat, ghost fits: bool)
    requires pending.Length == MAX_LEGS
    modifies pending
    ensures found <==> AccountsExist(accounts, legs)
    ensures count <= pending.Length && (found ==> Summarises(pending[..count], accounts, legs))
    ensures CheckFits(accounts, legs) ==> fits
  {
    hide NetDelta, Listed, Named, IndexOf;
    count, fits := 0, true;
    var k := 0;
    while k < |legs|
      invariant 0 <= k <= |legs| && count <= k
      invariant AccountsExist(accounts, legs[..k])
      invariant Summarises(pending[..count], accounts, legs[..k])
      invariant CheckFits(accounts, legs) ==> fits
    {
      var leg := legs[k];
      if leg.accountId !in accounts {
        return false, count, fits;
      }
      var delta := SignedDelta(accounts[leg.accountId].accountType, leg.direction, leg.amount);
      StepSummarises(pending[..count], accounts, legs, k);
      MergeFits(pending[..count], accounts, legs, k, delta);
      ghost var stepFits;
      count, stepFits := AddPending(pending, count, leg.accountId, delta);
      fits := fits && InI64(delta) && stepFits;
      k := k + 1;
    }
    assert legs[..k] == legs;
    found := true;
  }

  lemma MergeFits(pending: seq<PendingDelta>, accounts: Accounts, legs: seq<EntryLeg>, k: nat, delta: int)
    requires k < |legs| && AccountsExist(accounts, legs[..k + 1])
    requires var leg := legs[k];
             && delta == SignedDelta(accounts[leg.accountId].accountType, leg.direction, leg.amount)
             && Summarises(Merged(pending, leg.accountId, delta), accounts, legs[..k + 1])
    ensures CheckFits(accounts, legs) ==>
              InI64(delta) && InI64(Merged(pending, legs[k].accountId, delta)[IndexOf(pending, legs[k].accountId)].delta)
  {
    var id := legs[k].accountId;
    assert legs[..k + 1][k] == legs[k];
    var entry := Merged(pending, id, delta)[IndexOf(pending, id)];
    assert entry.accountId == id;
    assert entry.delta == NetDelta(legs[..k + 1], id, accounts[id].accountType);
  }

  /** The second loop: every projected balance against its floor. */
  method CheckPending(pending: array<PendingDelta>, count: nat, accounts: Accounts)
    returns (fine: bool, ghost fits: bool)
    requires count <= pending.Length
    requires forall i :: 0 <= i < count ==> pending[i].accountId in accounts
    ensures fine <==> AllProjectedFine(pending[..count], accounts)
    ensures ProjectionsFit(pending[..count], accounts) ==> fits
  {
    fits := true;
    var i := 0;
    while i < count
      invariant 0 <= i <= count
      invariant AllProjectedFine(pending[..i], accounts)
      invariant ProjectionsFit(pending[..count], accounts) ==> fits
    {
      var a := accounts[pending[i].accountId];
      var projected := a.balance + pending[i].delta;
      assert pending[..count][i] == pending[i];
      fits := fits && InI64(projected) && InI64(0 - a.overdraftLimit);
      if IsDebitNormal(a.accountType) && projected < 0 - a.overdraftLimit {
        assert !ProjectedFine(pending[..count][i], accounts);
        return false, fits;
      }
      i := i + 1;
    }
    fine := true;
  }

  ghost predicate ProjectionsFit(pending: seq<PendingDelta>, accounts: Accounts) {
    forall i :: 0 <= i < |pending| && pending[i].accountId in accounts ==>
      && InI64(accounts[pending[i].accountId].balance + pending[i].delta)
      && InI64(0 - accounts[pending[i].accountId].overdraftLimit)
  }

  /** The check by prediction gives the verdict of execution, on every state and transaction. */
  method ValidateTransactionAgainstState(tx: Transaction, accounts: Accounts) returns (r: Result<()>, ghost fits: bool)
    ensures r == VerdictOf(accounts, tx.legs)
    ensures CheckFits(accounts, tx.legs) ==> fits
  {
    var pending := new PendingDelta[MAX_LEGS](_ => PendingDelta(0, 0));
    var found, count;
    found, count, fits := CollectPending(tx.legs, accounts, pending);
    if !found {
      return Err(AccountNotFound), fits;
    }
    PendingDecides(pending[..count], accounts, tx.legs);
    assert CheckFits(accounts, tx.legs) ==> ProjectionsFit(pending[..count], accounts) by {
      assert tx.legs[..|tx.legs|] == tx.legs;
    }
    assert forall i :: 0 <= i < count ==> pending[i] == pending[..count][i];
    var fine;
    ghost var checkFits;
    fine, checkFits := CheckPending(pending, count, accounts);
    fits := fits && checkFits;
    r := if fine then Ok(()) else Err(InsufficientFunds);
  }

  lemma StepSummarises(pending: seq<PendingDelta>, accounts: Accounts, legs: seq<EntryLeg>, k: nat)
    requires k < |legs| && AccountsExist(accounts, legs[..k]) && legs[k].accountId in accounts
    requires Summarises(pending, accounts, legs[..k])
    ensures AccountsExist(accounts, legs[..k + 1])
    ensures var leg := legs[k];
            Summarises(Merged(pending, leg.accountId, SignedDelta(accounts[leg.accountId].accountType, leg.direction, leg.amount)),
                       accounts, legs[..k + 1])
  {
    var some := legs[..k + 1];
    forall i | 0 <= i < |some| ensures some[i].accountId in accounts {
      if i < k {
        assert some[i] == legs[..k][i];
      }
    }
    assert some[..k] == legs[..k] && some[..k + 1] == some;
    MergedSummarises(pending, accounts, some, k);
  }

  // ---------- Overdraft safety ----------

  ghost predicate AllWithinFloor(accounts: Accounts) {
    forall id :: id in accounts ==> WithinFloor(accounts[id])
  }

  /** An accepted transaction keeps every account within its floor. */
  lemma AcceptedKeepsFloor(accounts: Accounts, legs: seq<EntryLeg>)
    requires AllWithinFloor(accounts) && VerdictOf(accounts, legs).Ok?
    ensures AllWithinFloor(ApplyLegs(accounts, legs).accounts)
  {
    ApplyLegsChart(accounts, legs);
    var after := ApplyLegs(accounts, legs).accounts;
    ExistInSameChart(accounts, after, legs);
    forall id | id in after ensures WithinFloor(after[id]) {
      assert id in accounts.Keys;
      FinalBalance(accounts, legs, id);
      if Named(legs, id) {
        var k :| 0 <= k < |legs| && legs[k].accountId == id;
        assert WithinFloor(after[legs[k].accountId]);
      } else {
        NoEffect(legs, id);
      }
    }
  }
}
