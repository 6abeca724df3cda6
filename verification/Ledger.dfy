/** Account balances and how transactions change them (src/ledger_state.cpp). */
module Ledger {
  import opened Types
  import opened Sums

  type Accounts = map<u64, Account>

  /** The value of a `LedgerState`. */
  datatype State = State(accounts: Accounts, lastId: u64)

  const EMPTY: State := State(map[], 0)

  // ---------- Applying legs ----------

  function ApplyLeg(accounts: Accounts, leg: EntryLeg): Accounts
    requires leg.accountId in accounts
  {
    var a := accounts[leg.accountId];
    accounts[leg.accountId := a.(balance := a.balance + SignedDelta(a.accountType, leg.direction, leg.amount))]
  }

  /** Legs are applied in order; the first one whose account is missing stops the work half way. */
  datatype Applied = Applied(accounts: Accounts, complete: bool)

  function ApplyLegs(accounts: Accounts, legs: seq<EntryLeg>): Applied {
    if legs == [] then Applied(accounts, true)
    else if legs[0].accountId !in accounts then Applied(accounts, false)
    else ApplyLegs(ApplyLeg(accounts, legs[0]), legs[1..])
  }

  function ApplyTx(s: State, tx: Transaction): (State, Result<()>) {
    var r := ApplyLegs(s.accounts, tx.legs);
    if !r.complete then (State(r.accounts, s.lastId), Err(AccountNotFound))
    else (State(r.accounts, if tx.id > s.lastId then tx.id else s.lastId), Ok(()))
  }

  function After(s: State, tx: Transaction): State {
    ApplyTx(s, tx).0
  }

  /** Every transaction in turn. */
  function Replay(s: State, txs: seq<Transaction>): State {
    if txs == [] then s else After(Replay(s, txs[..|txs| - 1]), txs[|txs| - 1])
  }

  predicate AccountsExist(accounts: Accounts, legs: seq<EntryLeg>) {
    forall i :: 0 <= i < |legs| ==> legs[i].accountId in accounts
  }

  lemma ReplaySnoc(s: State, txs: seq<Transaction>, tx: Transaction)
    ensures Replay(s, txs + [tx]) == After(Replay(s, txs), tx)
  {
    assert (txs + [tx])[..|txs|] == txs;
  }

  lemma {:induction false} ReplayConcat(s: State, a: seq<Transaction>, b: seq<Transaction>)
    ensures Replay(s, a + b) == Replay(Replay(s, a), b)
  {
    if b == [] {
      assert a + b == a;
    } else {
      assert (a + b)[..|a + b| - 1] == a + b[..|b| - 1];
      ReplayConcat(s, a, b[..|b| - 1]);
    }
  }

  // ---------- What applying keeps ----------

  /** The same accounts with the same types and limits; only balances may differ. */
  ghost predicate SameChart(a: Accounts, b: Accounts) {
    a.Keys == b.Keys && forall id :: id in a ==> b[id] == a[id].(balance := b[id].balance)
  }

  lemma {:induction false} ApplyLegsChart(accounts: Accounts, legs: seq<EntryLeg>)
    ensures SameChart(accounts, ApplyLegs(accounts, legs).accounts)
    ensures ApplyLegs(accounts, legs).complete <==> AccountsExist(accounts, legs)
  {
    if legs != [] {
      if legs[0].accountId in accounts {
        var next := ApplyLeg(accounts, legs[0]);
        assert next.Keys == accounts.Keys;
        ApplyLegsChart(next, legs[1..]);
        assert forall i :: 1 <= i < |legs| ==> legs[i] == legs[1..][i - 1];
      }
    }
  }

  lemma {:induction false} ReplayChart(s: State, txs: seq<Transaction>)
    ensures SameChart(s.accounts, Replay(s, txs).accounts)
  {
    if txs != [] {
      var n := |txs| - 1;
      ReplayChart(s, txs[..n]);
      ApplyLegsChart(Replay(s, txs[..n]).accounts, txs[n].legs);
    }
  }

  // ---------- Conservation ----------

  /** An account's contribution to debit-normal total minus credit-normal total. */
  function Weight(a: Account): int {
    if IsDebitNormal(a.accountType) then a.balance else -a.balance
  }

  function Weights(accounts: Accounts): map<u64, int> {
    map id | id in accounts :: Weight(accounts[id])
  }

  function Effect(leg: EntryLeg): int {
    if leg.direction == Debit then leg.amount else 0 - leg.amount
  }

  /** What the legs move into the given accounts, on balance. */
  function EffectIn(legs: seq<EntryLeg>, ids: seq<u64>): int {
    if legs == [] then 0
    else (if legs[0].accountId in ids then Effect(legs[0]) else 0) + EffectIn(legs[1..], ids)
  }

  function TotalOf(legs: seq<EntryLeg>, d: Direction): int {
    if legs == [] then 0
    else (if legs[0].direction == d then legs[0].amount else 0) + TotalOf(legs[1..], d)
  }

  predicate BalancedLegs(legs: seq<EntryLeg>) {
    TotalOf(legs, Debit) == TotalOf(legs, Credit)
  }

  /** A leg changes any sum over accounts by its effect, whatever the type of its account. */
  lemma ApplyLegSum(accounts: Accounts, leg: EntryLeg, ids: seq<u64>)
    requires leg.accountId in accounts && Distinct(ids)
    ensures Sum(Weights(ApplyLeg(accounts, leg)), ids)
         == Sum(Weights(accounts), ids) + if leg.accountId in ids then Effect(leg) else 0
  {
    var id := leg.accountId;
    var v := Weight(accounts[id]) + Effect(leg);
    assert Weights(ApplyLeg(accounts, leg)) == Weights(accounts)[id := v];
    SumUpdate(Weights(accounts), ids, id, v);
  }

  lemma {:induction false} ApplyLegsSum(accounts: Accounts, legs: seq<EntryLeg>, ids: seq<u64>)
    requires AccountsExist(accounts, legs) && Distinct(ids)
    ensures Sum(Weights(ApplyLegs(accounts, legs).accounts), ids) == Sum(Weights(accounts), ids) + EffectIn(legs, ids)
    decreases |legs|
  {
    if legs != [] {
      ApplyLegSum(accounts, legs[0], ids);
      ApplyLegsSum(ApplyLeg(accounts, legs[0]), legs[1..], ids);
    }
  }

  lemma {:induction false} EffectEverywhere(legs: seq<EntryLeg>, ids: seq<u64>)
    requires forall i :: 0 <= i < |legs| ==> legs[i].accountId in ids
    ensures EffectIn(legs, ids) == TotalOf(legs, Debit) - TotalOf(legs, Credit)
  {
    if legs != [] {
      EffectEverywhere(legs[1..], ids);
    }
  }

  /** Debit-normal total minus credit-normal total. */
  ghost function Imbalance(accounts: Accounts): int {
    Total(Weights(accounts))
  }

  lemma ApplyLegsDrift(accounts: Accounts, legs: seq<EntryLeg>)
    requires AccountsExist(accounts, legs)
    ensures Imbalance(ApplyLegs(accounts, legs).accounts)
         == Imbalance(accounts) + TotalOf(legs, Debit) - TotalOf(legs, Credit)
  {
    hide AnyOrder, Weight, EffectIn;
    var order := AnyOrder(accounts.Keys);
    var after := ApplyLegs(accounts, legs).accounts;
    ApplyLegsChart(accounts, legs);
    ApplyLegsSum(accounts, legs, order);
    EffectEverywhere(legs, order);
    TotalIs(Weights(accounts), order);
    TotalIs(Weights(after), order);
  }

  /** Every transaction is balanced and names existing accounts. */
  ghost predicate Sound(accounts: Accounts, txs: seq<Transaction>) {
    forall i :: 0 <= i < |txs| ==> BalancedLegs(txs[i].legs) && AccountsExist(accounts, txs[i].legs)
  }

  ghost predicate AllExist(accounts: Accounts, txs: seq<Transaction>) {
    forall i :: 0 <= i < |txs| ==> AccountsExist(accounts, txs[i].legs)
  }

  lemma ExistInSameChart(a: Accounts, b: Accounts, legs: seq<EntryLeg>)
    requires SameChart(a, b) && AccountsExist(a, legs)
    ensures AccountsExist(b, legs)
  {
    forall i | 0 <= i < |legs| ensures legs[i].accountId in b {
      assert legs[i].accountId in a.Keys;
    }
  }

  /** Debits minus credits of all the transactions together. */
  function Drift(txs: seq<Transaction>): int {
    if txs == [] then 0
    else Drift(txs[..|txs| - 1]) + TotalOf(txs[|txs| - 1].legs, Debit) - TotalOf(txs[|txs| - 1].legs, Credit)
  }

  /** A run moves the imbalance of the books by what its transactions are out of balance in sum. */
  lemma {:induction false} ReplayDrift(s: State, txs: seq<Transaction>)
    requires AllExist(s.accounts, txs)
    ensures Imbalance(Replay(s, txs).accounts) == Imbalance(s.accounts) + Drift(txs)
  {
    hide Imbalance;
    if txs != [] {
      var n := |txs| - 1;
      var before := Replay(s, txs[..n]);
      ReplayDrift(s, txs[..n]);
      ReplayChart(s, txs[..n]);
      ExistInSameChart(s.accounts, before.accounts, txs[n].legs);
      ApplyLegsDrift(before.accounts, txs[n].legs);
    }
  }

  lemma {:induction false} NoDrift(accounts: Accounts, txs: seq<Transaction>)
    requires Sound(accounts, txs)
    ensures Drift(txs) == 0
  {
    if txs != [] {
      NoDrift(accounts, txs[..|txs| - 1]);
    }
  }

  /** Conservation: no run of balanced transactions changes the imbalance of the books. */
  lemma ReplayConserves(s: State, txs: seq<Transaction>)
    requires Sound(s.accounts, txs)
    ensures Imbalance(Replay(s, txs).accounts) == Imbalance(s.accounts)
  {
    hide Imbalance;
    ReplayDrift(s, txs);
    NoDrift(s.accounts, txs);
  }

  /** The trial balance says less than that every transaction was balanced: two transactions that
      are out of balance in opposite directions pass it. */
  lemma OppositeErrorsPass(s: State, id: u64, amount: i64)
    requires id in s.accounts && Imbalance(s.accounts) == 0 && amount > 0
    ensures var wrong := Transaction(1, IdempotencyKey(0, 1), 0, [EntryLeg(id, Debit, amount)]);
            var alsoWrong := Transaction(2, IdempotencyKey(0, 2), 0, [EntryLeg(id, Credit, amount)]);
            && !BalancedLegs(wrong.legs) && !BalancedLegs(alsoWrong.legs)
            && Imbalance(Replay(s, [wrong, alsoWrong]).accounts) == 0
  {
    hide Imbalance, Replay;
    var wrong := Transaction(1, IdempotencyKey(0, 1), 0, [EntryLeg(id, Debit, amount)]);
    var alsoWrong := Transaction(2, IdempotencyKey(0, 2), 0, [EntryLeg(id, Credit, amount)]);
    var txs := [wrong, alsoWrong];
    OneLeg(wrong.legs[0]);
    OneLeg(alsoWrong.legs[0]);
    assert txs[..1] == [wrong] && [wrong][..0] == [];
    assert Drift([wrong]) == Drift([]) + amount;
    ReplayDrift(s, txs);
  }

  lemma OneLeg(leg: EntryLeg)
    ensures TotalOf([leg], Debit) == if leg.direction == Debit then leg.amount else 0
    ensures TotalOf([leg], Credit) == if leg.direction == Credit then leg.amount else 0
  {
    assert [leg][1..] == [];
  }

  // ---------- Trial balance ----------

  function Side(accounts: Accounts, debit: bool): map<u64, int> {
    map id | id in accounts :: if IsDebitNormal(accounts[id].accountType) == debit then accounts[id].balance else 0
  }

  lemma {:induction false} SidesAreWeights(accounts: Accounts, ids: seq<u64>)
    ensures Sum(Weights(accounts), ids) == Sum(Side(accounts, true), ids) - Sum(Side(accounts, false), ids)
  {
    if ids != [] {
      SidesAreWeights(accounts, ids[..|ids| - 1]);
    }
  }

  /** All the running totals of the trial balance are 64-bit values. */
  ghost predicate TrialFits(accounts: Accounts, order: seq<u64>) {
    forall i :: 0 <= i <= |order| ==>
      InI64(Sum(Side(accounts, true), order[..i])) && InI64(Sum(Side(accounts, false), order[..i]))
  }

  function TrialOf(accounts: Accounts, order: seq<u64>): Result<()> {
    if Sum(Side(accounts, true), order) == Sum(Side(accounts, false), order) then Ok(()) else Err(TrialBalanceMismatch)
  }

  /** The trial balance passes exactly when the imbalance is zero, in whatever order the
      accounts are visited. */
  lemma TrialIsImbalance(accounts: Accounts, order: seq<u64>)
    requires Visits(order, accounts.Keys)
    ensures TrialOf(accounts, order).Ok? <==> Imbalance(accounts) == 0
  {
    hide AnyOrder, Weight;
    SidesAreWeights(accounts, order);
    TotalIs(Weights(accounts), order);
  }

  /** After any run the trial balance passes exactly if the opening imbalance and the drift of the
      transactions cancel. */
  lemma TrialPassesIff(s: State, txs: seq<Transaction>, order: seq<u64>)
    requires AllExist(s.accounts, txs) && Visits(order, Replay(s, txs).accounts.Keys)
    ensures TrialOf(Replay(s, txs).accounts, order).Ok? <==> Imbalance(s.accounts) + Drift(txs) == 0
  {
    ReplayDrift(s, txs);
    TrialIsImbalance(Replay(s, txs).accounts, order);
  }

  method ValidateTrialBalance(accounts: Accounts, order: seq<u64>) returns (r: Result<()>, ghost fits: bool)
    requires Visits(order, accounts.Keys)
    ensures r == TrialOf(accounts, order)
    ensures r == if Imbalance(accounts) == 0 then Ok(()) else Err(TrialBalanceMismatch)
    ensures fits <==> TrialFits(accounts, order)
  {
    hide Imbalance, Sum, Side, TrialFits;
    var debitTotal, creditTotal := 0, 0;
    fits := true;
    TrialStart(accounts, order);
    var i := 0;
    while i < |order|
      invariant 0 <= i <= |order|
      invariant debitTotal == Sum(Side(accounts, true), order[..i])
      invariant creditTotal == Sum(Side(accounts, false), order[..i])
      invariant fits <==> TrialFits(accounts, order[..i])
    {
      assert order[i] in order;
      var a := accounts[order[i]];
      if IsDebitNormal(a.accountType) {
        debitTotal := debitTotal + a.balance;
      } else {
        creditTotal := creditTotal + a.balance;
      }
      fits := fits && InI64(debitTotal) && InI64(creditTotal);
      SideStep(accounts, order, i);
      TrialFitsStep(accounts, order, i);
      i := i + 1;
    }
    assert order[..i] == order;
    TrialIsImbalance(accounts, order);
    r := if debitTotal != creditTotal then Err(TrialBalanceMismatch) else Ok(());
  }

  lemma TrialStart(accounts: Accounts, order: seq<u64>)
    ensures Sum(Side(accounts, true), order[..0]) == 0 && Sum(Side(accounts, false), order[..0]) == 0
    ensures TrialFits(accounts, order[..0])
  {
  }

  lemma SideStep(accounts: Accounts, order: seq<u64>, i: nat)
    requires i < |order| && order[i] in accounts
    ensures var a := accounts[order[i]];
            && Sum(Side(accounts, true), order[..i + 1])
                 == Sum(Side(accounts, true), order[..i]) + (if IsDebitNormal(a.accountType) then a.balance else 0)
            && Sum(Side(accounts, false), order[..i + 1])
                 == Sum(Side(accounts, false), order[..i]) + (if IsDebitNormal(a.accountType) then 0 else a.balance)
  {
    assert order[..i + 1][..i] == order[..i];
  }

  lemma TrialFitsStep(accounts: Accounts, order: seq<u64>, i: nat)
    requires i < |order|
    ensures order[..i + 1][..i] == order[..i]
    ensures TrialFits(accounts, order[..i + 1])
       <==> (&& TrialFits(accounts, order[..i])
             && InI64(Sum(Side(accounts, true), order[..i + 1]))
             && InI64(Sum(Side(accounts, false), order[..i + 1])))
  {
    hide Sum, Side, InI64;
    var long, short := order[..i + 1], order[..i];
    assert forall j :: 0 <= j <= i ==> long[..j] == short[..j];
    assert long[..i + 1] == long;
  }

  // ---------- In terms of account type codes ----------

  /** The amounts of the legs of one direction on one account. */
  function BookedOn(legs: seq<EntryLeg>, id: u64, d: Direction): int {
    if legs == [] then 0
    else (if legs[0].accountId == id && legs[0].direction == d then legs[0].amount else 0) + BookedOn(legs[1..], id, d)
  }

  /** The sign rule on the codes of the type enumeration. Asset (0) and Expense (4) grow by debits and
      shrink by credits. Liability (1), Equity (2), Revenue (3), and any other code a snapshot may
      bring, grow by credits and shrink by debits. */
  function BookedBalance(code: AccountType, opening: int, debits: int, credits: int): int {
    if code in {0, 4} then opening + debits - credits else opening - debits + credits
  }

  lemma {:induction false} BalanceAfterLegs(accounts: Accounts, legs: seq<EntryLeg>, id: u64)
    requires AccountsExist(accounts, legs) && id in accounts
    ensures var a := accounts[id];
            id in ApplyLegs(accounts, legs).accounts && ApplyLegs(accounts, legs).accounts[id]
              == a.(balance := BookedBalance(a.accountType, a.balance, BookedOn(legs, id, Debit), BookedOn(legs, id, Credit)))
    decreases |legs|
  {
    if legs != [] {
      var next := ApplyLeg(accounts, legs[0]);
      assert forall i :: 0 <= i < |legs[1..]| ==> legs[1..][i] == legs[i + 1];
      BalanceAfterLegs(next, legs[1..], id);
    }
  }

  function BookedByAll(txs: seq<Transaction>, id: u64, d: Direction): int {
    if txs == [] then 0 else BookedByAll(txs[..|txs| - 1], id, d) + BookedOn(txs[|txs| - 1].legs, id, d)
  }

  /** After any run every account stands at its opening balance, plus all debits and minus all credits
      on it if it is an asset or expense account, the other way round if it is not. */
  lemma {:induction false} BalanceAfterRun(s: State, txs: seq<Transaction>, id: u64)
    requires AllExist(s.accounts, txs) && id in s.accounts
    ensures var a := s.accounts[id];
            id in Replay(s, txs).accounts && Replay(s, txs).accounts[id]
              == a.(balance := BookedBalance(a.accountType, a.balance, BookedByAll(txs, id, Debit), BookedByAll(txs, id, Credit)))
  {
    hide ApplyLegs, BookedOn;
    if txs != [] {
      var n := |txs| - 1;
      var before := Replay(s, txs[..n]);
      BalanceAfterRun(s, txs[..n], id);
      ReplayChart(s, txs[..n]);
      ExistInSameChart(s.accounts, before.accounts, txs[n].legs);
      BalanceAfterLegs(before.accounts, txs[n].legs, id);
    }
  }

  /** The balances of the visited asset and expense accounts, or of all the others. */
  function HeldBy(accounts: Accounts, order: seq<u64>, assets: bool): int {
    if order == [] then 0
    else
      var id := order[|order| - 1];
      HeldBy(accounts, order[..|order| - 1], assets)
      + if id in accounts && (accounts[id].accountType in {0, 4}) == assets then accounts[id].balance else 0
  }

  lemma {:induction false} SideIsHeld(accounts: Accounts, order: seq<u64>, assets: bool)
    ensures Sum(Side(accounts, assets), order) == HeldBy(accounts, order, assets)
  {
    if order != [] {
      SideIsHeld(accounts, order[..|order| - 1], assets);
    }
  }

  /** The trial balance compares what asset and expense accounts hold with what the others hold. */
  lemma TrialByType(accounts: Accounts, order: seq<u64>)
    requires Visits(order, accounts.Keys)
    ensures TrialOf(accounts, order) == Ok(()) <==> HeldBy(accounts, order, true) == HeldBy(accounts, order, false)
    ensures Imbalance(accounts) == HeldBy(accounts, order, true) - HeldBy(accounts, order, false)
  {
    hide AnyOrder, Side, HeldBy;
    SideIsHeld(accounts, order, true);
    SideIsHeld(accounts, order, false);
    SidesAreWeights(accounts, order);
    TotalIs(Weights(accounts), order);
  }

  // ---------- Ids and missing accounts ----------

  /** The last id is the largest one seen, in whatever order the ids come. */
  lemma {:induction false} LastIdIsLargest(s: State, txs: seq<Transaction>)
    requires AllExist(s.accounts, txs)
    ensures Replay(s, txs).lastId >= s.lastId
    ensures forall i :: 0 <= i < |txs| ==> txs[i].id <= Replay(s, txs).lastId
    ensures Replay(s, txs).lastId == s.lastId || exists i :: 0 <= i < |txs| && txs[i].id == Replay(s, txs).lastId
  {
    hide ApplyLegs;
    if txs != [] {
      var n := |txs| - 1;
      var before := Replay(s, txs[..n]);
      LastIdIsLargest(s, txs[..n]);
      ReplayChart(s, txs[..n]);
      ExistInSameChart(s.accounts, before.accounts, txs[n].legs);
      ApplyLegsChart(before.accounts, txs[n].legs);
      assert forall i :: 0 <= i < n ==> txs[i] == txs[..n][i];
      if Replay(s, txs).lastId != txs[n].id && before.lastId != s.lastId {
        var i :| 0 <= i < n && txs[..n][i].id == before.lastId;
        assert txs[i].id == before.lastId;
      }
    }
  }

  lemma {:induction false} StopsAt(accounts: Accounts, legs: seq<EntryLeg>, k: nat)
    requires k < |legs| && AccountsExist(accounts, legs[..k]) && legs[k].accountId !in accounts
    ensures ApplyLegs(accounts, legs) == Applied(ApplyLegs(accounts, legs[..k]).accounts, false)
    decreases |legs|
  {
    if k != 0 {
      assert legs[..k][0] == legs[0] && legs[..k][1..] == legs[1..][..k - 1];
      var next := ApplyLeg(accounts, legs[0]);
      var front := legs[1..][..k - 1];
      forall i | 0 <= i < |front| ensures front[i].accountId in next {
        assert front[i] == legs[..k][i + 1];
      }
      StopsAt(next, legs[1..], k - 1);
    }
  }

  /** A transaction that names a missing account is applied up to that leg and no further, reports
      the account as not found and leaves the last id alone. */
  lemma MissingAccountStops(s: State, tx: Transaction, k: nat)
    requires k < |tx.legs| && AccountsExist(s.accounts, tx.legs[..k]) && tx.legs[k].accountId !in s.accounts
    ensures ApplyTx(s, tx) == (State(ApplyLegs(s.accounts, tx.legs[..k]).accounts, s.lastId), Err(AccountNotFound))
  {
    StopsAt(s.accounts, tx.legs, k);
  }

  // ---------- The state object ----------

  /** Every delta and every balance written while the legs are applied is a 64-bit value. */
  ghost predicate ApplyFits(accounts: Accounts, legs: seq<EntryLeg>)
    decreases |legs|
  {
    legs != [] && legs[0].accountId in accounts ==>
      && InI64(SignedDelta(accounts[legs[0].accountId].accountType, legs[0].direction, legs[0].amount))
      && InI64(ApplyLeg(accounts, legs[0])[legs[0].accountId].balance)
      && ApplyFits(ApplyLeg(accounts, legs[0]), legs[1..])
  }

  class LedgerState {
    var accounts: Accounts
    var lastAppliedId: u64

    ghost function Value(): State
      reads this
    {
      State(accounts, lastAppliedId)
    }

    constructor (s: State)
      ensures Value() == s
    {
      accounts, lastAppliedId := s.accounts, s.lastId;
    }

    /** Registers an account unless its id is taken; a taken id keeps its account. */
    method AddAccount(a: Account) returns (added: bool)
      modifies this`accounts
      ensures added == (a.id !in old(accounts))
      ensures accounts == if added then old(accounts)[a.id := a] else old(accounts)
    {
      added := a.id !in accounts;
      if added {
        accounts := accounts[a.id := a];
      }
    }

    method Apply(tx: Transaction) returns (r: Result<()>, ghost fits: bool)
      modifies this
      ensures (Value(), r) == ApplyTx(old(Value()), tx)
      ensures ApplyFits(old(accounts), tx.legs) ==> fits
    {
      fits := true;
      var i := 0;
      while i < |tx.legs|
        invariant 0 <= i <= |tx.legs|
        invariant lastAppliedId == old(lastAppliedId)
        invariant ApplyLegs(accounts, tx.legs[i..]) == ApplyLegs(old(accounts), tx.legs)
        invariant ApplyFits(old(accounts), tx.legs) ==> fits && ApplyFits(accounts, tx.legs[i..])
      {
        var leg := tx.legs[i];
        assert tx.legs[i..][0] == leg && tx.legs[i..][1..] == tx.legs[i + 1..];
        if leg.accountId !in accounts {
          return Err(AccountNotFound), fits;
        }
        var a := accounts[leg.accountId];
        var delta := SignedDelta(a.accountType, leg.direction, leg.amount);
        var balance := a.balance + delta;
        fits := fits && InI64(delta) && InI64(balance);
        accounts := accounts[leg.accountId := a.(balance := balance)];
        i := i + 1;
      }
      if tx.id > lastAppliedId {
        lastAppliedId := tx.id;
      }
      r := Ok(());
    }
  }
}
