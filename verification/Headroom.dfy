/** When 64-bit arithmetic is enough.

    Only the totals of a single transaction are overflow-checked by the program. Balances, projected
    balances and trial-balance totals are not. They still never leave the 64-bit range if the opening
    balances (in magnitude) and the debit totals of all transactions together stay within it. */
module Headroom {
  import opened Types
  import opened Sums
  import opened Ledger
  import opened Validation

  /** The sum of the magnitudes of all balances. */
  ghost function Exposure(accounts: Accounts): int {
    Total(Magnitudes(Weights(accounts)))
  }

  /** The amount moved by the transactions. */
  function Moved(txs: seq<Transaction>): int {
    if txs == [] then 0 else Moved(txs[..|txs| - 1]) + TotalOf(txs[|txs| - 1].legs, Debit)
  }

  /** Transactions of an accepted shape that name existing accounts. */
  ghost predicate WellShaped(accounts: Accounts, txs: seq<Transaction>) {
    forall i :: 0 <= i < |txs| ==> ShapeOf(txs[i]).Ok? && AccountsExist(accounts, txs[i].legs)
  }

  lemma {:induction false} EffectBound(legs: seq<EntryLeg>, ids: seq<u64>)
    requires Positive(legs)
    ensures -TotalOf(legs, Credit) <= EffectIn(legs, ids) <= TotalOf(legs, Debit)
  {
    if legs != [] {
      EffectBound(legs[1..], ids);
    }
  }

  lemma {:induction false} TotalPrefix(legs: seq<EntryLeg>, k: nat, d: Direction)
    requires Positive(legs) && k <= |legs|
    ensures 0 <= TotalOf(legs[..k], d) <= TotalOf(legs, d)
    decreases |legs|
  {
    if k == 0 {
      TotalsNonNegative(legs, d);
    } else {
      assert legs[..k][1..] == legs[1..][..k - 1];
      TotalPrefix(legs[1..], k - 1, d);
    }
  }

  lemma PrefixEffectBound(legs: seq<EntryLeg>, k: nat, ids: seq<u64>)
    requires Positive(legs) && k <= |legs|
    ensures -TotalOf(legs, Credit) <= EffectIn(legs[..k], ids) <= TotalOf(legs, Debit)
  {
    EffectBound(legs[..k], ids);
    TotalPrefix(legs, k, Debit);
    TotalPrefix(legs, k, Credit);
  }

  /** After any run, the signed sum over any choice of accounts is within the opening exposure plus
      the amount moved. One transaction moves its total at most once, in either direction. */
  lemma {:induction false} PartOfRun(s: State, txs: seq<Transaction>, ids: seq<u64>)
    requires WellShaped(s.accounts, txs) && Distinct(ids)
    ensures Abs(Sum(Weights(Replay(s, txs).accounts), ids)) <= Exposure(s.accounts) + Moved(txs)
  {
    if txs == [] {
      PartBound(Weights(s.accounts), ids);
    } else {
      var n := |txs| - 1;
      var before := Replay(s, txs[..n]);
      PartOfRun(s, txs[..n], ids);
      ReplayChart(s, txs[..n]);
      ExistInSameChart(s.accounts, before.accounts, txs[n].legs);
      ApplyLegsSum(before.accounts, txs[n].legs, ids);
      ShapeMeaning(txs[n]);
      EffectBound(txs[n].legs, ids);
    }
  }

  lemma SumOfOne(m: map<u64, int>, id: u64)
    ensures Sum(m, [id]) == At(m, id)
  {
    assert Sum(m, [id]) == Sum(m, []) + At(m, id);
  }

  /** Room of `room` in both directions is enough for all intermediate balances. */
  lemma {:induction false} ApplyHasRoom(accounts: Accounts, legs: seq<EntryLeg>, room: int)
    requires Positive(legs) && AccountsExist(accounts, legs) && room <= I64_MAX
    requires forall id :: id in accounts ==>
               TotalOf(legs, Credit) - room <= Weight(accounts[id]) <= room - TotalOf(legs, Debit)
    ensures ApplyFits(accounts, legs)
    decreases |legs|
  {
    if legs != [] {
      var next := ApplyLeg(accounts, legs[0]);
      TotalsNonNegative(legs[1..], Debit);
      TotalsNonNegative(legs[1..], Credit);
      forall id | id in next
        ensures TotalOf(legs[1..], Credit) - room <= Weight(next[id]) <= room - TotalOf(legs[1..], Debit)
      {
        assert id in accounts;
      }
      ApplyHasRoom(next, legs[1..], room);
    }
  }

  /** The ids on one side of the books. */
  function OnSide(accounts: Accounts, ids: seq<u64>, debit: bool): (r: seq<u64>)
    ensures forall id :: id in r <==> id in ids && id in accounts && IsDebitNormal(accounts[id].accountType) == debit
  {
    if ids == [] then []
    else
      var front, last := OnSide(accounts, ids[..|ids| - 1], debit), ids[|ids| - 1];
      assert ids == ids[..|ids| - 1] + [last];
      if last in accounts && IsDebitNormal(accounts[last].accountType) == debit then front + [last] else front
  }

  lemma {:induction false} SideSum(accounts: Accounts, ids: seq<u64>, debit: bool)
    requires Distinct(ids)
    ensures Distinct(OnSide(accounts, ids, debit))
    ensures Sum(Side(accounts, debit), ids)
         == if debit then Sum(Weights(accounts), OnSide(accounts, ids, debit))
            else -Sum(Weights(accounts), OnSide(accounts, ids, debit))
  {
    hide IsDebitNormal;
    if ids != [] {
      SideSum(accounts, ids[..|ids| - 1], debit);
      var front, last := OnSide(accounts, ids[..|ids| - 1], debit), ids[|ids| - 1];
      assert last !in front;
      assert (front + [last])[..|front|] == front;
    }
  }

  /** In every run within the budget the trial balance never overflows, in any account order. */
  lemma TrialNeverOverflows(s: State, txs: seq<Transaction>, order: seq<u64>)
    requires WellShaped(s.accounts, txs) && Distinct(order)
    requires Exposure(s.accounts) + Moved(txs) <= I64_MAX
    ensures TrialFits(Replay(s, txs).accounts, order)
  {
    var accounts := Replay(s, txs).accounts;
    forall i | 0 <= i <= |order|
      ensures InI64(Sum(Side(accounts, true), order[..i])) && InI64(Sum(Side(accounts, false), order[..i]))
    {
      SideSum(accounts, order[..i], true);
      SideSum(accounts, order[..i], false);
      PartOfRun(s, txs, OnSide(accounts, order[..i], true));
      PartOfRun(s, txs, OnSide(accounts, order[..i], false));
    }
  }

  /** After any run no balance exceeds the opening exposure plus the amount moved. */
  lemma WeightBound(s: State, txs: seq<Transaction>, id: u64)
    requires WellShaped(s.accounts, txs) && id in Replay(s, txs).accounts
    ensures Abs(Weight(Replay(s, txs).accounts[id])) <= Exposure(s.accounts) + Moved(txs)
  {
    PartOfRun(s, txs, [id]);
    SumOfOne(Weights(Replay(s, txs).accounts), id);
  }

  /** In every run within the budget applying the next transaction overflows nowhere on the way. */
  lemma ApplyNeverOverflows(s: State, txs: seq<Transaction>, tx: Transaction)
    requires WellShaped(s.accounts, txs + [tx])
    requires Exposure(s.accounts) + Moved(txs) + TotalOf(tx.legs, Debit) <= I64_MAX
    ensures ApplyFits(Replay(s, txs).accounts, tx.legs)
  {
    hide Exposure, Moved, Replay, ShapeOf;
    assert (txs + [tx])[|txs|] == tx && forall i :: 0 <= i < |txs| ==> (txs + [tx])[i] == txs[i];
    ShapeMeaning(tx);
    var accounts := Replay(s, txs).accounts;
    var room := Exposure(s.accounts) + Moved(txs) + TotalOf(tx.legs, Debit);
    forall id | id in accounts ensures Abs(Weight(accounts[id])) <= room - TotalOf(tx.legs, Debit) {
      WeightBound(s, txs, id);
    }
    ReplayChart(s, txs);
    ExistInSameChart(s.accounts, accounts, tx.legs);
    ApplyHasRoom(accounts, tx.legs, room);
  }

  /** In every run within the budget neither checking nor applying the next transaction of accepted
      shape overflows anywhere on the way. */
  lemma NextNeverOverflows(s: State, txs: seq<Transaction>, tx: Transaction)
    requires WellShaped(s.accounts, txs) && ShapeOf(tx).Ok?
    requires forall id :: id in s.accounts ==> s.accounts[id].overdraftLimit >= 0
    requires Exposure(s.accounts) + Moved(txs) + TotalOf(tx.legs, Debit) <= I64_MAX
    ensures CheckFits(Replay(s, txs).accounts, tx.legs)
    ensures AccountsExist(s.accounts, tx.legs) ==> ApplyFits(Replay(s, txs).accounts, tx.legs)
  {
    hide Exposure, Moved, Replay, ShapeOf, CheckFits;
    var accounts := Replay(s, txs).accounts;
    var room := Exposure(s.accounts) + Moved(txs) + TotalOf(tx.legs, Debit);
    ReplayChart(s, txs);
    forall id | id in accounts
      ensures Abs(Weight(accounts[id])) <= room - TotalOf(tx.legs, Debit) && accounts[id].overdraftLimit >= 0
    {
      assert id in s.accounts.Keys;
      WeightBound(s, txs, id);
    }
    DeltasFit(accounts, tx, room);
    if AccountsExist(s.accounts, tx.legs) {
      ApplyNeverOverflows(s, txs, tx);
    }
  }

  lemma DeltasFit(accounts: Accounts, tx: Transaction, room: int)
    requires ShapeOf(tx).Ok? && room <= I64_MAX
    requires forall id :: id in accounts ==>
               Abs(Weight(accounts[id])) <= room - TotalOf(tx.legs, Debit) && accounts[id].overdraftLimit >= 0
    ensures CheckFits(accounts, tx.legs)
  {
    ShapeMeaning(tx);
    forall k, id | 0 <= k <= |tx.legs| && id in accounts
      ensures Abs(NetDelta(tx.legs[..k], id, accounts[id].accountType)) <= TotalOf(tx.legs, Debit)
    {
      PrefixEffectBound(tx.legs, k, [id]);
    }
    assert tx.legs[..|tx.legs|] == tx.legs;
  }
}
