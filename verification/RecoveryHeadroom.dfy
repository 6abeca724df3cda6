/** When 64-bit arithmetic is enough for recovery, which replays the log and sums a trial balance. */
module RecoveryHeadroom {
  import opened Types
  import opened Sums
  import opened Ledger
  import opened Validation
  import opened Headroom
  import opened Framing
  import opened WalFormat
  import opened WalReader
  import opened Snapshot
  import opened Recovery
  import opened RecoveryProperties
  import opened Engine
  import opened EngineRuns
  import opened CrashSafety

  lemma {:induction false} MovedConcat(a: seq<Transaction>, b: seq<Transaction>)
    ensures Moved(a + b) == Moved(a) + Moved(b)
  {
    if b == [] {
      assert a + b == a;
    } else {
      assert (a + b)[..|a + b| - 1] == a + b[..|b| - 1];
      MovedConcat(a, b[..|b| - 1]);
    }
  }

  lemma {:induction false} MovedNonNegative(accounts: Accounts, txs: seq<Transaction>)
    requires WellShaped(accounts, txs)
    ensures Moved(txs) >= 0
  {
    if txs != [] {
      var n := |txs| - 1;
      MovedNonNegative(accounts, txs[..n]);
      ShapeMeaning(txs[n]);
      TotalsNonNegative(txs[n].legs, Debit);
    }
  }

  lemma MovedPrefix(accounts: Accounts, txs: seq<Transaction>, k: nat)
    requires WellShaped(accounts, txs) && k <= |txs|
    ensures 0 <= Moved(txs[..k]) <= Moved(txs)
  {
    hide Moved;
    assert txs == txs[..k] + txs[k..];
    MovedConcat(txs[..k], txs[k..]);
    WellShapedParts(accounts, txs[..k], txs[k..]);
    MovedNonNegative(accounts, txs[..k]);
    MovedNonNegative(accounts, txs[k..]);
  }

  lemma WellShapedParts(accounts: Accounts, a: seq<Transaction>, b: seq<Transaction>)
    ensures WellShaped(accounts, a + b) <==> WellShaped(accounts, a) && WellShaped(accounts, b)
  {
    hide ShapeOf, AccountsExist;
    if WellShaped(accounts, a + b) {
      forall i | 0 <= i < |a| ensures ShapeOf(a[i]).Ok? && AccountsExist(accounts, a[i].legs) {
        assert a[i] == (a + b)[i];
      }
      forall i | 0 <= i < |b| ensures ShapeOf(b[i]).Ok? && AccountsExist(accounts, b[i].legs) {
        assert b[i] == (a + b)[|a| + i];
      }
    }
  }

  /** Replaying records on the state after earlier ones stays within 64 bits if all of them together
      are within the budget, whichever of them are skipped. */
  lemma {:induction false} ReplayWithinBudget(seed: State, done: seq<Transaction>, txs: seq<Transaction>)
    requires WellShaped(seed.accounts, done) && WellShaped(seed.accounts, txs)
    requires Exposure(seed.accounts) + Moved(done) + Moved(txs) <= I64_MAX
    ensures ReplayFits(Replay(seed, done), txs)
    decreases |txs|
  {
    hide Exposure, Moved, Replay, ShapeOf, AccountsExist, ApplyFits;
    if txs != [] {
      var first, rest := txs[0], txs[1..];
      assert txs == [first] + rest;
      MovedConcat([first], rest);
      MovedOne(first);
      WellShapedParts(seed.accounts, [first], rest);
      WellShapedParts(seed.accounts, done, [first]);
      MovedNonNegative(seed.accounts, rest);
      if first.id > Replay(seed, done).lastId {
        ApplyNeverOverflows(seed, done, first);
        ReplaySnoc(seed, done, first);
        MovedConcat(done, [first]);
        ReplayWithinBudget(seed, done + [first], rest);
      } else {
        MovedNonNegative(seed.accounts, [first]);
        ReplayWithinBudget(seed, done, rest);
      }
    }
  }

  lemma MovedOne(tx: Transaction)
    ensures Moved([tx]) == TotalOf(tx.legs, Debit)
  {
    assert [tx][..0] == [];
  }

  lemma {:induction false} ReplayFitsConcat(s: State, a: seq<Transaction>, b: seq<Transaction>)
    requires ReplayFits(s, a) && ReplayFits(ReplayNew(s, a), b)
    ensures ReplayFits(s, a + b)
    decreases |a|
  {
    hide RecordFits, ApplyIfNew;
    if a == [] {
      assert a + b == b;
    } else {
      assert (a + b)[1..] == a[1..] + b;
      ReplayFitsConcat(ApplyIfNew(s, a[0]), a[1..], b);
    }
  }

  lemma {:induction false} OldRecordsFit(s: State, txs: seq<Transaction>)
    requires forall i :: 0 <= i < |txs| ==> txs[i].id <= s.lastId
    ensures ReplayFits(s, txs)
    decreases |txs|
  {
    if txs != [] {
      OldRecordsFit(s, txs[1..]);
    }
  }

  /** Replay from a checkpoint applies nothing twice, so the budget of the whole log suffices. */
  lemma CheckpointFits(seed: State, txs: seq<Transaction>, j: nat, k: nat)
    requires WellShaped(seed.accounts, txs) && Increasing(seed.lastId, txs) && j <= k <= |txs|
    requires Exposure(seed.accounts) + Moved(txs) <= I64_MAX
    ensures ReplayFits(Replay(seed, txs[..k]), txs[j..])
  {
    hide Exposure, Moved, Replay, ReplayFits, ReplayNew, Increasing, ShapeOf, AccountsExist;
    var at, known, rest := Replay(seed, txs[..k]), txs[j..k], txs[k..];
    assert txs == txs[..k] + rest && txs[j..] == known + rest;
    MovedConcat(txs[..k], rest);
    WellShapedParts(seed.accounts, txs[..k], rest);
    ReplayWithinBudget(seed, txs[..k], rest);
    IncreasingPrefix(seed.lastId, txs, k);
    LastIdTop(seed, txs[..k]);
    forall i | 0 <= i < k - j ensures known[i].id <= at.lastId {
      assert known[i] == txs[..k][j + i];
    }
    OldRecordsFit(at, known);
    OldRecordsSkipped(at, known);
    ReplayFitsConcat(at, known, rest);
  }

  /** On bytes: recovery of a log from any checkpoint overflows nowhere within the budget, in any
      order of the trial balance, whatever the log ends in. */
  lemma RecoverWithinBudget(im: Image, seed: State, txs: seq<Transaction>, j: nat, k: nat, tail: seq<byte>, order: seq<u64>)
    requires IsCheckpoint(im, seed, txs, j, k) && !Parse(tail).Record? && Distinct(order)
    requires WellShaped(seed.accounts, txs) && Increasing(seed.lastId, txs)
    requires Exposure(seed.accounts) + Moved(txs) <= I64_MAX
    ensures RecoverFits(Some(EncodeLog(txs) + tail), Some(EncodeSnapshot(im)), order)
  {
    hide Exposure, Moved, Replay, ReplayFits, ReplayNew, Increasing, ShapeOf, AccountsExist, Parse, EncodeRecord, EncodeSnapshot, TrialFits, Writable, DecodeSnapshot;
    SnapshotRoundTrip(im);
    TailFromBoundary(txs, j, tail);
    CheckpointFits(seed, txs, j, k);
    CheckpointReplay(seed, txs, j, k);
    TrialNeverOverflows(seed, txs, order);
  }

  /** The same behind a short write, unless the bytes at the tear pass for a record. */
  lemma TearRecoveryFits(im: Image, seed: State, txs: seq<Transaction>, j: nat, k: nat,
                         torn: Transaction, t: nat, rest: seq<byte>, order: seq<u64>)
    requires IsCheckpoint(im, seed, txs, j, k) && Distinct(order)
    requires WellShaped(seed.accounts, txs) && Increasing(seed.lastId, txs)
    requires Exposure(seed.accounts) + Moved(txs) <= I64_MAX
    requires 1 <= t < |EncodeRecord(torn)| && Follows(rest) && !Passes(torn, t, rest)
    ensures RecoverFits(Some(EncodeLog(txs) + (EncodeRecord(torn)[..t] + rest)), Some(EncodeSnapshot(im)), order)
  {
    hide Exposure, Moved, Increasing, WellShaped, EncodeRecord, EncodeSnapshot, RecoverFits, IsCheckpoint, Parse, Passes, Follows;
    ParseTear(torn, t, rest);
    RecoverWithinBudget(im, seed, txs, j, k, EncodeRecord(torn)[..t] + rest, order);
  }

  /** After any run without short writes, including records whose sync failed, and a crash at any byte
      behind what the snapshot covers: recovery overflows nowhere if the opening exposure, the earlier
      records and everything presented fit into 64 bits together. */
  lemma CrashRecoveryFits(cfg: Config, im: Image, seed: State, prior: seq<Transaction>, j: nat, covered: nat,
                          events: seq<Event>, n: nat, order: seq<u64>)
    requires WellShaped(seed.accounts, prior) && NoTears(cfg, Reopened(seed, prior), events) && Distinct(order)
    requires IsCheckpoint(im, seed, Records(cfg, seed, prior, events), j, covered)
    requires Increasing(seed.lastId, Records(cfg, seed, prior, events))
    requires Exposure(seed.accounts) + Moved(prior) + Presented(events) <= I64_MAX
    requires var file := Run(cfg, Reopened(seed, prior), events).log.content;
             |EncodeLog(Records(cfg, seed, prior, events)[..covered])| <= n <= |file|
    ensures RecoverFits(Some(Run(cfg, Reopened(seed, prior), events).log.content[..n]), Some(EncodeSnapshot(im)), order)
  {
    hide Exposure, Moved, Replay, Run, Logged, NoTears, Presented, Increasing, ShapeOf, AccountsExist, EncodeRecord, EncodeSnapshot, RecoverFits, Writable, Written;
    var e := Reopened(seed, prior);
    var records := Records(cfg, seed, prior, events);
    RecordsContent(cfg, seed, prior, events);
    MovedWithinPresented(cfg, e, events);
    MovedConcat(prior, Logged(cfg, e, events));
    LoggedSound(cfg, e, events);
    ReplayChart(seed, prior);
    WellShapedInChart(e.working.accounts, seed.accounts, Logged(cfg, e, events));
    WellShapedParts(seed.accounts, prior, Logged(cfg, e, events));
    CutFits(im, seed, records, j, covered, n, order);
  }

  lemma WellShapedInChart(a: Accounts, b: Accounts, txs: seq<Transaction>)
    requires SameChart(b, a) && WellShaped(a, txs)
    ensures WellShaped(b, txs)
  {
    hide ShapeOf;
    forall i | 0 <= i < |txs| ensures AccountsExist(b, txs[i].legs) {
      forall l | 0 <= l < |txs[i].legs| ensures txs[i].legs[l].accountId in b {
        assert txs[i].legs[l].accountId in a.Keys;
      }
    }
  }

  lemma CutFits(im: Image, seed: State, txs: seq<Transaction>, j: nat, covered: nat, n: nat, order: seq<u64>)
    requires IsCheckpoint(im, seed, txs, j, covered) && Distinct(order)
    requires WellShaped(seed.accounts, txs) && Increasing(seed.lastId, txs)
    requires Exposure(seed.accounts) + Moved(txs) <= I64_MAX
    requires |EncodeLog(txs[..covered])| <= n <= |EncodeLog(txs)|
    ensures RecoverFits(Some(EncodeLog(txs)[..n]), Some(EncodeSnapshot(im)), order)
  {
    hide Exposure, Moved, Replay, Increasing, ShapeOf, AccountsExist, EncodeRecord, EncodeSnapshot, RecoverFits, Writable, Written, Parse;
    var k := CutWritten(EncodeRecord, txs, n);
    if k < |txs| {
      SurvivingCount(txs, covered, n, k);
      CheckpointOfPrefix(im, seed, txs, j, covered, k);
      IncreasingPrefix(seed.lastId, txs, k);
      assert txs == txs[..k] + txs[k..];
      WellShapedParts(seed.accounts, txs[..k], txs[k..]);
      MovedPrefix(seed.accounts, txs, k);
      CutTail(EncodeRecord, txs, k, n);
      var m := n - |EncodeLog(txs[..k])|;
      ParseTorn(txs[k], m);
      RecoverWithinBudget(im, seed, txs[..k], j, covered, EncodeRecord(txs[k])[..m], order);
    } else {
      assert EncodeLog(txs)[..n] == EncodeLog(txs) + [];
      assert !Parse([]).Record? by {
        Format();
      }
      RecoverWithinBudget(im, seed, txs, j, covered, [], order);
    }
  }
}
