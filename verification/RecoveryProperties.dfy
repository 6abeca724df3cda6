/** What recovery guarantees, on bytes. */
module RecoveryProperties {
  import opened Types
  import opened Sums
  import opened Ledger
  import opened Framing
  import opened WalCodec
  import opened WalFormat
  import opened WalReader
  import opened Snapshot
  import opened Recovery

  // ---------- Running recovery twice ----------

  lemma ScanOfCut(file: seq<byte>, start: Loaded)
    requires ScanLog(From(file, start.walOffset)).end != EndOfLog
    ensures start.walOffset <= |file|
    ensures var scan := ScanLog(From(file, start.walOffset));
            ScanLog(From(CutLog(file, start), start.walOffset)) == Scanned(scan.items, scan.length, EndOfLog)
  {
    hide Parse;
    Format();
    var rest := From(file, start.walOffset);
    ScanKept(Parse, rest);
    assert From(CutLog(file, start), start.walOffset) == rest[..ScanLog(rest).length];
  }

  lemma CutIsFinal(file: seq<byte>, loaded: Result<Loaded>)
    requires loaded != Err(SnapshotCorrupt) && ScanLog(From(file, StartOf(loaded).walOffset)).end != EndOfLog
    ensures var start := StartOf(loaded);
            var kept := CutLog(file, start);
            && Replayed(kept, start) == Replayed(file, start)
            && RecoverFrom(Some(kept), loaded, CutOk) == (Checked(Replayed(kept, start)), Some(kept))
  {
    ScanOfCut(file, StartOf(loaded));
  }

  lemma RecoverFromTwice(wal: Option<seq<byte>>, loaded: Result<Loaded>)
    ensures var once := RecoverFrom(wal, loaded, CutOk);
            RecoverFrom(once.1, loaded, CutOk) == once
  {
    var start := StartOf(loaded);
    if loaded != Err(SnapshotCorrupt) && wal.Some? && ScanLog(From(wal.value, start.walOffset)).end != EndOfLog {
      CutIsFinal(wal.value, loaded);
    } else {
      assert RecoverFrom(wal, loaded, CutOk).1 == wal;
    }
  }

  /** Recovery is idempotent, for any log bytes and any snapshot bytes: a second recovery returns
      the same result and leaves the log as the first one left it. */
  lemma RecoverIdempotent(wal: Option<seq<byte>>, snapshot: Option<seq<byte>>)
    ensures var once := RecoverOf(wal, snapshot, CutOk);
            RecoverOf(once.1, snapshot, CutOk) == once
  {
    RecoverFromTwice(wal, LoadOf(snapshot));
  }

  // ---------- Appending after recovery ----------

  lemma FromAppended(kept: seq<byte>, more: seq<byte>, offset: nat)
    requires offset <= |kept|
    ensures From(kept + more, offset) == From(kept, offset) + more
  {
  }

  /** With the snapshot offset inside the log, everything appended after recovery is read back
      after the records that survived. */
  lemma AppendedIsRead(file: seq<byte>, start: Loaded, more: seq<Transaction>)
    requires start.walOffset <= |file|
    ensures var scan := ScanLog(From(file, start.walOffset));
            ScanLog(From(CutLog(file, start) + EncodeLog(more), start.walOffset)).items == scan.items + more
    ensures Replayed(file, start).walLength == |CutLog(file, start)|
  {
    Format();
    var rest := From(file, start.walOffset);
    var kept := CutLog(file, start);
    var scan := ScanLog(rest);
    if scan.end != EndOfLog {
      ScanOfCut(file, start);
    } else {
      CleanScanReadsAll(rest);
    }
    FromAppended(kept, EncodeLog(more), start.walOffset);
    ScanConcat(Parse, From(kept, start.walOffset), EncodeLog(more));
    ScanAllWritten(Parse, EncodeRecord, more);
  }

  lemma CleanScanReadsAll(s: seq<byte>)
    requires ScanLog(s).end == EndOfLog
    ensures ScanLog(s).length == |s|
  {
    Format();
    CleanScan(Parse, s);
  }

  /** With the snapshot offset beyond the end of the log, records appended after recovery are not
      read back, and the length recovery reports is not the length of the log. */
  lemma AppendedIsLost(file: seq<byte>, start: Loaded, more: seq<Transaction>)
    requires start.walOffset > |file| && more != []
    ensures ScanLog(From(CutLog(file, start) + EncodeLog(more), start.walOffset)).items
         != ScanLog(From(file, start.walOffset)).items + more
    ensures Replayed(file, start).walLength != |CutLog(file, start)|
  {
    var s := From(CutLog(file, start) + EncodeLog(more), start.walOffset);
    ScanTakesItsBytes(s);
    assert |s| < |EncodeLog(more)|;
    assert ScanLog(From(file, start.walOffset)).items + more == more;
  }

  /** So a recovered log can be appended to exactly if the snapshot offset lies within the log. */
  lemma AppendableIff(file: seq<byte>, start: Loaded, more: seq<Transaction>)
    requires more != []
    ensures start.walOffset <= |file|
       <==> ScanLog(From(CutLog(file, start) + EncodeLog(more), start.walOffset)).items
              == ScanLog(From(file, start.walOffset)).items + more
  {
    if start.walOffset <= |file| {
      AppendedIsRead(file, start, more);
    } else {
      AppendedIsLost(file, start, more);
    }
  }

  // ---------- Checkpoints ----------

  lemma SuffixOf(a: seq<byte>, b: seq<byte>, tail: seq<byte>, whole: seq<byte>)
    requires whole == a + b
    ensures From(whole + tail, |a|) == b + tail
  {
  }

  lemma BoundarySuffix(txs: seq<Transaction>, j: nat, tail: seq<byte>)
    requires j <= |txs|
    ensures From(EncodeLog(txs) + tail, |EncodeLog(txs[..j])|) == EncodeLog(txs[j..]) + tail
  {
    hide EncodeRecord, Written;
    WrittenConcat(EncodeRecord, txs[..j], txs[j..]);
    assert txs == txs[..j] + txs[j..];
    SuffixOf(EncodeLog(txs[..j]), EncodeLog(txs[j..]), tail, EncodeLog(txs));
  }

  lemma EncodeLogSplit(txs: seq<Transaction>, j: nat)
    requires j <= |txs|
    ensures |EncodeLog(txs)| == |EncodeLog(txs[..j])| + |EncodeLog(txs[j..])|
  {
    WrittenPrefix(EncodeRecord, txs, j);
  }

  /** Reading a log from any record boundary up to something that is not a record. */
  lemma TailFromBoundary(txs: seq<Transaction>, j: nat, tail: seq<byte>)
    requires j <= |txs| && !Parse(tail).Record?
    ensures ScanLog(From(EncodeLog(txs) + tail, |EncodeLog(txs[..j])|)) == Scanned(txs[j..], |EncodeLog(txs[j..])|, Parse(tail))
  {
    hide Parse, EncodeRecord;
    BoundarySuffix(txs, j, tail);
    Format();
    ScanUpTo(Parse, EncodeRecord, txs[j..], tail);
  }

  /** The snapshot was taken of the state after the first `k` records, at the offset of record `j`. */
  ghost predicate IsImage(im: Image, seed: State, txs: seq<Transaction>, j: nat, k: nat) {
    && j <= |txs| && k <= |txs|
    && Writable(im)
    && im.state == Replay(seed, txs[..k])
    && im.walOffset == |EncodeLog(txs[..j])|
  }

  /** Its offset is not ahead of its state. */
  ghost predicate IsCheckpoint(im: Image, seed: State, txs: seq<Transaction>, j: nat, k: nat) {
    IsImage(im, seed, txs, j, k) && j <= k
  }

  /** Recovery from any record boundary of a log that ends in something that is not a record. */
  lemma RecoverFromBoundary(im: Image, txs: seq<Transaction>, j: nat, tail: seq<byte>)
    requires Writable(im) && j <= |txs| && im.walOffset == |EncodeLog(txs[..j])| && !Parse(tail).Record?
    ensures RecoverOf(Some(EncodeLog(txs) + tail), Some(EncodeSnapshot(im)), CutOk)
         == (Checked(Recovered(ReplayNew(im.state, txs[j..]), |EncodeLog(txs)|)), Some(EncodeLog(txs)))
  {
    hide Parse, EncodeRecord, EncodeLog, EncodeSnapshot, ReplayNew, Checked, ScanLog, DecodeSnapshot, Writable;
    SnapshotRoundTrip(im);
    TailFromBoundary(txs, j, tail);
    EncodeLogSplit(txs, j);
    var file := EncodeLog(txs) + tail;
    assert file[..|EncodeLog(txs)|] == EncodeLog(txs);
    if Parse(tail) == EndOfLog {
      assert tail == [] by {
        Format();
      }
      assert file == EncodeLog(txs);
    }
  }

  /** A log that ends in something that is not a record recovers from any checkpoint to all its
      records, and what follows them is cut off. */
  lemma RecoverCheckpoint(im: Image, seed: State, txs: seq<Transaction>, j: nat, k: nat, tail: seq<byte>)
    requires IsCheckpoint(im, seed, txs, j, k) && !Parse(tail).Record?
    requires AllExist(seed.accounts, txs) && Increasing(seed.lastId, txs)
    ensures RecoverOf(Some(EncodeLog(txs) + tail), Some(EncodeSnapshot(im)), CutOk)
         == (Checked(Recovered(Replay(seed, txs), |EncodeLog(txs)|)), Some(EncodeLog(txs)))
  {
    hide Parse, EncodeRecord, EncodeSnapshot, Replay, ReplayNew, Checked, RecoverOf, Increasing, Writable;
    RecoverFromBoundary(im, txs, j, tail);
    CheckpointReplay(seed, txs, j, k);
  }

  /** Checkpoint equivalence: any two checkpoints of the same run, at any record boundary at or
      before their state, recover the same state, report the same length and leave the same log,
      whatever the log ends in. The seed snapshot is the checkpoint with j = k = 0. */
  lemma CheckpointsAgree(a: Image, b: Image, seed: State, txs: seq<Transaction>, j: nat, k: nat, i: nat, l: nat, tail: seq<byte>)
    requires IsCheckpoint(a, seed, txs, j, k) && IsCheckpoint(b, seed, txs, i, l) && !Parse(tail).Record?
    requires AllExist(seed.accounts, txs) && Increasing(seed.lastId, txs)
    ensures var wal := Some(EncodeLog(txs) + tail);
            RecoverOf(wal, Some(EncodeSnapshot(a)), CutOk) == RecoverOf(wal, Some(EncodeSnapshot(b)), CutOk)
  {
    hide Parse, EncodeRecord, EncodeSnapshot, Replay, RecoverOf, Increasing, Writable;
    RecoverCheckpoint(a, seed, txs, j, k, tail);
    RecoverCheckpoint(b, seed, txs, i, l, tail);
  }

  /** A snapshot whose offset is ahead of its state loses exactly the records in between. */
  lemma AheadLoses(im: Image, seed: State, txs: seq<Transaction>, j: nat, k: nat, tail: seq<byte>)
    requires IsImage(im, seed, txs, j, k) && k <= j && !Parse(tail).Record?
    requires AllExist(seed.accounts, txs) && Increasing(seed.lastId, txs)
    ensures RecoverOf(Some(EncodeLog(txs) + tail), Some(EncodeSnapshot(im)), CutOk)
         == (Checked(Recovered(Replay(seed, txs[..k] + txs[j..]), |EncodeLog(txs)|)), Some(EncodeLog(txs)))
  {
    hide Parse, EncodeRecord, EncodeSnapshot, Replay, ReplayNew, Checked, RecoverOf, Increasing, Writable;
    RecoverFromBoundary(im, txs, j, tail);
    AheadReplay(seed, txs, k, j);
  }

  /** Without a snapshot there are no accounts to replay onto. Recovery of any log of transactions
      with legs succeeds with nothing in it, keeps the log and reports its full length. */
  lemma NoSnapshotRecoversNothing(txs: seq<Transaction>)
    requires forall i :: 0 <= i < |txs| ==> txs[i].legs != []
    ensures RecoverOf(Some(EncodeLog(txs)), None, CutOk) == (Ok(Recovered(EMPTY, |EncodeLog(txs)|)), Some(EncodeLog(txs)))
  {
    hide Parse, EncodeRecord, EncodeLog, ReplayNew, ScanLog, Imbalance;
    TailFromBoundary(txs, 0, []);
    assert txs[..0] == [] && txs[0..] == txs && EncodeLog(txs) + [] == EncodeLog(txs);
    assert Parse([]) == EndOfLog && |EncodeLog([])| == 0 && Imbalance(EMPTY.accounts) == 0 by {
      EmptyLog();
    }
    ReplayWithoutAccounts(0, txs);
  }

  lemma EmptyLog()
    ensures Parse([]) == EndOfLog && EncodeLog([]) == [] && Imbalance(EMPTY.accounts) == 0
  {
    assert Weights(map[]) == map[];
  }

  /** After a short write with anything written behind it, recovery returns exactly the records
      before the tear and cuts off the rest, if and only if the bytes at the tear do not pass for a
      record by coincidence. */
  lemma RecoverTear(im: Image, seed: State, txs: seq<Transaction>, j: nat, k: nat, torn: Transaction, t: nat, rest: seq<byte>)
    requires IsCheckpoint(im, seed, txs, j, k) && AllExist(seed.accounts, txs) && Increasing(seed.lastId, txs)
    requires 1 <= t < |EncodeRecord(torn)| && Follows(rest)
    ensures RecoverOf(Some(EncodeLog(txs) + (EncodeRecord(torn)[..t] + rest)), Some(EncodeSnapshot(im)), CutOk)
              == (Checked(Recovered(Replay(seed, txs), |EncodeLog(txs)|)), Some(EncodeLog(txs)))
       <==> !Passes(torn, t, rest)
  {
    hide Parse, EncodeRecord, EncodeSnapshot, Replay, Checked, RecoverOf, Increasing, Writable, Passes, Follows;
    ParseTear(torn, t, rest);
    if Passes(torn, t, rest) {
      MoreIsKept(im, txs, j, EncodeRecord(torn)[..t] + rest);
    } else {
      RecoverCheckpoint(im, seed, txs, j, k, EncodeRecord(torn)[..t] + rest);
    }
  }

  /** A tail that starts with something that passes for a record is not cut off at its start. */
  lemma MoreIsKept(im: Image, txs: seq<Transaction>, j: nat, tail: seq<byte>)
    requires Writable(im) && j <= |txs| && im.walOffset == |EncodeLog(txs[..j])| && Parse(tail).Record?
    ensures RecoverOf(Some(EncodeLog(txs) + tail), Some(EncodeSnapshot(im)), CutOk).1 != Some(EncodeLog(txs))
  {
    hide EncodeRecord, EncodeSnapshot, EncodeLog, ReplayNew, Checked, Parse, ScanLog, DecodeSnapshot, Writable;
    SnapshotRoundTrip(im);
    MoreIsScanned(txs, j, tail);
    EncodeLogSplit(txs, j);
    var file := EncodeLog(txs) + tail;
    var start := Loaded(im.state, im.walOffset);
    assert |CutLog(file, start)| > |EncodeLog(txs)|;
  }

  lemma MoreIsScanned(txs: seq<Transaction>, j: nat, tail: seq<byte>)
    requires j <= |txs| && Parse(tail).Record?
    ensures ScanLog(From(EncodeLog(txs) + tail, |EncodeLog(txs[..j])|)).length > |EncodeLog(txs[j..])|
  {
    hide EncodeRecord, ParseWhole, HeaderOk, PayloadSize;
    BoundarySuffix(txs, j, tail);
    Format();
    ScanWritten(Parse, EncodeRecord, txs[j..], tail);
  }

  // ---------- What recovery answers ----------

  /** No error before the trial balance: the snapshot is missing or good, a missing log goes with
      offset zero, and a log that does not end cleanly could be cut. */
  ghost predicate ReachesTrial(wal: Option<seq<byte>>, snapshot: Option<seq<byte>>, cut: CutOutcome) {
    && LoadOf(snapshot) != Err(SnapshotCorrupt)
    && if wal.None? then StartOf(LoadOf(snapshot)).walOffset == 0
       else ScanLog(From(wal.value, StartOf(LoadOf(snapshot)).walOffset)).end == EndOfLog || cut == CutOk
  }

  /** The state after the replay, or the snapshot's if there is no log. */
  ghost function ReplayedState(wal: Option<seq<byte>>, snapshot: Option<seq<byte>>): State {
    var start := StartOf(LoadOf(snapshot));
    if wal.None? then start.state else ReplayNew(start.state, ScanLog(From(wal.value, start.walOffset)).items)
  }

  /** For all bytes: recovery succeeds exactly if nothing failed before and the replayed books balance,
      and then it returns them; it reports a mismatch exactly if nothing failed before and they do
      not balance. No unbalanced state is ever returned. */
  lemma RecoverBalanced(wal: Option<seq<byte>>, snapshot: Option<seq<byte>>, cut: CutOutcome)
    ensures var r := RecoverOf(wal, snapshot, cut).0;
            var state := ReplayedState(wal, snapshot);
            && (r.Ok? <==> ReachesTrial(wal, snapshot, cut) && Imbalance(state.accounts) == 0)
            && (r.Ok? ==> r.value.state == state)
            && (r == Err(TrialBalanceMismatch) <==> ReachesTrial(wal, snapshot, cut) && Imbalance(state.accounts) != 0)
  {
    hide ScanLog, LoadOf, ReplayNew, Imbalance;
  }

  /** The other errors, and what is left of the log: a corrupt snapshot stops recovery before the log
      is looked at, a log missing behind a snapshot cannot be opened, and a failing cut is reported by
      the call that failed. The log changes only by being cut at the last good record. */
  lemma RecoverErrors(wal: Option<seq<byte>>, snapshot: Option<seq<byte>>, cut: CutOutcome)
    ensures var (r, after) := RecoverOf(wal, snapshot, cut);
            var start := StartOf(LoadOf(snapshot));
            var readable := LoadOf(snapshot) != Err(SnapshotCorrupt);
            var broken := readable && wal.Some? && ScanLog(From(wal.value, start.walOffset)).end != EndOfLog;
            && (r == Err(SnapshotCorrupt) <==> !readable)
            && (r == Err(WalOpenFailed) <==> (readable && wal.None? && start.walOffset != 0) || (broken && cut == OpenFails))
            && (r == Err(WalWriteFailed) <==> broken && cut == CutFails)
            && (r == Err(WalSyncFailed) <==> broken && cut == SyncFails)
            && (r.Ok? && wal.None? ==> r.value.walLength == 0)
            && (r.Ok? && wal.Some? ==> r.value.walLength == start.walOffset + ScanLog(From(wal.value, start.walOffset)).length)
            && (after == if broken && cut in {CutOk, SyncFails} && start.walOffset <= |wal.value|
                         then Some(wal.value[..start.walOffset + ScanLog(From(wal.value, start.walOffset)).length]) else wal)
  {
    hide ScanLog, LoadOf, ReplayNew, Imbalance;
  }

  /** A snapshot out of balance by itself is never accepted, with an empty log or none. */
  lemma UnbalancedSnapshotRefused(im: Image, cut: CutOutcome)
    requires Writable(im) && im.walOffset == 0 && Imbalance(im.state.accounts) != 0
    ensures RecoverOf(Some([]), Some(EncodeSnapshot(im)), cut).0 == Err(TrialBalanceMismatch)
    ensures RecoverOf(None, Some(EncodeSnapshot(im)), cut).0 == Err(TrialBalanceMismatch)
  {
    hide EncodeSnapshot, DecodeSnapshot, Imbalance;
    SnapshotRoundTrip(im);
    var nothing: seq<byte> := [];
    assert From(nothing, 0) == [];
    RecoverBalanced(Some([]), Some(EncodeSnapshot(im)), cut);
    RecoverBalanced(None, Some(EncodeSnapshot(im)), cut);
  }

  // ---------- Trial balance ----------

  /** Recovery of a log of balanced transactions on a balanced snapshot never reports a mismatch,
      whatever records are skipped. */
  lemma BalancedRecovers(s: State, txs: seq<Transaction>, length: nat)
    requires Sound(s.accounts, txs) && Imbalance(s.accounts) == 0
    ensures Checked(Recovered(ReplayNew(s, txs), length)) == Ok(Recovered(ReplayNew(s, txs), length))
  {
    ReplayMeaning(s, txs);
    HighsSound(s.accounts, s.lastId, txs);
    ReplayConserves(s, Highs(s.lastId, txs));
  }

  lemma {:induction false} HighsSound(accounts: Accounts, last: u64, txs: seq<Transaction>)
    requires Sound(accounts, txs)
    ensures Sound(accounts, Highs(last, txs))
  {
    if txs != [] {
      HighsSound(accounts, last, txs[..|txs| - 1]);
    }
  }
}
