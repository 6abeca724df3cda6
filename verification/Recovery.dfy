/** Crash recovery (src/recovery.cpp): load the snapshot, replay the log from its offset, cut off a
    damaged tail, check the trial balance. */
module Recovery {
  import opened Types
  import opened Sums
  import opened Ledger
  import opened Framing
  import opened WalFormat
  import opened WalReader
  import opened Snapshot

  // ---------- Filtered replay ----------

  /** A record is applied only if its id exceeds the last applied one. */
  function ReplayNew(s: State, txs: seq<Transaction>): State
    decreases |txs|
  {
    if txs == [] then s
    else ReplayNew(ApplyIfNew(s, txs[0]), txs[1..])
  }

  /** Applying the records overflows nowhere. */
  ghost predicate ReplayFits(s: State, txs: seq<Transaction>)
    decreases |txs|
  {
    txs == [] || (RecordFits(s, txs[0]) && ReplayFits(ApplyIfNew(s, txs[0]), txs[1..]))
  }

  ghost predicate RecordFits(s: State, tx: Transaction) {
    tx.id > s.lastId ==> ApplyFits(s.accounts, tx.legs)
  }

  function ApplyIfNew(s: State, tx: Transaction): State {
    if tx.id > s.lastId then After(s, tx) else s
  }

  /** Record `i` has a larger id than the snapshot and than every record before it. */
  ghost predicate IsHigh(last: u64, txs: seq<Transaction>, i: int)
    requires 0 <= i < |txs|
  {
    txs[i].id > last && forall j :: 0 <= j < i ==> txs[j].id < txs[i].id
  }

  /** The records that are new highs, in order. */
  ghost function Highs(last: u64, txs: seq<Transaction>): seq<Transaction> {
    if txs == [] then []
    else
      var n := |txs| - 1;
      Highs(last, txs[..n]) + if IsHigh(last, txs, n) then [txs[n]] else []
  }

  lemma {:induction false} ReplayNewConcat(s: State, a: seq<Transaction>, b: seq<Transaction>)
    ensures ReplayNew(s, a + b) == ReplayNew(ReplayNew(s, a), b)
    decreases |a|
  {
    if a == [] {
      assert a + b == b;
    } else {
      assert (a + b)[1..] == a[1..] + b;
      ReplayNewConcat(ApplyIfNew(s, a[0]), a[1..], b);
    }
  }

  lemma ReplayNewSnoc(s: State, txs: seq<Transaction>, tx: Transaction)
    ensures var before := ReplayNew(s, txs);
            ReplayNew(s, txs + [tx]) == ApplyIfNew(before, tx)
  {
    ReplayNewConcat(s, txs, [tx]);
    var before := ReplayNew(s, txs);
    assert [tx][1..] == [];
    assert ReplayNew(before, [tx]) == ReplayNew(ApplyIfNew(before, tx), []);
  }

  /** The last applied id is the highest id seen. */
  ghost predicate IsTop(last: u64, txs: seq<Transaction>, top: u64) {
    && top >= last
    && (forall i :: 0 <= i < |txs| ==> txs[i].id <= top)
    && (top == last || exists i :: 0 <= i < |txs| && txs[i].id == top)
  }

  /** Exact meaning of replay, with no assumption on the order of ids: the records applied are
      precisely the new highs. */
  lemma {:induction false} ReplayMeaning(s: State, txs: seq<Transaction>)
    requires AllExist(s.accounts, txs)
    ensures ReplayNew(s, txs) == Replay(s, Highs(s.lastId, txs))
    ensures IsTop(s.lastId, txs, ReplayNew(s, txs).lastId)
    ensures SameChart(s.accounts, ReplayNew(s, txs).accounts)
    decreases |txs|
  {
    if txs == [] {
      ReplayChart(s, []);
    } else {
      var n := |txs| - 1;
      var front, tx := txs[..n], txs[n];
      var before := ReplayNew(s, front);
      assert txs == front + [tx];
      ReplayMeaning(s, front);
      ReplayNewSnoc(s, front, tx);
      TopIsHigh(s.lastId, txs, before.lastId);
      if tx.id > before.lastId {
        ReplaySnoc(s, Highs(s.lastId, front), tx);
        ExistInSameChart(s.accounts, before.accounts, tx.legs);
        ApplyLegsChart(before.accounts, tx.legs);
        assert txs[n].id == tx.id;
      } else {
        assert Highs(s.lastId, txs) == Highs(s.lastId, front) + [] == Highs(s.lastId, front);
        TopExtends(s.lastId, txs, before.lastId);
      }
    }
  }

  lemma TopIsHigh(last: u64, txs: seq<Transaction>, top: u64)
    requires txs != [] && IsTop(last, txs[..|txs| - 1], top)
    ensures IsHigh(last, txs, |txs| - 1) <==> txs[|txs| - 1].id > top
  {
    var n := |txs| - 1;
    var front := txs[..n];
    if txs[n].id > top {
      forall j | 0 <= j < n ensures txs[j].id < txs[n].id {
        assert front[j] == txs[j];
      }
    } else if top != last {
      var i :| 0 <= i < |front| && front[i].id == top;
      assert txs[i] == front[i];
    }
  }

  lemma TopExtends(last: u64, txs: seq<Transaction>, top: u64)
    requires txs != [] && IsTop(last, txs[..|txs| - 1], top) && txs[|txs| - 1].id <= top
    ensures IsTop(last, txs, top)
  {
    var n := |txs| - 1;
    var front := txs[..n];
    forall i | 0 <= i < |txs| ensures txs[i].id <= top {
      if i < n {
        assert front[i] == txs[i];
      }
    }
    if top != last {
      var i :| 0 <= i < |front| && front[i].id == top;
      assert txs[i].id == top;
    }
  }

  // ---------- Increasing ids ----------

  /** Every id is larger than the one before it. */
  predicate Increasing(last: u64, txs: seq<Transaction>)
    decreases |txs|
  {
    txs == [] || (txs[0].id > last && Increasing(txs[0].id, txs[1..]))
  }

  ghost predicate AllHigh(last: u64, txs: seq<Transaction>) {
    forall i :: 0 <= i < |txs| ==> IsHigh(last, txs, i)
  }

  /** Comparing neighbours is comparing all pairs. */
  lemma {:induction false} IncreasingMeans(last: u64, txs: seq<Transaction>)
    ensures Increasing(last, txs) <==> AllHigh(last, txs)
    decreases |txs|
  {
    if txs != [] {
      var first, rest := txs[0], txs[1..];
      IncreasingMeans(first.id, rest);
      if Increasing(last, txs) {
        forall i | 0 <= i < |txs| ensures IsHigh(last, txs, i) {
          if i > 0 {
            assert IsHigh(first.id, rest, i - 1) && txs[i] == rest[i - 1];
            assert forall j :: 1 <= j < i ==> txs[j] == rest[j - 1];
          }
        }
      } else if AllHigh(last, txs) {
        assert IsHigh(last, txs, 0);
        forall i | 0 <= i < |rest| ensures IsHigh(first.id, rest, i) {
          assert IsHigh(last, txs, i + 1) && rest[i] == txs[i + 1];
          assert forall j :: 0 <= j < i ==> rest[j] == txs[j + 1];
        }
      }
    }
  }

  lemma {:induction false} HighsLength(last: u64, txs: seq<Transaction>)
    ensures |Highs(last, txs)| <= |txs|
    ensures Highs(last, txs) == txs <==> AllHigh(last, txs)
  {
    if txs != [] {
      var n := |txs| - 1;
      var front := txs[..n];
      HighsLength(last, front);
      assert txs == front + [txs[n]];
      forall i | 0 <= i < n ensures IsHigh(last, txs, i) <==> IsHigh(last, front, i) {
        assert forall j :: 0 <= j < i ==> front[j] == txs[j];
      }
      if Highs(last, txs) == txs {
        assert |Highs(last, txs)| == |txs|;
        assert Highs(last, txs)[..n] == Highs(last, front);
      }
    }
  }

  /** Replay keeps every record exactly if every id is larger than the one before it, which the
      writer does not enforce. */
  lemma NothingSkippedIff(s: State, txs: seq<Transaction>)
    ensures Highs(s.lastId, txs) == txs <==> Increasing(s.lastId, txs)
  {
    HighsLength(s.lastId, txs);
    IncreasingMeans(s.lastId, txs);
  }

  lemma IncreasingReplaysAll(s: State, txs: seq<Transaction>)
    requires AllExist(s.accounts, txs) && Increasing(s.lastId, txs)
    ensures ReplayNew(s, txs) == Replay(s, txs)
  {
    ReplayMeaning(s, txs);
    NothingSkippedIff(s, txs);
  }

  /** Two records logged in the wrong id order: the second is lost. */
  lemma OutOfOrderLosesRecord(s: State, first: Transaction, second: Transaction)
    requires AllExist(s.accounts, [first, second]) && s.lastId < second.id < first.id
    ensures ReplayNew(s, [first, second]) == Replay(s, [first])
  {
    var txs := [first, second];
    ReplayMeaning(s, txs);
    assert txs[..1] == [first] && [first][..0] == [];
    assert IsHigh(s.lastId, [first], 0);
    assert !IsHigh(s.lastId, txs, 1);
    assert Highs(s.lastId, [first]) == Highs(s.lastId, []) + [first];
    assert Highs(s.lastId, txs) == Highs(s.lastId, [first]) + [];
  }

  lemma IncreasingPrefix(last: u64, txs: seq<Transaction>, k: nat)
    requires Increasing(last, txs) && k <= |txs|
    ensures Increasing(last, txs[..k])
  {
    IncreasingMeans(last, txs);
    IncreasingMeans(last, txs[..k]);
    forall i | 0 <= i < k ensures IsHigh(last, txs[..k], i) {
      assert IsHigh(last, txs, i);
    }
  }

  /** After an increasing log the last applied id is at least every id in it. */
  lemma LastIdTop(s: State, txs: seq<Transaction>)
    requires AllExist(s.accounts, txs) && Increasing(s.lastId, txs)
    ensures IsTop(s.lastId, txs, Replay(s, txs).lastId)
  {
    ReplayMeaning(s, txs);
    NothingSkippedIff(s, txs);
  }

  /** Records at or below the last applied id change nothing. */
  lemma {:induction false} OldRecordsSkipped(s: State, txs: seq<Transaction>)
    requires forall i :: 0 <= i < |txs| ==> txs[i].id <= s.lastId
    ensures ReplayNew(s, txs) == s
    decreases |txs|
  {
    if txs != [] {
      OldRecordsSkipped(s, txs[1..]);
    }
  }

  /** Checkpoint equivalence on states: a state that already holds the first `k` records may be
      replayed from any record `j <= k`. */
  lemma CheckpointReplay(s: State, txs: seq<Transaction>, j: nat, k: nat)
    requires AllExist(s.accounts, txs) && Increasing(s.lastId, txs) && j <= k <= |txs|
    ensures ReplayNew(Replay(s, txs[..k]), txs[j..]) == Replay(s, txs)
  {
    hide Replay, ReplayNew, Increasing, AccountsExist;
    var at := Replay(s, txs[..k]);
    var known, rest := txs[j..k], txs[k..];
    assert ReplayNew(at, known + rest) == ReplayNew(at, rest) by {
      KnownSkipped(s, txs, j, k);
      ReplayNewConcat(at, known, rest);
    }
    assert ReplayNew(at, rest) == Replay(at, rest) by {
      TailIncreasing(s, txs, k);
      IncreasingReplaysAll(at, rest);
    }
    assert Replay(at, rest) == Replay(s, txs[..k] + rest) by {
      ReplayConcat(s, txs[..k], rest);
    }
    assert txs[j..] == known + rest && txs == txs[..k] + rest;
  }

  /** A checkpoint whose offset is ahead of its state: the records in between are lost. */
  lemma AheadReplay(s: State, txs: seq<Transaction>, k: nat, j: nat)
    requires AllExist(s.accounts, txs) && Increasing(s.lastId, txs) && k <= j <= |txs|
    ensures ReplayNew(Replay(s, txs[..k]), txs[j..]) == Replay(s, txs[..k] + txs[j..])
  {
    hide Replay, ReplayNew, Increasing, AccountsExist;
    var at := Replay(s, txs[..k]);
    TailIncreasing(s, txs, k);
    IncreasingSuffix(at.lastId, txs[k..], j - k);
    assert txs[k..][j - k..] == txs[j..];
    forall i | 0 <= i < |txs| - j ensures AccountsExist(at.accounts, txs[j..][i].legs) {
      assert txs[j..][i] == txs[k..][j - k + i];
    }
    IncreasingReplaysAll(at, txs[j..]);
    ReplayConcat(s, txs[..k], txs[j..]);
  }

  lemma IncreasingSuffix(last: u64, txs: seq<Transaction>, d: nat)
    requires Increasing(last, txs) && d <= |txs|
    ensures Increasing(last, txs[d..])
  {
    IncreasingMeans(last, txs);
    IncreasingMeans(last, txs[d..]);
    forall i | 0 <= i < |txs| - d ensures IsHigh(last, txs[d..], i) {
      assert IsHigh(last, txs, d + i);
    }
  }

  /** Without accounts nothing can be applied: the accounts stay empty, and a record with a leg is
      dropped altogether. */
  lemma {:induction false} ReplayWithoutAccounts(last: u64, txs: seq<Transaction>)
    ensures ReplayNew(State(map[], last), txs).accounts == map[]
    ensures (forall i :: 0 <= i < |txs| ==> txs[i].legs != []) ==> ReplayNew(State(map[], last), txs) == State(map[], last)
    decreases |txs|
  {
    if txs != [] {
      var s := State(map[], last);
      var next := ApplyIfNew(s, txs[0]);
      assert next.accounts == map[];
      ReplayWithoutAccounts(next.lastId, txs[1..]);
    }
  }

  lemma KnownSkipped(s: State, txs: seq<Transaction>, j: nat, k: nat)
    requires AllExist(s.accounts, txs) && Increasing(s.lastId, txs) && j <= k <= |txs|
    ensures ReplayNew(Replay(s, txs[..k]), txs[j..k]) == Replay(s, txs[..k])
  {
    var at := Replay(s, txs[..k]);
    IncreasingPrefix(s.lastId, txs, k);
    LastIdTop(s, txs[..k]);
    forall i | 0 <= i < k - j ensures txs[j..k][i].id <= at.lastId {
      assert txs[j..k][i] == txs[..k][j + i];
    }
    OldRecordsSkipped(at, txs[j..k]);
  }

  lemma TailIncreasing(s: State, txs: seq<Transaction>, k: nat)
    requires AllExist(s.accounts, txs) && Increasing(s.lastId, txs) && k <= |txs|
    ensures Increasing(Replay(s, txs[..k]).lastId, txs[k..])
    ensures AllExist(Replay(s, txs[..k]).accounts, txs[k..])
  {
    hide Replay, Increasing;
    var at := Replay(s, txs[..k]);
    IncreasingMeans(s.lastId, txs);
    IncreasingMeans(at.lastId, txs[k..]);
    IncreasingPrefix(s.lastId, txs, k);
    LastIdTop(s, txs[..k]);
    ReplayChart(s, txs[..k]);
    forall i | 0 <= i < |txs| - k
      ensures IsHigh(at.lastId, txs[k..], i) && AccountsExist(at.accounts, txs[k..][i].legs)
    {
      assert txs[k..][i] == txs[k + i] && IsHigh(s.lastId, txs, k + i);
      forall j | 0 <= j < i ensures txs[k..][j].id < txs[k..][i].id {
        assert txs[k..][j] == txs[k + j];
      }
      if at.lastId != s.lastId {
        var j :| 0 <= j < k && txs[..k][j].id == at.lastId;
        assert txs[j].id < txs[k + i].id;
      }
      ExistInSameChart(s.accounts, at.accounts, txs[k + i].legs);
    }
  }

  // ---------- Recovery ----------

  datatype Recovered = Recovered(state: State, walLength: nat)

  /** How cutting off the tail goes: the program reports the first call that fails. */
  datatype CutOutcome = CutOk | OpenFails | CutFails | SyncFails

  /** The state and log offset recovery starts from; without a snapshot, nothing and zero. */
  function StartOf(loaded: Result<Loaded>): Loaded {
    if loaded.Ok? then loaded.value else Loaded(EMPTY, 0)
  }

  ghost function Checked(r: Recovered): Result<Recovered> {
    if Imbalance(r.state.accounts) == 0 then Ok(r) else Err(TrialBalanceMismatch)
  }

  ghost function Replayed(file: seq<byte>, start: Loaded): Recovered {
    var scan := ScanLog(From(file, start.walOffset));
    Recovered(ReplayNew(start.state, scan.items), start.walOffset + scan.length)
  }

  /** The log is cut only if the scan did not end cleanly. */
  ghost function CutLog(file: seq<byte>, start: Loaded): seq<byte> {
    var scan := ScanLog(From(file, start.walOffset));
    if scan.end == EndOfLog || start.walOffset > |file| then file else file[..start.walOffset + scan.length]
  }

  /** Recovery after the snapshot has been loaded, or not. */
  ghost function RecoverFrom(wal: Option<seq<byte>>, loaded: Result<Loaded>, cut: CutOutcome): (Result<Recovered>, Option<seq<byte>>) {
    var start := StartOf(loaded);
    if loaded == Err(SnapshotCorrupt) then (Err(SnapshotCorrupt), wal)
    else if wal.None? then (if start.walOffset != 0 then Err(WalOpenFailed) else Checked(Recovered(start.state, 0)), wal)
    else
      var file := wal.value;
      var r := Replayed(file, start);
      if ScanLog(From(file, start.walOffset)).end == EndOfLog then (Checked(r), wal)
      else match cut
        case CutOk => (Checked(r), Some(CutLog(file, start)))
        case OpenFails => (Err(WalOpenFailed), wal)
        case CutFails => (Err(WalWriteFailed), wal)
        case SyncFails => (Err(WalSyncFailed), Some(CutLog(file, start)))
  }

  ghost function RecoverOf(wal: Option<seq<byte>>, snapshot: Option<seq<byte>>, cut: CutOutcome): (Result<Recovered>, Option<seq<byte>>) {
    RecoverFrom(wal, LoadOf(snapshot), cut)
  }

  /** Neither the replay nor the trial balance overflows. */
  ghost predicate RecoverFits(wal: Option<seq<byte>>, snapshot: Option<seq<byte>>, order: seq<u64>) {
    var start := StartOf(LoadOf(snapshot));
    if wal.None? then TrialFits(start.state.accounts, order)
    else
      && RestFits(start.state, From(wal.value, start.walOffset))
      && TrialFits(Replayed(wal.value, start).state.accounts, order)
  }

  // ---------- The program ----------

  /** `order` is the order in which the trial balance visits the accounts. */
  method Recover(wal: Option<seq<byte>>, snapshot: Option<seq<byte>>, cut: CutOutcome, order: seq<u64>)
    returns (r: Result<Recovered>, after: Option<seq<byte>>, ghost fits: bool)
    requires Visits(order, StartOf(LoadOf(snapshot)).state.accounts.Keys)
    ensures (r, after) == RecoverOf(wal, snapshot, cut)
    ensures RecoverFits(wal, snapshot, order) ==> fits
  {
    hide RestFits, TrialFits, ScanLog;
    after, fits := wal, true;
    var loaded := LoadSnapshot(snapshot);
    if loaded == Err(SnapshotCorrupt) {
      return Err(SnapshotCorrupt), after, fits;
    }
    var start := if loaded.Ok? then loaded.value else Loaded(EMPTY, 0);
    if wal.None? {
      if start.walOffset != 0 {
        return Err(WalOpenFailed), after, fits;
      }
      r, fits := Finish(start.state, 0, order);
      return;
    }
    var state, length, clean;
    state, length, clean, fits := ReplayLog(wal.value, start);
    if !clean {
      match cut
      case OpenFails => return Err(WalOpenFailed), after, fits;
      case CutFails => return Err(WalWriteFailed), after, fits;
      case SyncFails =>
        return Err(WalSyncFailed), Some(wal.value[..length]), fits;
      case CutOk => after := Some(wal.value[..length]);
    }
    ghost var trialFits;
    r, trialFits := Finish(state, length, order);
    fits := fits && trialFits;
  }

  /** What reading on from here comes to. */
  datatype Outcome = Outcome(state: State, length: nat, end: Parsed<Transaction>)

  ghost function ReadOn(state: State, cursor: nat, rest: seq<byte>): Outcome {
    var scan := ScanLog(rest);
    Outcome(ReplayNew(state, scan.items), cursor + scan.length, scan.end)
  }

  lemma ReadOnStep(state: State, cursor: nat, rest: seq<byte>)
    ensures var p := Parse(rest);
            ReadOn(state, cursor, rest) ==
              if p.Record? then ReadOn(ApplyIfNew(state, p.item), cursor + p.size, rest[p.size..])
              else Outcome(state, cursor, p)
  {
    var p := Parse(rest);
    if p.Record? {
      ScanStep(rest);
      var more := ScanLog(rest[p.size..]);
      assert ([p.item] + more.items)[1..] == more.items;
    }
  }

  lemma ApplyIfNewChart(s: State, tx: Transaction)
    ensures SameChart(s.accounts, ApplyIfNew(s, tx).accounts)
  {
    ApplyLegsChart(s.accounts, tx.legs);
  }

  /** `read` has been read from the file and `all` is what everything comes to in the end. */
  ghost predicate Meets(file: seq<byte>, state: State, cursor: nat, read: Parsed<Transaction>, all: Outcome) {
    if read.Record? then cursor <= |file| && ReadOn(ApplyIfNew(state, read.item), cursor, From(file, cursor)) == all
    else Outcome(state, cursor, read) == all && (read != EndOfLog ==> cursor < |file|)
  }

  /** Nothing that is still to be applied overflows. */
  ghost predicate RestFits(state: State, rest: seq<byte>) {
    ReplayFits(state, ScanLog(rest).items)
  }

  /** The same with `read` already read from the file. */
  ghost predicate ReadFits(file: seq<byte>, state: State, cursor: nat, read: Parsed<Transaction>) {
    read.Record? ==> RecordFits(state, read.item) && RestFits(ApplyIfNew(state, read.item), From(file, cursor))
  }

  lemma RestFitsStep(state: State, rest: seq<byte>)
    ensures var p := Parse(rest);
            RestFits(state, rest) <==>
            (p.Record? ==> RecordFits(state, p.item) && RestFits(ApplyIfNew(state, p.item), rest[p.size..]))
  {
    hide Parse, RecordFits, ApplyIfNew;
    var p := Parse(rest);
    if p.Record? {
      ScanStep(rest);
      var more := ScanLog(rest[p.size..]);
      assert ([p.item] + more.items)[1..] == more.items;
    }
  }

  method ReadMore(reader: BinaryWalReader, ghost state: State) returns (read: Parsed<Transaction>)
    requires reader.Valid()
    modifies reader
    ensures reader.Valid() && reader.file == old(reader.file)
    ensures RestFits(state, From(reader.file, old(reader.cursor))) <==> ReadFits(reader.file, state, reader.cursor, read)
    ensures Meets(reader.file, state, reader.cursor, read, ReadOn(state, old(reader.cursor), From(reader.file, old(reader.cursor))))
    ensures read.Record? ==> |From(reader.file, reader.cursor)| < |From(reader.file, old(reader.cursor))|
  {
    hide RestFits, RecordFits, ApplyIfNew, ParseWhole;
    ghost var rest := From(reader.file, reader.cursor);
    ReadOnStep(state, reader.cursor, rest);
    RestFitsStep(state, rest);
    read := reader.ReadNext();
    if read.Record? {
      assert From(reader.file, reader.cursor) == rest[read.size..];
    }
  }

  method ApplyRecord(working: LedgerState, tx: Transaction) returns (ghost fits: bool)
    modifies working
    ensures RecordFits(old(working.Value()), tx) ==> fits
    ensures working.Value() == ApplyIfNew(old(working.Value()), tx)
    ensures SameChart(old(working.accounts), working.accounts)
  {
    ApplyIfNewChart(working.Value(), tx);
    fits := true;
    if tx.id > working.lastAppliedId {
      var applied;
      applied, fits := working.Apply(tx);
    }
  }

  lemma ChartTransitive(a: Accounts, b: Accounts, c: Accounts)
    requires SameChart(a, b) && SameChart(b, c)
    ensures SameChart(a, c)
  {
    forall id | id in a ensures c[id] == a[id].(balance := c[id].balance) {
      assert id in b.Keys;
    }
  }

  /** The read loop. */
  method ReplayLog(file: seq<byte>, start: Loaded) returns (state: State, length: nat, clean: bool, ghost fits: bool)
    ensures RestFits(start.state, From(file, start.walOffset)) ==> fits
    ensures Recovered(state, length) == Replayed(file, start)
    ensures clean <==> ScanLog(From(file, start.walOffset)).end == EndOfLog
    ensures !clean ==> length <= |file| && file[..length] == CutLog(file, start)
    ensures SameChart(start.state.accounts, state.accounts)
  {
    hide RestFits, RecordFits, ApplyIfNew, ScanLog;
    var reader := new BinaryWalReader(file);
    reader.Seek(start.walOffset);
    var working := new LedgerState(start.state);
    fits := true;
    ghost var all := ReadOn(start.state, start.walOffset, From(file, start.walOffset));
    var read := ReadMore(reader, working.Value());
    while read.Record?
      invariant reader.Valid() && reader.file == file
      invariant Meets(file, working.Value(), reader.cursor, read, all)
      invariant SameChart(start.state.accounts, working.accounts)
      invariant RestFits(start.state, From(file, start.walOffset)) ==> fits && ReadFits(file, working.Value(), reader.cursor, read)
      decreases read.Record?, |From(file, reader.cursor)|
    {
      ghost var before := working.accounts;
      ghost var one := ApplyRecord(working, read.item);
      fits := fits && one;
      ChartTransitive(start.state.accounts, before, working.accounts);
      read := ReadMore(reader, working.Value());
    }
    clean := read == EndOfLog;
    state := State(working.accounts, working.lastAppliedId);
    length := reader.lastValidOffset;
    CutFits(file, start, Outcome(state, length, read));
  }

  lemma CutFits(file: seq<byte>, start: Loaded, all: Outcome)
    requires all == ReadOn(start.state, start.walOffset, From(file, start.walOffset))
    requires all.end != EndOfLog ==> all.length < |file|
    ensures all.end != EndOfLog ==> file[..all.length] == CutLog(file, start)
  {
  }

  lemma ScanStep(s: seq<byte>)
    requires Parse(s).Record?
    ensures ScanLog(s) == Prepend(Parse(s).item, Parse(s).size, ScanLog(s[Parse(s).size..]))
  {
  }

  method Finish(state: State, length: nat, order: seq<u64>) returns (r: Result<Recovered>, ghost fits: bool)
    requires Visits(order, state.accounts.Keys)
    ensures r == Checked(Recovered(state, length))
    ensures fits <==> TrialFits(state.accounts, order)
  {
    var trial;
    trial, fits := ValidateTrialBalance(state.accounts, order);
    r := if trial.Err? then Err(trial.error) else Ok(Recovered(state, length));
  }
}
