/** End to end: the event loop, the log on disk, a crash at any byte, and recovery. */
module CrashSafety {
  import opened Types
  import opened Sums
  import opened Ledger
  import opened Headroom
  import opened Validation
  import opened Framing
  import opened WalFormat
  import opened WalReader
  import opened WalWriter
  import opened Snapshot
  import opened Recovery
  import opened RecoveryProperties
  import opened Engine
  import opened EngineRuns

  // ---------- Recovering any cut of a log ----------

  lemma {:induction false} LogGrows(txs: seq<Transaction>, a: nat, b: nat)
    requires a <= b <= |txs|
    ensures |EncodeLog(txs[..a])| <= |EncodeLog(txs[..b])|
  {
    assert txs[..b][..a] == txs[..a];
    WrittenPrefix(EncodeRecord, txs[..b], a);
  }

  lemma CheckpointOfPrefix(im: Image, seed: State, txs: seq<Transaction>, j: nat, k: nat, n: nat)
    requires IsCheckpoint(im, seed, txs, j, k) && k <= n <= |txs|
    ensures IsCheckpoint(im, seed, txs[..n], j, k)
  {
    hide EncodeRecord, Written, Replay, Writable;
    assert txs[..n][..k] == txs[..k] && txs[..n][..j] == txs[..j];
  }

  /** A written log cut at any byte after what the snapshot covers recovers to the state after the
      records that survived whole, and the log is left with exactly those. */
  lemma RecoverCut(im: Image, seed: State, txs: seq<Transaction>, j: nat, covered: nat, n: nat) returns (k: nat)
    requires IsCheckpoint(im, seed, txs, j, covered)
    requires AllExist(seed.accounts, txs) && Increasing(seed.lastId, txs)
    requires |EncodeLog(txs[..covered])| <= n <= |EncodeLog(txs)|
    ensures covered <= k <= |txs| && |EncodeLog(txs[..k])| <= n
    ensures k < |txs| ==> n < |EncodeLog(txs[..k + 1])|
    ensures RecoverOf(Some(EncodeLog(txs)[..n]), Some(EncodeSnapshot(im)), CutOk)
         == (Checked(Recovered(Replay(seed, txs[..k]), |EncodeLog(txs[..k])|)), Some(EncodeLog(txs[..k])))
  {
    hide RecoverFrom, RecoverOf, EncodeRecord, EncodeSnapshot;
    k := CutWritten(EncodeRecord, txs, n);
    if k < |txs| {
      SurvivingCount(txs, covered, n, k);
      TornRecovers(im, seed, txs, j, covered, n, k);
    } else {
      assert txs[..k] == txs && EncodeLog(txs)[..n] == EncodeLog(txs) + [];
      RecoverCheckpoint(im, seed, txs, j, covered, []);
    }
  }

  lemma SurvivingCount(txs: seq<Transaction>, covered: nat, n: nat, k: nat)
    requires covered <= |txs| && k < |txs|
    requires |EncodeLog(txs[..covered])| <= n < |EncodeLog(txs[..k])| + |EncodeRecord(txs[k])|
    ensures covered <= k && n < |EncodeLog(txs[..k + 1])|
  {
    hide EncodeRecord, Written;
    assert txs[..k + 1] == txs[..k] + [txs[k]];
    WrittenSnoc(EncodeRecord, txs[..k], txs[k]);
    if k < covered {
      LogGrows(txs, k + 1, covered);
    }
  }

  lemma TornRecovers(im: Image, seed: State, txs: seq<Transaction>, j: nat, covered: nat, n: nat, k: nat)
    requires IsCheckpoint(im, seed, txs, j, covered) && covered <= k < |txs|
    requires AllExist(seed.accounts, txs) && Increasing(seed.lastId, txs)
    requires |EncodeLog(txs[..k])| <= n < |EncodeLog(txs[..k])| + |EncodeRecord(txs[k])| && n <= |EncodeLog(txs)|
    ensures RecoverOf(Some(EncodeLog(txs)[..n]), Some(EncodeSnapshot(im)), CutOk)
         == (Checked(Recovered(Replay(seed, txs[..k]), |EncodeLog(txs[..k])|)), Some(EncodeLog(txs[..k])))
  {
    hide RecoverFrom, RecoverOf, EncodeRecord, EncodeSnapshot, Written, Replay, Checked, Increasing, AccountsExist, Writable, Parse;
    IncreasingPrefix(seed.lastId, txs, k);
    CheckpointOfPrefix(im, seed, txs, j, covered, k);
    CutTail(EncodeRecord, txs, k, n);
    var m := n - |EncodeLog(txs[..k])|;
    ParseTorn(txs[k], m);
    RecoverCheckpoint(im, seed, txs[..k], j, covered, EncodeRecord(txs[k])[..m]);
  }

  // ---------- What is durable ----------

  lemma SyncStep(cfg: Config, e: Engine, ev: Event)
    requires cfg.mode == SyncEveryWrite
    ensures ResultOf(cfg, e, ev).Ok? ==> Step(cfg, e, ev).log.synced == |Step(cfg, e, ev).log.content|
    ensures ResultOf(cfg, e, ev).Err? ==> Step(cfg, e, ev).log.synced == e.log.synced
  {
    StepLog(cfg, e, ev);
    AppendMeaning(e.log, cfg.mode, ev.req.tx, ev.io);
  }

  /** With a sync on every write, every record up to the last acknowledged one is durable. */
  lemma {:induction false} AcknowledgedIsDurable(cfg: Config, e: Engine, events: seq<Event>)
    requires cfg.mode == SyncEveryWrite && NoTears(cfg, e, events) && e.log.synced == |e.log.content|
    ensures Acknowledged(cfg, e, events) <= |Logged(cfg, e, events)|
    ensures |e.log.content| + |EncodeLog(Logged(cfg, e, events)[..Acknowledged(cfg, e, events)])| <= Run(cfg, e, events).log.synced
  {
    hide Step, ResultOf, Logs, Tears, EncodeRecord;
    var logged := Logged(cfg, e, events);
    if events != [] {
      var before := Run(cfg, e, Front(events));
      AcknowledgedIsDurable(cfg, e, Front(events));
      SyncStep(cfg, before, Last(events));
      if ResultOf(cfg, before, Last(events)).Ok? {
        ContentIsLog(cfg, e, events);
        assert logged[..|logged|] == logged;
      } else {
        var n := Acknowledged(cfg, e, Front(events));
        assert logged[..n] == Logged(cfg, e, Front(events))[..n];
      }
    }
  }

  /** Every acknowledged transaction is among the records logged up to that point. */
  lemma {:induction false} AcknowledgedIsLogged(cfg: Config, e: Engine, events: seq<Event>)
    ensures Acknowledged(cfg, e, events) <= |Logged(cfg, e, events)|
    ensures forall tx :: tx in Committed(cfg, e, events) ==> tx in Logged(cfg, e, events)[..Acknowledged(cfg, e, events)]
  {
    hide Step, ResultOf, Logs, EncodeRecord;
    if events != [] {
      var before := Run(cfg, e, Front(events));
      AcknowledgedIsLogged(cfg, e, Front(events));
      var logged, front := Logged(cfg, e, events), Logged(cfg, e, Front(events));
      var n := Acknowledged(cfg, e, Front(events));
      assert logged[..n] == front[..n];
      OkLogs(cfg, before, Last(events));
      if ResultOf(cfg, before, Last(events)).Ok? {
        assert logged[..|logged|] == logged == front + [Entry(Last(events))];
        forall tx | tx in Committed(cfg, e, events) ensures tx in logged {
          if tx != Entry(Last(events)) {
            assert tx in front[..n];
          }
        }
      }
    }
  }

  // ---------- Crash safety ----------

  /** An engine can be opened on the seed accounts and the log of earlier runs. A first start is
      `prior == []`. */
  ghost predicate Startable(seed: State, prior: seq<Transaction>) {
    Sound(seed.accounts, prior) && Imbalance(seed.accounts) == 0
  }

  function Reopened(seed: State, prior: seq<Transaction>): Engine {
    Opened(Replay(seed, prior), EncodeLog(prior))
  }

  /** All records in the file after the run. */
  function Records(cfg: Config, seed: State, prior: seq<Transaction>, events: seq<Event>): seq<Transaction> {
    prior + Logged(cfg, Reopened(seed, prior), events)
  }

  lemma SoundExists(accounts: Accounts, txs: seq<Transaction>)
    requires Sound(accounts, txs)
    ensures AllExist(accounts, txs)
  {
  }

  lemma RecordsSound(cfg: Config, seed: State, prior: seq<Transaction>, events: seq<Event>)
    requires Sound(seed.accounts, prior)
    ensures Sound(seed.accounts, Records(cfg, seed, prior, events))
  {
    var e := Reopened(seed, prior);
    LoggedSound(cfg, e, events);
    WellShapedIsSound(e.working.accounts, Logged(cfg, e, events));
    ReplayChart(seed, prior);
    SoundInChart(e.working.accounts, seed.accounts, Logged(cfg, e, events));
  }

  lemma SoundInChart(a: Accounts, b: Accounts, txs: seq<Transaction>)
    requires SameChart(b, a) && Sound(a, txs)
    ensures Sound(b, txs)
  {
    forall i | 0 <= i < |txs| ensures AccountsExist(b, txs[i].legs) {
      forall l | 0 <= l < |txs[i].legs| ensures txs[i].legs[l].accountId in b {
        assert txs[i].legs[l].accountId in a.Keys;
      }
    }
  }

  lemma RecordsContent(cfg: Config, seed: State, prior: seq<Transaction>, events: seq<Event>)
    requires NoTears(cfg, Reopened(seed, prior), events)
    ensures Run(cfg, Reopened(seed, prior), events).log.content == EncodeLog(Records(cfg, seed, prior, events))
  {
    var e := Reopened(seed, prior);
    ContentIsLog(cfg, e, events);
    WrittenConcat(EncodeRecord, prior, Logged(cfg, e, events));
  }

  /** Where the last acknowledged record ends. */
  lemma AcknowledgedBoundary(cfg: Config, seed: State, prior: seq<Transaction>, events: seq<Event>)
    requires cfg.mode == SyncEveryWrite && NoTears(cfg, Reopened(seed, prior), events)
    ensures var e := Reopened(seed, prior);
            var acked := |prior| + Acknowledged(cfg, e, events);
            && acked <= |Records(cfg, seed, prior, events)|
            && |EncodeLog(Records(cfg, seed, prior, events)[..acked])| <= Run(cfg, e, events).log.synced
  {
    hide EncodeRecord, Written, Replay, Run, NoTears, Logged;
    var e := Reopened(seed, prior);
    var logged, n := Logged(cfg, e, events), Acknowledged(cfg, e, events);
    AcknowledgedIsDurable(cfg, e, events);
    assert (prior + logged)[..|prior| + n] == prior + logged[..n];
    WrittenConcat(EncodeRecord, prior, logged[..n]);
  }

  /** The cut log recovers to a prefix of the records that includes every acknowledged one. */
  lemma RecoverPrefix(im: Image, seed: State, records: seq<Transaction>, j: nat, covered: nat, acked: nat, n: nat) returns (k: nat)
    requires IsCheckpoint(im, seed, records, j, covered) && covered <= acked <= |records|
    requires Startable(seed, records) && Increasing(seed.lastId, records)
    requires |EncodeLog(records[..acked])| <= n <= |EncodeLog(records)|
    ensures acked <= k <= |records| && |EncodeLog(records[..k])| <= n
    ensures RecoverOf(Some(EncodeLog(records)[..n]), Some(EncodeSnapshot(im)), CutOk)
         == (Ok(Recovered(Replay(seed, records[..k]), |EncodeLog(records[..k])|)), Some(EncodeLog(records[..k])))
  {
    hide RecoverFrom, RecoverOf, EncodeRecord, EncodeSnapshot, Written, Replay, Imbalance, Writable, Increasing, AccountsExist;
    LogGrows(records, covered, acked);
    SoundExists(seed.accounts, records);
    k := RecoverCut(im, seed, records, j, covered, n);
    if k < acked {
      LogGrows(records, k + 1, acked);
    }
    ReplayConserves(seed, records[..k]);
  }

  /** Crash between requests. In the mode that syncs every write, after any run without a short
      write, cut the file at any byte at or after the synced length: recovery from any checkpoint of
      acknowledged records, of earlier runs or this one, succeeds with exactly the state after some
      number of the logged transactions, no fewer than those logged when the last success was
      acknowledged, and every acknowledged transaction is among them. */
  lemma CrashBetweenRequests(cfg: Config, im: Image, seed: State, prior: seq<Transaction>, j: nat, covered: nat,
                             events: seq<Event>, n: nat) returns (k: nat)
    requires cfg.mode == SyncEveryWrite && Startable(seed, prior)
    requires IsCheckpoint(im, seed, Records(cfg, seed, prior, events), j, covered)
    requires covered <= |prior| + Acknowledged(cfg, Reopened(seed, prior), events)
    requires NoTears(cfg, Reopened(seed, prior), events)
    requires Increasing(seed.lastId, Records(cfg, seed, prior, events))
    requires var log := Run(cfg, Reopened(seed, prior), events).log;
             log.synced <= n <= |log.content|
    ensures var e := Reopened(seed, prior);
            var records := Records(cfg, seed, prior, events);
            && |prior| + Acknowledged(cfg, e, events) <= k <= |records|
            && (forall tx :: tx in Committed(cfg, e, events) ==> tx in records[..k])
            && RecoverOf(Some(Run(cfg, e, events).log.content[..n]), Some(EncodeSnapshot(im)), CutOk)
                 == (Ok(Recovered(Replay(seed, records[..k]), |EncodeLog(records[..k])|)), Some(EncodeLog(records[..k])))
  {
    hide RecoverFrom, RecoverOf, EncodeRecord, EncodeSnapshot, Written, Replay, Checked, Run, NoTears, Logged, Committed, Acknowledged, Writable, Increasing;
    var e := Reopened(seed, prior);
    var records := Records(cfg, seed, prior, events);
    RecordsSound(cfg, seed, prior, events);
    RecordsContent(cfg, seed, prior, events);
    AcknowledgedBoundary(cfg, seed, prior, events);
    k := RecoverPrefix(im, seed, records, j, covered, |prior| + Acknowledged(cfg, e, events), n);
    AcknowledgedInPrefix(cfg, seed, prior, events, records, k);
  }

  lemma AcknowledgedInPrefix(cfg: Config, seed: State, prior: seq<Transaction>, events: seq<Event>, records: seq<Transaction>, k: nat)
    requires |prior| + Acknowledged(cfg, Reopened(seed, prior), events) <= k <= |records|
    requires Records(cfg, seed, prior, events) <= records
    ensures forall tx :: tx in Committed(cfg, Reopened(seed, prior), events) ==> tx in records[..k]
  {
    hide Step, ResultOf, Logs, EncodeRecord;
    var e := Reopened(seed, prior);
    AcknowledgedIsLogged(cfg, e, events);
    var logged, n := Logged(cfg, e, events), Acknowledged(cfg, e, events);
    forall tx | tx in Committed(cfg, e, events) ensures tx in records[..k] {
      var i :| 0 <= i < n && logged[..n][i] == tx;
      assert records[..k][|prior| + i] == tx;
    }
  }

  /** Crash during an append: any number of bytes of one more admitted record have reached the file
      when the power goes. The extra transaction is recovered only if its record is complete. */
  lemma CrashDuringAppend(cfg: Config, im: Image, seed: State, prior: seq<Transaction>, j: nat, covered: nat,
                          events: seq<Event>, ev: Event, m: nat, n: nat) returns (k: nat)
    requires cfg.mode == SyncEveryWrite && Startable(seed, prior)
    requires IsCheckpoint(im, seed, Records(cfg, seed, prior, events), j, covered)
    requires covered <= |prior| + Acknowledged(cfg, Reopened(seed, prior), events)
    requires NoTears(cfg, Reopened(seed, prior), events)
    requires Admit(Run(cfg, Reopened(seed, prior), events), ev.req.tx).Ok? && m <= |EncodeRecord(Entry(ev))|
    requires Increasing(seed.lastId, Records(cfg, seed, prior, events) + [Entry(ev)])
    requires var log := Run(cfg, Reopened(seed, prior), events).log;
             log.synced <= n <= |log.content| + m
    ensures var e := Reopened(seed, prior);
            var records := Records(cfg, seed, prior, events) + [Entry(ev)];
            && |prior| + Acknowledged(cfg, e, events) <= k <= |records|
            && (k == |records| ==> m == |EncodeRecord(Entry(ev))|)
            && (forall tx :: tx in Committed(cfg, e, events) ==> tx in records[..k])
            && RecoverOf(Some((Run(cfg, e, events).log.content + EncodeRecord(Entry(ev))[..m])[..n]), Some(EncodeSnapshot(im)), CutOk)
                 == (Ok(Recovered(Replay(seed, records[..k]), |EncodeLog(records[..k])|)), Some(EncodeLog(records[..k])))
  {
    hide RecoverFrom, RecoverOf, EncodeRecord, EncodeSnapshot, Written, Replay, Checked, Run, NoTears, Logged, Committed, Acknowledged, Writable, Increasing, Admit, IsCheckpoint;
    var e := Reopened(seed, prior);
    var run := Run(cfg, e, events);
    var done := Records(cfg, seed, prior, events);
    var records := done + [Entry(ev)];
    var acked := |prior| + Acknowledged(cfg, e, events);
    InFlightSound(cfg, seed, prior, events, ev);
    RecordsContent(cfg, seed, prior, events);
    AcknowledgedBoundary(cfg, seed, prior, events);
    WrittenSnoc(EncodeRecord, done, Entry(ev));
    CutOfCut(EncodeLog(done), EncodeRecord(Entry(ev)), m, n);
    assert records[..acked] == done[..acked];
    CheckpointExtends(im, seed, done, [Entry(ev)], j, covered);
    k := RecoverPrefix(im, seed, records, j, covered, acked, n);
    if k == |records| {
      assert records[..k] == records;
    }
    AcknowledgedInPrefix(cfg, seed, prior, events, records, k);
  }

  /** A checkpoint of a log is a checkpoint of every longer one. */
  lemma CheckpointExtends(im: Image, seed: State, txs: seq<Transaction>, more: seq<Transaction>, j: nat, covered: nat)
    requires IsCheckpoint(im, seed, txs, j, covered)
    ensures IsCheckpoint(im, seed, txs + more, j, covered)
  {
    hide EncodeRecord, Written, Replay, Writable;
    assert (txs + more)[..covered] == txs[..covered] && (txs + more)[..j] == txs[..j];
  }

  lemma CutOfCut(a: seq<byte>, b: seq<byte>, m: nat, n: nat)
    requires m <= |b| && n <= |a| + m
    ensures (a + b[..m])[..n] == (a + b)[..n]
  {
  }

  lemma InFlightSound(cfg: Config, seed: State, prior: seq<Transaction>, events: seq<Event>, ev: Event)
    requires Sound(seed.accounts, prior) && Admit(Run(cfg, Reopened(seed, prior), events), ev.req.tx).Ok?
    ensures Sound(seed.accounts, Records(cfg, seed, prior, events) + [Entry(ev)])
  {
    var e := Reopened(seed, prior);
    var run := Run(cfg, e, events);
    RecordsSound(cfg, seed, prior, events);
    AdmitMeaning(run, ev.req.tx);
    RunChart(cfg, e, events);
    ReplayChart(seed, prior);
    ChartTransitive(seed.accounts, e.working.accounts, run.working.accounts);
    EntrySound(seed.accounts, run.working.accounts, ev);
  }

  /** Either mode, any cut behind what the snapshot covers: recovery returns the state after as many
      records as fit into what is left. Which cuts can happen is what the sync mode and the calls of
      flush decide (module FlushRuns). */
  lemma CrashInAnyMode(cfg: Config, im: Image, seed: State, prior: seq<Transaction>, j: nat, covered: nat,
                       events: seq<Event>, kept: nat, n: nat) returns (k: nat)
    requires Startable(seed, prior) && NoTears(cfg, Reopened(seed, prior), events)
    requires IsCheckpoint(im, seed, Records(cfg, seed, prior, events), j, covered)
    requires Increasing(seed.lastId, Records(cfg, seed, prior, events))
    requires covered <= kept <= |Records(cfg, seed, prior, events)|
    requires |EncodeLog(Records(cfg, seed, prior, events)[..kept])| <= n <= |Run(cfg, Reopened(seed, prior), events).log.content|
    ensures var records := Records(cfg, seed, prior, events);
            && kept <= k <= |records| && |EncodeLog(records[..k])| <= n
            && RecoverOf(Some(Run(cfg, Reopened(seed, prior), events).log.content[..n]), Some(EncodeSnapshot(im)), CutOk)
                 == (Ok(Recovered(Replay(seed, records[..k]), |EncodeLog(records[..k])|)), Some(EncodeLog(records[..k])))
  {
    hide RecoverFrom, RecoverOf, EncodeRecord, EncodeSnapshot, Written, Replay, Run, NoTears, Logged, Writable, Increasing;
    RecordsSound(cfg, seed, prior, events);
    RecordsContent(cfg, seed, prior, events);
    k := RecoverPrefix(im, seed, Records(cfg, seed, prior, events), j, covered, kept, n);
  }

  /** Without any append failure nothing at all is lost: recovery returns the working state. */
  lemma NoFailureNoLoss(cfg: Config, im: Image, seed: State, prior: seq<Transaction>, j: nat, covered: nat, events: seq<Event>)
    requires cfg.mode == SyncEveryWrite && Startable(seed, prior)
    requires IsCheckpoint(im, seed, Records(cfg, seed, prior, events), j, covered)
    requires NoTears(cfg, Reopened(seed, prior), events) && NoSyncFailure(cfg, Reopened(seed, prior), events)
    requires Increasing(seed.lastId, Records(cfg, seed, prior, events))
    ensures var e := Reopened(seed, prior);
            var run := Run(cfg, e, events);
            && run.log.synced == |run.log.content|
            && RecoverOf(Some(run.log.content), Some(EncodeSnapshot(im)), CutOk)
                 == (Ok(Recovered(run.working, |run.log.content|)), Some(run.log.content))
  {
    hide RecoverFrom, RecoverOf, EncodeRecord, EncodeSnapshot, Written, Replay, Checked, Run, Logged, NoTears, NoSyncFailure, Writable, Increasing, Visits;
    NoFailureFacts(cfg, seed, prior, events);
    RecordsSound(cfg, seed, prior, events);
    var records := Records(cfg, seed, prior, events);
    var content := Run(cfg, Reopened(seed, prior), events).log.content;
    assert records[..|records|] == records && content[..|content|] == content;
    var k := RecoverPrefix(im, seed, records, j, covered, |records|, |content|);
  }

  lemma NoFailureFacts(cfg: Config, seed: State, prior: seq<Transaction>, events: seq<Event>)
    requires cfg.mode == SyncEveryWrite
    requires NoTears(cfg, Reopened(seed, prior), events) && NoSyncFailure(cfg, Reopened(seed, prior), events)
    ensures var run := Run(cfg, Reopened(seed, prior), events);
            var records := Records(cfg, seed, prior, events);
            && run.log.synced == |run.log.content|
            && run.log.content == EncodeLog(records)
            && run.working == Replay(seed, records)
  {
    hide EncodeRecord, Written, Replay, Run, NoTears, NoSyncFailure, Logged, Committed;
    var e := Reopened(seed, prior);
    AllSynced(cfg, e, events);
    LogAgreesIff(cfg, e, events);
    RecordsContent(cfg, seed, prior, events);
    WorkingIsReplay(cfg, e, events);
    ReplayConcat(seed, prior, Committed(cfg, e, events));
  }

  lemma {:induction false} AllSynced(cfg: Config, e: Engine, events: seq<Event>)
    requires cfg.mode == SyncEveryWrite && NoTears(cfg, e, events) && NoSyncFailure(cfg, e, events)
    requires e.log.synced == |e.log.content|
    ensures Run(cfg, e, events).log.synced == |Run(cfg, e, events).log.content|
  {
    if events != [] {
      var before := Run(cfg, e, Front(events));
      AllSynced(cfg, e, Front(events));
      SyncStep(cfg, before, Last(events));
      OkLogs(cfg, before, Last(events));
      StepContent(cfg, before, Last(events));
      assert before.log.content + [] == before.log.content;
    }
  }

  /** With no assumption on ids: from the seed snapshot, recovery of the whole log returns the
      transactions that were new highs among those logged. Acknowledged transactions that were
      logged below an earlier id are not in the recovered state. */
  lemma AnyOrderRecovers(cfg: Config, im: Image, seed: State, events: seq<Event>)
    requires Startable(seed, []) && IsCheckpoint(im, seed, [], 0, 0) && NoTears(cfg, Reopened(seed, []), events)
    ensures var run := Run(cfg, Reopened(seed, []), events);
            RecoverOf(Some(run.log.content), Some(EncodeSnapshot(im)), CutOk)
              == (Ok(Recovered(Replay(seed, Highs(seed.lastId, Logged(cfg, Reopened(seed, []), events))), |run.log.content|)),
                  Some(run.log.content))
  {
    hide Run, Logged, Replay, EncodeRecord, EncodeSnapshot, NoTears, Parse;
    var logged := Logged(cfg, Reopened(seed, []), events);
    RecordsSound(cfg, seed, [], events);
    RecordsContent(cfg, seed, [], events);
    assert [] + logged == logged;
    WholeLogRecovers(im, seed, logged);
  }

  lemma WholeLogRecovers(im: Image, seed: State, txs: seq<Transaction>)
    requires Startable(seed, txs) && IsCheckpoint(im, seed, [], 0, 0)
    ensures RecoverOf(Some(EncodeLog(txs)), Some(EncodeSnapshot(im)), CutOk)
         == (Ok(Recovered(Replay(seed, Highs(seed.lastId, txs)), |EncodeLog(txs)|)), Some(EncodeLog(txs)))
  {
    hide EncodeLog, EncodeSnapshot, Imbalance, ScanLog, Replay, Highs, DecodeSnapshot;
    SnapshotRoundTrip(im);
    assert im.state == seed && im.walOffset == 0 by {
      CheckpointOfNothing(im, seed);
    }
    ScanWholeLog(txs);
    SoundExists(seed.accounts, txs);
    ReplayMeaning(seed, txs);
    BalancedRecovers(seed, txs, |EncodeLog(txs)|);
  }

  lemma CheckpointOfNothing(im: Image, seed: State)
    requires IsCheckpoint(im, seed, [], 0, 0)
    ensures im.state == seed && im.walOffset == 0
  {
  }

  lemma ScanWholeLog(txs: seq<Transaction>)
    ensures ScanLog(From(EncodeLog(txs), 0)) == Scanned(txs, |EncodeLog(txs)|, EndOfLog)
  {
    hide EncodeRecord, Parse;
    Format();
    ScanAllWritten(Parse, EncodeRecord, txs);
    assert EncodeLog(txs)[0..] == EncodeLog(txs);
  }

  // ---------- Snapshots taken during a run ----------

  /** As long as no sync has failed, the working state and the writer's length are a checkpoint of
      acknowledged records, for the rest of the run. */
  lemma WorkingIsCheckpoint(cfg: Config, im: Image, seed: State, prior: seq<Transaction>, a: seq<Event>, b: seq<Event>)
    requires NoTears(cfg, Reopened(seed, prior), a) && NoSyncFailure(cfg, Reopened(seed, prior), a)
    requires var run := Run(cfg, Reopened(seed, prior), a);
             Writable(im) && im.state == run.working && im.walOffset == run.log.offset
    ensures var k := |Records(cfg, seed, prior, a)|;
            && IsCheckpoint(im, seed, Records(cfg, seed, prior, a + b), k, k)
            && k <= |prior| + Acknowledged(cfg, Reopened(seed, prior), a + b)
  {
    hide EncodeRecord, Written, Replay, Run, NoTears, NoSyncFailure, Logged, Committed, Acknowledged, Writable;
    var e := Reopened(seed, prior);
    var records := Records(cfg, seed, prior, a);
    LogAgreesIff(cfg, e, a);
    WorkingIsReplay(cfg, e, a);
    ReplayConcat(seed, prior, Committed(cfg, e, a));
    OffsetTruthfulIff(cfg, e, a);
    RecordsContent(cfg, seed, prior, a);
    LoggedGrows(cfg, e, a, b);
    AcknowledgedWithinLog(cfg, e, a);
    assert Records(cfg, seed, prior, a + b)[..|records|] == records;
  }

  /** The snapshot the demo writes: the published state with the writer's length. Recovery from it
      returns the published state, so what was committed since the last publication is lost. */
  lemma PublishedSnapshot(cfg: Config, im: Image, seed: State, prior: seq<Transaction>, events: seq<Event>)
    requires Startable(seed, prior) && NoTears(cfg, Reopened(seed, prior), events)
    requires var run := Run(cfg, Reopened(seed, prior), events);
             Writable(im) && im.state == run.published && im.walOffset == run.log.offset
    ensures var run := Run(cfg, Reopened(seed, prior), events);
            RecoverOf(Some(run.log.content), Some(EncodeSnapshot(im)), CutOk)
              == (Ok(Recovered(run.published, |run.log.content|)), Some(run.log.content))
  {
    hide EncodeRecord, Written, Replay, Run, NoTears, Logged, EncodeSnapshot, RecoverOf, Writable, Imbalance;
    var e := Reopened(seed, prior);
    var records := Records(cfg, seed, prior, events);
    OffsetTruthfulIff(cfg, e, events);
    RecordsContent(cfg, seed, prior, events);
    assert records[..|records|] == records && records[|records|..] == [] && EncodeLog(records) + [] == EncodeLog(records);
    RecoverFromBoundary(im, records, |records|, []);
    ReplayConserves(seed, prior);
    NoAccountsBalance();
    BooksStayBalanced(cfg, e, events);
  }

  lemma NoAccountsBalance()
    ensures Imbalance(EMPTY.accounts) == 0
  {
    assert Weights(map[]) == map[];
  }

  /** Once something is committed, with increasing ids: such a snapshot loses nothing exactly if it is
      written when the last commit has just been published. */
  lemma PublishedIsWorkingIff(cfg: Config, seed: State, prior: seq<Transaction>, events: seq<Event>)
    requires Committed(cfg, Reopened(seed, prior), events) != []
    requires Increasing(Replay(seed, prior).lastId, Committed(cfg, Reopened(seed, prior), events))
    ensures var run := Run(cfg, Reopened(seed, prior), events);
            run.published == run.working <==> run.sincePublish == 0
  {
    hide Run, Committed, Replay, Increasing, WellShaped, Sound, AllExist;
    var e := Reopened(seed, prior);
    var committed, run := Committed(cfg, e, events), Run(cfg, e, events);
    PublishedLags(cfg, e, events);
    WorkingIsReplay(cfg, e, events);
    LoggedSound(cfg, e, events);
    WellShapedIsSound(e.working.accounts, committed);
    SoundExists(e.working.accounts, committed);
    assert committed[..|committed|] == committed;
    if run.sincePublish != 0 {
      EarlierIsLower(e.working, committed, |committed| - run.sincePublish);
    }
  }

  lemma EarlierIsLower(s: State, txs: seq<Transaction>, m: nat)
    requires AllExist(s.accounts, txs) && Increasing(s.lastId, txs) && m < |txs|
    ensures Replay(s, txs[..m]).lastId < Replay(s, txs).lastId && 0 < Replay(s, txs).lastId
  {
    hide Replay, Increasing, AccountsExist;
    IncreasingMeans(s.lastId, txs);
    IncreasingPrefix(s.lastId, txs, m);
    LastIdTop(s, txs);
    LastIdTop(s, txs[..m]);
    var n := |txs| - 1;
    assert IsHigh(s.lastId, txs, n);
    if Replay(s, txs[..m]).lastId != s.lastId {
      var i :| 0 <= i < m && txs[..m][i].id == Replay(s, txs[..m]).lastId;
      assert txs[i].id < txs[n].id;
    }
  }

  // ---------- Short writes ----------

  /** The file after a run whose first short write left `t` bytes of a record behind. */
  lemma FileWithTear(cfg: Config, e: Engine, before: seq<Event>, ev: Event, after: seq<Event>)
    requires NoTears(cfg, e, before) && Tears(cfg, Run(cfg, e, before), ev)
    ensures var t := Reaches(ev.io, |EncodeRecord(Entry(ev))|);
            var next := Run(cfg, Run(cfg, e, before), [ev]);
            Run(cfg, e, before + [ev] + after).log.content
              == e.log.content + EncodeLog(Logged(cfg, e, before))
                 + (EncodeRecord(Entry(ev))[..t] + Written(FragmentBytes, Pieces(cfg, next, after)))
  {
    hide EncodeRecord, Written, Step, Logged, NoTears, Pieces, Run;
    var mid := Run(cfg, e, before);
    var next := Run(cfg, mid, [ev]);
    ContentIsLog(cfg, e, before);
    RunConcat(cfg, e, before, [ev]);
    RunConcat(cfg, e, before + [ev], after);
    RunOfOne(cfg, mid, ev);
    StepPieces(cfg, mid, ev);
    ContentIsPieces(cfg, next, after);
  }

  lemma RunOfOne(cfg: Config, e: Engine, ev: Event)
    ensures Run(cfg, e, [ev]) == Step(cfg, e, ev)
    ensures Committed(cfg, e, [ev]) == if ResultOf(cfg, e, ev).Ok? then [Entry(ev)] else []
    ensures Logged(cfg, e, [ev]) == if Logs(cfg, e, ev) then [Entry(ev)] else []
    ensures NoTears(cfg, e, [ev]) <==> !Tears(cfg, e, ev)
    ensures NoSyncFailure(cfg, e, [ev]) <==> !Unsynced(cfg, e, ev)
  {
    hide Step, ResultOf, Logs, Tears, Unsynced;
    assert Front([ev]) == [] && Last([ev]) == ev;
    assert Run(cfg, e, []) == e;
    assert Committed(cfg, e, []) == [] && Logged(cfg, e, []) == [];
    assert NoTears(cfg, e, []) && NoSyncFailure(cfg, e, []);
  }

  /** Every run with a short write, in either mode, whatever happens after it, and a crash at any
      byte behind the torn ones: recovery returns exactly the records before the first tear and cuts
      off everything later, acknowledged or not, if and only if the bytes at the tear do not pass for
      a record by coincidence. */
  lemma TearLosesLater(cfg: Config, im: Image, seed: State, prior: seq<Transaction>, j: nat, covered: nat,
                       before: seq<Event>, ev: Event, after: seq<Event>, n: nat)
    requires Startable(seed, prior) && NoTears(cfg, Reopened(seed, prior), before)
    requires Tears(cfg, Run(cfg, Reopened(seed, prior), before), ev)
    requires IsCheckpoint(im, seed, Records(cfg, seed, prior, before), j, covered)
    requires Increasing(seed.lastId, Records(cfg, seed, prior, before))
    requires var start := |EncodeLog(Records(cfg, seed, prior, before))|;
             start + Reaches(ev.io, |EncodeRecord(Entry(ev))|) <= n
             && n <= |Run(cfg, Reopened(seed, prior), before + [ev] + after).log.content|
    ensures var records := Records(cfg, seed, prior, before);
            var t := Reaches(ev.io, |EncodeRecord(Entry(ev))|);
            var file := Run(cfg, Reopened(seed, prior), before + [ev] + after).log.content;
            RecoverOf(Some(file[..n]), Some(EncodeSnapshot(im)), CutOk)
              == (Ok(Recovered(Replay(seed, records), |EncodeLog(records)|)), Some(EncodeLog(records)))
            <==> !Passes(Entry(ev), t, file[|EncodeLog(records)| + t..n])
  {
    hide RecoverOf, EncodeRecord, EncodeSnapshot, Written, Replay, Run, NoTears, Logged, Writable, Increasing, Passes, Pieces, Admit, Follows, Imbalance;
    var e := Reopened(seed, prior);
    var records := Records(cfg, seed, prior, before);
    var record := EncodeRecord(Entry(ev));
    var t := Reaches(ev.io, |record|);
    var fs := Pieces(cfg, Run(cfg, Run(cfg, e, before), [ev]), after);
    var rest := Written(FragmentBytes, fs);
    var file := Run(cfg, e, before + [ev] + after).log.content;
    FileWithTear(cfg, e, before, ev, after);
    WrittenConcat(EncodeRecord, prior, Logged(cfg, e, before));
    var m := n - |EncodeLog(records)| - t;
    CutBehind(EncodeLog(records), record[..t], rest, file, m);
    PiecesNotEmpty(cfg, Run(cfg, Run(cfg, e, before), [ev]), after);
    FragmentsFollow(fs);
    FollowsPrefix(rest, m);
    RecordsSound(cfg, seed, prior, before);
    SoundExists(seed.accounts, records);
    ReplayConserves(seed, records);
    RecoverTear(im, seed, records, j, covered, Entry(ev), t, rest[..m]);
  }

  lemma CutBehind(a: seq<byte>, b: seq<byte>, c: seq<byte>, file: seq<byte>, m: nat)
    requires file == a + (b + c) && |a| + |b| + m <= |file|
    ensures m <= |c| && file[..|a| + |b| + m] == a + (b + c[..m]) && file[|a| + |b|..|a| + |b| + m] == c[..m]
  {
  }

  lemma FollowsPrefix(rest: seq<byte>, m: nat)
    requires Follows(rest) && m <= |rest|
    ensures Follows(rest[..m])
  {
  }

  // ---------- The conditions can be met ----------

  /** The snapshot of a balanced chart of accounts at log offset zero is what a first start needs. */
  lemma FirstStart(im: Image)
    requires Writable(im) && im.walOffset == 0 && Imbalance(im.state.accounts) == 0
    ensures Startable(im.state, []) && IsCheckpoint(im, im.state, [], 0, 0)
  {
  }

  /** A first transaction that is admitted and whose append succeeds meets every condition of the
      theorems above, and is acknowledged. */
  lemma FirstTransaction(cfg: Config, im: Image, ev: Event)
    requires Writable(im) && im.walOffset == 0 && Imbalance(im.state.accounts) == 0
    requires Admit(Reopened(im.state, []), ev.req.tx).Ok? && ev.req.tx.id > im.state.lastId
    requires ev.io.written >= |EncodeRecord(Entry(ev))| && ev.io.fsyncOk
    ensures var e := Reopened(im.state, []);
            && Startable(im.state, []) && IsCheckpoint(im, im.state, [], 0, 0)
            && NoTears(cfg, e, [ev]) && NoSyncFailure(cfg, e, [ev])
            && Committed(cfg, e, [ev]) == [Entry(ev)]
            && Records(cfg, im.state, [], [ev]) == [Entry(ev)]
            && Increasing(im.state.lastId, Records(cfg, im.state, [], [ev]))
  {
    hide EncodeRecord, Admit, Step, Run, Committed, Logged, NoTears, NoSyncFailure, ResultOf, Imbalance;
    FirstStart(im);
    var e := Reopened(im.state, []);
    RunOfOne(cfg, e, ev);
    OkLogs(cfg, e, ev);
    assert [Entry(ev)][1..] == [];
  }

  // ---------- Promises that fail ----------

  /** A transaction reported as failed is in the recovered state: its record was complete when the
      sync failed. */
  lemma FailedButRecovered(cfg: Config, im: Image, ev: Event)
    requires cfg.mode == SyncEveryWrite && Writable(im) && im.walOffset == 0 && Imbalance(im.state.accounts) == 0
    requires Admit(Reopened(im.state, []), ev.req.tx).Ok? && ev.req.tx.id > im.state.lastId
    requires ev.io.written >= |EncodeRecord(Entry(ev))| && !ev.io.fsyncOk
    ensures var e := Reopened(im.state, []);
            var run := Run(cfg, e, [ev]);
            && ResultOf(cfg, e, ev) == Err(WalSyncFailed)
            && run.working == im.state
            && Replay(im.state, [Entry(ev)]) != im.state
            && RecoverOf(Some(run.log.content), Some(EncodeSnapshot(im)), CutOk)
                 == (Ok(Recovered(Replay(im.state, [Entry(ev)]), |run.log.content|)), Some(run.log.content))
  {
    hide EncodeRecord, Admit, Step, Run, Committed, Logged, NoTears, NoSyncFailure, ResultOf, Imbalance, RecoverOf, Writable, EncodeSnapshot, Replay, IsCheckpoint;
    FirstStart(im);
    var e := Reopened(im.state, []);
    assert Reopened(im.state, []).working == im.state by {
      ReplayNothing(im.state);
    }
    RunOfOne(cfg, e, ev);
    OkLogs(cfg, e, ev);
    WorkingIsReplay(cfg, e, [ev]);
    ReplayNothing(im.state);
    OneHigher(im.state, Entry(ev));
    RecordsSound(cfg, im.state, [], [ev]);
    assert Records(cfg, im.state, [], [ev]) == [Entry(ev)];
    EarlierIsLower(im.state, [Entry(ev)], 0);
    assert [Entry(ev)][..0] == [];
    RecordsContent(cfg, im.state, [], [ev]);
    WholeLogRecovers(im, im.state, [Entry(ev)]);
    NothingSkippedIff(im.state, [Entry(ev)]);
  }

  lemma ReplayNothing(s: State)
    ensures Replay(s, []) == s
  {
  }

  lemma OneHigher(s: State, tx: Transaction)
    requires tx.id > s.lastId
    ensures Increasing(s.lastId, [tx])
  {
    assert [tx][1..] == [];
  }

  /** An acknowledged transaction is lost: the write before it was short by all but `t` bytes, and
      recovery returns the seed state and an empty log. */
  lemma AcknowledgedLost(cfg: Config, im: Image, a: Event, b: Event)
    requires Writable(im) && im.walOffset == 0 && Imbalance(im.state.accounts) == 0
    requires Admit(Reopened(im.state, []), a.req.tx).Ok? && 1 <= a.io.written < 12
    requires Admit(Run(cfg, Reopened(im.state, []), [a]), b.req.tx).Ok?
    requires b.io.written >= |EncodeRecord(Entry(b))| && b.io.fsyncOk
    ensures var e := Reopened(im.state, []);
            && Committed(cfg, e, [a, b]) == [Entry(b)]
            && RecoverOf(Some(Run(cfg, e, [a, b]).log.content), Some(EncodeSnapshot(im)), CutOk)
                 == (Ok(Recovered(im.state, 0)), Some([]))
  {
    hide EncodeRecord, Admit, Step, Run, Logged, NoTears, NoSyncFailure, ResultOf, Imbalance, RecoverOf, Writable, EncodeSnapshot, Replay;
    FirstStart(im);
    var e := Reopened(im.state, []);
    NothingRun(cfg, e);
    ReplayNothing(im.state);
    RunOfOne(cfg, e, a);
    OkLogs(cfg, e, a);
    OkLogs(cfg, Run(cfg, e, [a]), b);
    assert Front([a, b]) == [a] && Last([a, b]) == b;
    assert Committed(cfg, e, [a, b]) == Committed(cfg, e, [a]) + [Entry(b)];
    assert [] + [a] + [b] == [a, b];
    var file := Run(cfg, e, [a, b]).log.content;
    TornFirst(cfg, e, a, b);
    assert file[..|file|] == file;
    TearLosesLater(cfg, im, im.state, [], 0, 0, [], a, [b], |file|);
  }

  lemma NothingRun(cfg: Config, e: Engine)
    ensures Run(cfg, e, []) == e && Logged(cfg, e, []) == [] && NoTears(cfg, e, [])
  {
  }

  lemma TornFirst(cfg: Config, e: Engine, a: Event, b: Event)
    requires Tears(cfg, e, a) && e.log.content == []
    ensures Reaches(a.io, |EncodeRecord(Entry(a))|) <= |Run(cfg, e, [a, b]).log.content|
  {
    hide EncodeRecord, Written, Step, Run, Logged, Pieces, Admit;
    NothingRun(cfg, e);
    assert [] + [a] + [b] == [a, b];
    FileWithTear(cfg, e, [], a, [b]);
  }

  function DemoAccounts(): Accounts {
    map[1 := Account(1, ASSET, 0, 50_000), 2 := Account(2, 3, 0, 0)]
  }

  function DemoTransaction(): Transaction {
    Transaction(1, IdempotencyKey(1, 1), 0, [EntryLeg(2, Debit, 10), EntryLeg(1, Credit, 10)])
  }

  lemma DemoBalanced()
    ensures Imbalance(DemoAccounts()) == 0
  {
    hide AnyOrder, Sum;
    var w := Weights(DemoAccounts());
    SumZero(w, AnyOrder(w.Keys));
  }

  lemma DemoShape()
    ensures ShapeOf(DemoTransaction()).Ok?
  {
    var legs := DemoTransaction().legs;
    assert legs[1..] == [legs[1]] && legs[1..][1..] == [];
  }

  lemma DemoWritable()
    ensures Writable(Image(State(DemoAccounts(), 0), 0, [1, 2], [0, 0, 0, 0]))
  {
    var order: seq<u64> := [1, 2];
    assert order[0] == 1 && order[1] == 2;
  }

  /** The demo's chart of accounts and its first transfer meet the conditions of FirstTransaction. */
  lemma DemoTransfer()
    ensures var seed := State(DemoAccounts(), 0);
            && Writable(Image(seed, 0, [1, 2], [0, 0, 0, 0]))
            && Imbalance(seed.accounts) == 0
            && Admit(Reopened(seed, []), DemoTransaction()).Ok?
            && DemoTransaction().id > seed.lastId
  {
    hide ShapeOf, VerdictOf, Imbalance, Writable;
    DemoBalanced();
    DemoWritable();
    DemoShape();
    TransferVerdict(DemoAccounts(), 2, 1, 10);
  }

  /** The demo's first transfer takes ten off the cash account, which it credits, and ten off the
      revenue account, which it debits. */
  lemma DemoBalances()
    ensures var after := Replay(State(DemoAccounts(), 0), [DemoTransaction()]);
            && 1 in after.accounts && 2 in after.accounts
            && after.accounts[1].balance == -10 && after.accounts[2].balance == -10 && after.lastId == 1
  {
    hide ApplyLegs;
    var s, tx := State(DemoAccounts(), 0), DemoTransaction();
    ReplayOne(s, tx);
    DemoBooked();
    BalanceAfterLegs(s.accounts, tx.legs, 1);
    BalanceAfterLegs(s.accounts, tx.legs, 2);
    ApplyLegsChart(s.accounts, tx.legs);
  }

  lemma ReplayOne(s: State, tx: Transaction)
    ensures Replay(s, [tx]) == After(s, tx)
  {
    hide ApplyTx;
    assert [tx][..0] == [];
    assert Replay(s, []) == s;
  }

  lemma DemoBooked()
    ensures var legs := DemoTransaction().legs;
            && BookedOn(legs, 1, Debit) == 0 && BookedOn(legs, 1, Credit) == 10
            && BookedOn(legs, 2, Debit) == 10 && BookedOn(legs, 2, Credit) == 0
  {
    var legs := DemoTransaction().legs;
    assert legs[1..] == [legs[1]] && legs[1..][1..] == [];
  }

  function DemoNext(): Transaction {
    DemoTransaction().(id := 2, key := IdempotencyKey(2, 2))
  }

  /** The demo's first two transfers, the first with a short write, meet those of AcknowledgedLost. */
  lemma DemoLoss(cfg: Config, a: Event)
    requires a.req.tx == DemoTransaction() && 1 <= a.io.written < 12
    ensures Admit(Run(cfg, Reopened(State(DemoAccounts(), 0), []), [a]), DemoNext()).Ok?
  {
    hide ShapeOf, VerdictOf, Imbalance, EncodeRecord, Run, Step;
    var e := Reopened(State(DemoAccounts(), 0), []);
    DemoTransfer();
    RunOfOne(cfg, e, a);
    OkLogs(cfg, e, a);
    StepState(cfg, e, a);
    StepKeys(cfg, e, a);
    assert ShapeOf(DemoNext()) == ShapeOf(DemoTransaction()) by {
      SameShape(DemoNext(), DemoTransaction());
    }
  }

  lemma SameShape(a: Transaction, b: Transaction)
    requires a.legs == b.legs
    ensures ShapeOf(a) == ShapeOf(b)
  {
  }
}
