/** Runs in which the caller also flushes the log, as batch mode asks of it. */
module FlushRuns {
  import opened Types
  import opened Ledger
  import opened Validation
  import opened Lru
  import opened Framing
  import opened WalFormat
  import opened WalWriter
  import opened Snapshot
  import opened Recovery
  import opened RecoveryProperties
  import opened Engine
  import opened EngineRuns
  import opened CrashSafety

  datatype Act = Handle(ev: Event) | Flush(fsyncOk: bool)

  function Do(cfg: Config, e: Engine, act: Act): Engine {
    match act
    case Handle(ev) => Step(cfg, e, ev)
    case Flush(fsyncOk) => e.(log := FlushOf(e.log, fsyncOk).0)
  }

  function RunActs(cfg: Config, e: Engine, acts: seq<Act>): Engine {
    if acts == [] then e else Do(cfg, RunActs(cfg, e, Front(acts)), Last(acts))
  }

  /** The requests among the acts. */
  function EventsOf(acts: seq<Act>): seq<Event> {
    if acts == [] then [] else EventsOf(Front(acts)) + if Last(acts).Handle? then [Last(acts).ev] else []
  }

  // ---------- Flushing changes nothing but durability ----------

  /** The same but for what is known to be on stable storage. */
  predicate Alike(a: Engine, b: Engine) {
    a == b.(log := b.log.(synced := a.log.synced, dirty := a.log.dirty))
  }

  lemma StepAlike(cfg: Config, a: Engine, b: Engine, ev: Event)
    requires Alike(a, b)
    ensures Alike(Step(cfg, a, ev), Step(cfg, b, ev))
  {
    hide EncodeRecord, Admit, ApplyTx, Touch;
    AdmitAlike(a, b, ev.req.tx);
  }

  lemma AdmitAlike(a: Engine, b: Engine, tx: Transaction)
    requires Alike(a, b)
    ensures Admit(a, tx) == Admit(b, tx)
  {
    hide ShapeOf, VerdictOf;
  }

  /** A run with flushes goes through the same states, completions and file contents as without. */
  lemma {:induction false} ActsAlike(cfg: Config, e: Engine, acts: seq<Act>)
    ensures Alike(RunActs(cfg, e, acts), Run(cfg, e, EventsOf(acts)))
  {
    hide Step, Do, Alike;
    if acts == [] {
      SameIsAlike(e);
    } else {
      var events := EventsOf(Front(acts));
      ActsAlike(cfg, e, Front(acts));
      DoAlike(cfg, RunActs(cfg, e, Front(acts)), Run(cfg, e, events), Last(acts));
      if Last(acts).Handle? {
        assert Front(events + [Last(acts).ev]) == events && Last(events + [Last(acts).ev]) == Last(acts).ev;
      } else {
        assert events + [] == events;
      }
    }
  }

  lemma SameIsAlike(e: Engine)
    ensures Alike(e, e)
  {
  }

  lemma DoAlike(cfg: Config, a: Engine, b: Engine, act: Act)
    requires Alike(a, b)
    ensures Alike(Do(cfg, a, act), if act.Handle? then Step(cfg, b, act.ev) else b)
  {
    if act.Handle? {
      StepAlike(cfg, a, b, act.ev);
    }
  }

  // ---------- The dirty flag ----------

  /** The length of the file when the last complete record had been written. */
  function LastComplete(cfg: Config, e: Engine, acts: seq<Act>): nat {
    if acts == [] then |e.log.content|
    else
      var before := RunActs(cfg, e, Front(acts));
      if Last(acts).Handle? && Logs(cfg, before, Last(acts).ev) then |RunActs(cfg, e, acts).log.content|
      else LastComplete(cfg, e, Front(acts))
  }

  /** Every complete record is on stable storage unless the flag says otherwise. */
  predicate FlagHonest(log: Log, lastComplete: nat) {
    log.synced <= |log.content| && lastComplete <= |log.content| && (!log.dirty ==> log.synced >= lastComplete)
  }

  lemma DoKeepsFlag(cfg: Config, e: Engine, act: Act, lastComplete: nat)
    requires FlagHonest(e.log, lastComplete)
    ensures var n := Do(cfg, e, act);
            && FlagHonest(n.log, if act.Handle? && Logs(cfg, e, act.ev) then |n.log.content| else lastComplete)
            && e.log.synced <= n.log.synced
  {
    hide EncodeRecord, ShapeOf, VerdictOf;
    if act.Handle? {
      hide Step;
      StepLog(cfg, e, act.ev);
    }
  }

  /** In every run, with flushes, short writes and failed syncs anywhere, in either mode: if the
      dirty flag is clear every complete record is on stable storage. */
  lemma {:induction false} FlagStaysHonest(cfg: Config, e: Engine, acts: seq<Act>)
    requires e.log.synced == |e.log.content|
    ensures FlagHonest(RunActs(cfg, e, acts).log, LastComplete(cfg, e, acts))
  {
    hide Do, Logs;
    if acts != [] {
      FlagStaysHonest(cfg, e, Front(acts));
      DoKeepsFlag(cfg, RunActs(cfg, e, Front(acts)), Last(acts), LastComplete(cfg, e, Front(acts)));
    }
  }

  /** So a flush that reports success, also one that had nothing to do, leaves every complete record
      on stable storage. */
  lemma FlushIsTruthful(cfg: Config, e: Engine, acts: seq<Act>, fsyncOk: bool)
    requires e.log.synced == |e.log.content|
    requires FlushOf(RunActs(cfg, e, acts).log, fsyncOk).1.Ok?
    ensures RunActs(cfg, e, acts + [Flush(fsyncOk)]).log.synced >= LastComplete(cfg, e, acts)
  {
    FlagStaysHonest(cfg, e, acts);
    assert Front(acts + [Flush(fsyncOk)]) == acts;
  }

  // ---------- Exactly what is durable ----------

  /** A complete record has been written since the last fsync that succeeded. */
  function Unflushed(cfg: Config, e: Engine, acts: seq<Act>): bool {
    acts != [] &&
    var before := RunActs(cfg, e, Front(acts));
    match Last(acts)
    case Handle(ev) =>
      if Logs(cfg, before, ev) then !(cfg.mode == SyncEveryWrite && ev.io.fsyncOk) else Unflushed(cfg, e, Front(acts))
    case Flush(fsyncOk) => Unflushed(cfg, e, Front(acts)) && !fsyncOk
  }

  /** The act makes the program call fsync, and the call succeeds. */
  predicate Fsyncs(cfg: Config, e: Engine, acts: seq<Act>)
    requires acts != []
  {
    match Last(acts)
    case Handle(ev) => Logs(cfg, RunActs(cfg, e, Front(acts)), ev) && cfg.mode == SyncEveryWrite && ev.io.fsyncOk
    case Flush(fsyncOk) => Unflushed(cfg, e, Front(acts)) && fsyncOk
  }

  /** The length of the file at the last fsync that succeeded. */
  function LastFsync(cfg: Config, e: Engine, acts: seq<Act>): nat {
    if acts == [] then e.log.synced
    else if Fsyncs(cfg, e, acts) then |RunActs(cfg, e, acts).log.content|
    else LastFsync(cfg, e, Front(acts))
  }

  lemma DoSyncs(cfg: Config, e: Engine, act: Act)
    ensures var n := Do(cfg, e, act);
            match act
            case Handle(ev) =>
              if Logs(cfg, e, ev) && cfg.mode == SyncEveryWrite && ev.io.fsyncOk
              then n.log.synced == |n.log.content| && !n.log.dirty
              else n.log.synced == e.log.synced && n.log.dirty == (e.log.dirty || Logs(cfg, e, ev))
            case Flush(fsyncOk) =>
              if e.log.dirty && fsyncOk then n.log.synced == |n.log.content| && !n.log.dirty
              else n.log.synced == e.log.synced && n.log.dirty == e.log.dirty
  {
    if act.Handle? {
      hide Step, EncodeRecord, Admit, AppendTo;
      StepLog(cfg, e, act.ev);
      AppendMeaning(e.log, cfg.mode, act.ev.req.tx, act.ev.io);
    }
  }

  /** In every run, in either mode, with short writes and failures anywhere: the synced length is the
      length of the file at the last fsync that succeeded, no more and no less, and the dirty flag is
      set exactly if a complete record was written since. */
  lemma {:induction false} DurableExactly(cfg: Config, e: Engine, acts: seq<Act>)
    requires !e.log.dirty
    ensures RunActs(cfg, e, acts).log.synced == LastFsync(cfg, e, acts)
    ensures RunActs(cfg, e, acts).log.dirty <==> Unflushed(cfg, e, acts)
  {
    hide Do, Logs;
    if acts != [] {
      DurableExactly(cfg, e, Front(acts));
      DoSyncs(cfg, RunActs(cfg, e, Front(acts)), Last(acts));
    }
  }

  /** A flush fails exactly if there is a complete record to sync and fsync fails. */
  lemma FlushFailsIff(cfg: Config, e: Engine, acts: seq<Act>, fsyncOk: bool)
    requires !e.log.dirty
    ensures var r := FlushOf(RunActs(cfg, e, acts).log, fsyncOk).1;
            (r == Err(WalSyncFailed) <==> Unflushed(cfg, e, acts) && !fsyncOk) && (r.Ok? || r == Err(WalSyncFailed))
  {
    DurableExactly(cfg, e, acts);
  }

  /** In batch mode nothing becomes durable without a flush. */
  lemma {:induction false} BatchNeverSyncs(cfg: Config, e: Engine, events: seq<Event>)
    requires cfg.mode == BatchSyncFlush
    ensures Run(cfg, e, events).log.synced == e.log.synced
  {
    hide Step, EncodeRecord, Admit, AppendTo;
    if events != [] {
      BatchNeverSyncs(cfg, e, Front(events));
      StepLog(cfg, Run(cfg, e, Front(events)), Last(events));
      AppendMeaning(Run(cfg, e, Front(events)).log, cfg.mode, Last(events).req.tx, Last(events).io);
    }
  }

  lemma {:induction false} SyncedGrows(cfg: Config, e: Engine, a: seq<Act>, b: seq<Act>)
    requires e.log.synced == |e.log.content|
    ensures RunActs(cfg, e, a).log.synced <= RunActs(cfg, e, a + b).log.synced
  {
    hide Do, Logs, FlagHonest;
    if b == [] {
      assert a + b == a;
    } else {
      assert Front(a + b) == a + Front(b);
      SyncedGrows(cfg, e, a, Front(b));
      FlagStaysHonest(cfg, e, a + Front(b));
      DoKeepsFlag(cfg, RunActs(cfg, e, a + Front(b)), Last(b), LastComplete(cfg, e, a + Front(b)));
    }
  }

  // ---------- Crash after a flush ----------

  lemma {:induction false} EventsConcat(a: seq<Act>, b: seq<Act>)
    ensures EventsOf(a + b) == EventsOf(a) + EventsOf(b)
  {
    if b == [] {
      assert a + b == a;
    } else {
      assert Front(a + b) == a + Front(b);
      EventsConcat(a, Front(b));
    }
  }

  /** Without short writes the last complete record ends the file. */
  lemma {:induction false} CompleteIsAll(cfg: Config, e: Engine, acts: seq<Act>)
    requires NoTears(cfg, e, EventsOf(acts))
    ensures LastComplete(cfg, e, acts) == |RunActs(cfg, e, acts).log.content|
  {
    hide Step, Logs, Tears, Alike;
    if acts != [] {
      var events := EventsOf(Front(acts));
      var before := RunActs(cfg, e, Front(acts));
      ActsAlike(cfg, e, Front(acts));
      match Last(acts)
      case Handle(ev) =>
        assert Front(events + [ev]) == events && Last(events + [ev]) == ev;
        CompleteIsAll(cfg, e, Front(acts));
        TearsAlike(cfg, before, Run(cfg, e, events), ev);
        StepContent(cfg, before, ev);
        assert before.log.content + [] == before.log.content;
      case Flush(_) =>
        assert events + [] == events;
        CompleteIsAll(cfg, e, Front(acts));
    }
  }

  lemma TearsAlike(cfg: Config, a: Engine, b: Engine, ev: Event)
    requires Alike(a, b)
    ensures Tears(cfg, a, ev) == Tears(cfg, b, ev)
  {
    hide EncodeRecord, Admit;
    AdmitAlike(a, b, ev.req.tx);
  }

  lemma {:induction false} NoTearsPrefix(cfg: Config, e: Engine, a: seq<Event>, b: seq<Event>)
    requires NoTears(cfg, e, a + b)
    ensures NoTears(cfg, e, a)
  {
    hide Tears, Step;
    if b == [] {
      assert a + b == a;
    } else {
      assert Front(a + b) == a + Front(b);
      NoTearsPrefix(cfg, e, a, Front(b));
    }
  }

  /** Where the flushed records end. */
  lemma FlushedBoundary(cfg: Config, seed: State, prior: seq<Transaction>, a: seq<Act>, fsyncOk: bool, b: seq<Act>)
    requires NoTears(cfg, Reopened(seed, prior), EventsOf(a))
    requires FlushOf(RunActs(cfg, Reopened(seed, prior), a).log, fsyncOk).1.Ok?
    ensures |EncodeLog(Records(cfg, seed, prior, EventsOf(a)))| <= RunActs(cfg, Reopened(seed, prior), a + [Flush(fsyncOk)] + b).log.synced
  {
    hide EncodeRecord, Written, Replay, Run, NoTears, Logged, RunActs, LastComplete, EventsOf;
    var e := Reopened(seed, prior);
    FlushIsTruthful(cfg, e, a, fsyncOk);
    CompleteIsAll(cfg, e, a);
    ActsAlike(cfg, e, a);
    RecordsContent(cfg, seed, prior, EventsOf(a));
    SyncedGrows(cfg, e, a + [Flush(fsyncOk)], b);
  }

  /** In either mode, with any other flushes, a crash at any byte at or after the synced length, some
      time after a successful flush: recovery succeeds with exactly the state after some number of
      the logged transactions, and all those logged before the flush are among them. */
  lemma FlushedIsRecovered(cfg: Config, im: Image, seed: State, prior: seq<Transaction>, j: nat, covered: nat,
                           a: seq<Act>, fsyncOk: bool, b: seq<Act>, n: nat) returns (k: nat)
    requires Startable(seed, prior)
    requires FlushOf(RunActs(cfg, Reopened(seed, prior), a).log, fsyncOk).1.Ok?
    requires NoTears(cfg, Reopened(seed, prior), EventsOf(a) + EventsOf(b))
    requires IsCheckpoint(im, seed, Records(cfg, seed, prior, EventsOf(a) + EventsOf(b)), j, covered)
    requires covered <= |Records(cfg, seed, prior, EventsOf(a))|
    requires Increasing(seed.lastId, Records(cfg, seed, prior, EventsOf(a) + EventsOf(b)))
    requires var log := RunActs(cfg, Reopened(seed, prior), a + [Flush(fsyncOk)] + b).log;
             log.synced <= n <= |log.content|
    ensures var records := Records(cfg, seed, prior, EventsOf(a) + EventsOf(b));
            var flushed := Records(cfg, seed, prior, EventsOf(a));
            var log := RunActs(cfg, Reopened(seed, prior), a + [Flush(fsyncOk)] + b).log;
            && |flushed| <= k <= |records| && flushed <= records[..k]
            && RecoverOf(Some(log.content[..n]), Some(EncodeSnapshot(im)), CutOk)
                 == (Ok(Recovered(Replay(seed, records[..k]), |EncodeLog(records[..k])|)), Some(EncodeLog(records[..k])))
  {
    hide RecoverOf, EncodeRecord, EncodeSnapshot, Written, Replay, Run, NoTears, Logged, Increasing, RunActs, EventsOf, IsCheckpoint, Startable;
    var e := Reopened(seed, prior);
    var events := EventsOf(a) + EventsOf(b);
    var records, flushed := Records(cfg, seed, prior, events), Records(cfg, seed, prior, EventsOf(a));
    var acts := a + [Flush(fsyncOk)] + b;
    assert EventsOf(acts) == events by {
      EventsConcat(a + [Flush(fsyncOk)], b);
      EventsConcat(a, [Flush(fsyncOk)]);
      NoEvent(fsyncOk);
      assert EventsOf(a) + [] == EventsOf(a);
    }
    NoTearsPrefix(cfg, e, EventsOf(a), EventsOf(b));
    FlushedBoundary(cfg, seed, prior, a, fsyncOk, b);
    ActsAlike(cfg, e, acts);
    LoggedGrows(cfg, e, EventsOf(a), EventsOf(b));
    assert records[..|flushed|] == flushed;
    k := CrashInAnyMode(cfg, im, seed, prior, j, covered, events, |flushed|, n);
    assert records[..k][..|flushed|] == flushed;
  }

  lemma NoEvent(fsyncOk: bool)
    ensures EventsOf([Flush(fsyncOk)]) == []
  {
    assert Front([Flush(fsyncOk)]) == [];
  }
}
