/** Invariants of every run of the event loop. */
module EngineRuns {
  import opened Types
  import opened Sums
  import opened Ledger
  import opened Validation
  import opened Headroom
  import opened Lru
  import opened Bits
  import opened Framing
  import opened WalFormat
  import opened WalWriter
  import opened Engine

  // ---------- State, log and completions ----------

  /** The working state is exactly the acknowledged transactions applied in order. */
  lemma {:induction false} WorkingIsReplay(cfg: Config, e: Engine, events: seq<Event>)
    ensures Run(cfg, e, events).working == Replay(e.working, Committed(cfg, e, events))
  {
    if events != [] {
      var before := Run(cfg, e, Front(events));
      WorkingIsReplay(cfg, e, Front(events));
      StepState(cfg, before, Last(events));
      if ResultOf(cfg, before, Last(events)).Ok? {
        ReplaySnoc(e.working, Committed(cfg, e, Front(events)), Entry(Last(events)));
      } else {
        assert Committed(cfg, e, Front(events)) + [] == Committed(cfg, e, Front(events));
      }
    }
  }

  lemma StepLog(cfg: Config, e: Engine, ev: Event)
    ensures Step(cfg, e, ev).log == if Admit(e, ev.req.tx).Ok? then AppendTo(e.log, cfg.mode, ev.req.tx, ev.io).0 else e.log
  {
  }

  lemma StepContent(cfg: Config, e: Engine, ev: Event)
    requires !Tears(cfg, e, ev)
    ensures Step(cfg, e, ev).log.content == e.log.content + if Logs(cfg, e, ev) then EncodeRecord(Entry(ev)) else []
  {
    hide EncodeRecord, ShapeOf, VerdictOf, Step;
    StepLog(cfg, e, ev);
    AppendMeaning(e.log, cfg.mode, ev.req.tx, ev.io);
    var record := EncodeRecord(Entry(ev));
    assert record[..|record|] == record && record[..0] == [];
    assert e.log.content + [] == e.log.content;
  }

  /** Without short writes the file is exactly the completely logged transactions. */
  lemma {:induction false} ContentIsLog(cfg: Config, e: Engine, events: seq<Event>)
    requires NoTears(cfg, e, events)
    ensures Run(cfg, e, events).log.content == e.log.content + EncodeLog(Logged(cfg, e, events))
  {
    if events == [] {
      assert e.log.content + [] == e.log.content;
    } else {
      var before := Run(cfg, e, Front(events));
      var logged := Logged(cfg, e, Front(events));
      ContentIsLog(cfg, e, Front(events));
      StepContent(cfg, before, Last(events));
      if Logs(cfg, before, Last(events)) {
        WrittenSnoc(EncodeRecord, logged, Entry(Last(events)));
        Associative(e.log.content, EncodeLog(logged), EncodeRecord(Entry(Last(events))));
      } else {
        assert logged + [] == logged;
        assert before.log.content + [] == before.log.content;
      }
    }
  }

  lemma Associative(a: seq<byte>, b: seq<byte>, c: seq<byte>)
    ensures (a + b) + c == a + (b + c)
  {
  }

  /** A request succeeds exactly if its record is completely in the file and its sync, if there is
      one, did not fail; a failed sync is reported as such. */
  lemma OkLogs(cfg: Config, e: Engine, ev: Event)
    ensures ResultOf(cfg, e, ev).Ok? <==> Logs(cfg, e, ev) && !Unsynced(cfg, e, ev)
    ensures ResultOf(cfg, e, ev) == Err(WalSyncFailed) <==> Unsynced(cfg, e, ev)
  {
    AppendMeaning(e.log, cfg.mode, ev.req.tx, ev.io);
    if Admit(e, ev.req.tx).Err? {
      AdmitErrors(e, ev.req.tx);
    }
  }

  lemma AdmitErrors(e: Engine, tx: Transaction)
    requires Admit(e, tx).Err?
    ensures Admit(e, tx).error !in {WalWriteFailed, WalSyncFailed}
  {
    AddLegsMeaning(Totals(0, 0), tx.legs);
  }

  /** Log and state agree exactly if no sync of a complete record failed: such a record stays in the
      file although its transaction was reported as failed and not applied. */
  lemma {:induction false} LogAgreesIff(cfg: Config, e: Engine, events: seq<Event>)
    ensures |Committed(cfg, e, events)| <= |Logged(cfg, e, events)|
    ensures Logged(cfg, e, events) == Committed(cfg, e, events) <==> NoSyncFailure(cfg, e, events)
  {
    hide Step, Admit, AppendTo, EncodeRecord;
    if events != [] {
      LogAgreesIff(cfg, e, Front(events));
      var before := Run(cfg, e, Front(events));
      OkLogs(cfg, before, Last(events));
      var l, c := Logged(cfg, e, Front(events)), Committed(cfg, e, Front(events));
      assert l + [] == l && c + [] == c;
      if Logged(cfg, e, events) == Committed(cfg, e, events) && ResultOf(cfg, before, Last(events)).Ok? {
        assert Logged(cfg, e, events)[..|l|] == l && Committed(cfg, e, events)[..|c|] == c;
      }
    }
  }

  /** A longer run keeps the records of the shorter one, and everything acknowledged in it. */
  lemma {:induction false} LoggedGrows(cfg: Config, e: Engine, a: seq<Event>, b: seq<Event>)
    ensures Logged(cfg, e, a) <= Logged(cfg, e, a + b)
    ensures Acknowledged(cfg, e, a) <= Acknowledged(cfg, e, a + b) <= |Logged(cfg, e, a + b)|
  {
    hide Step, ResultOf, Logs;
    if b == [] {
      assert a + b == a;
      AcknowledgedWithinLog(cfg, e, a);
    } else {
      assert Front(a + b) == a + Front(b);
      LoggedGrows(cfg, e, a, Front(b));
    }
  }

  lemma {:induction false} AcknowledgedWithinLog(cfg: Config, e: Engine, events: seq<Event>)
    ensures Acknowledged(cfg, e, events) <= |Logged(cfg, e, events)|
    ensures NoSyncFailure(cfg, e, events) ==> Acknowledged(cfg, e, events) == |Logged(cfg, e, events)|
  {
    hide Step, ResultOf, Logs, Unsynced;
    if events != [] {
      AcknowledgedWithinLog(cfg, e, Front(events));
      OkLogs(cfg, Run(cfg, e, Front(events)), Last(events));
    }
  }

  /** Every request is completed exactly once, in order, with the result it earned. */
  lemma {:induction false} CompletedOnce(cfg: Config, e: Engine, events: seq<Event>)
    ensures |Run(cfg, e, events).completed| == |e.completed| + |events|
    ensures Run(cfg, e, events).completed[..|e.completed|] == e.completed
    ensures forall i :: 0 <= i < |events| ==>
              Run(cfg, e, events).completed[|e.completed| + i]
                == Completion(events[i].req.slot, ResultOf(cfg, Run(cfg, e, events[..i]), events[i]))
  {
    hide Step, ResultOf;
    if events != [] {
      var n := |events| - 1;
      var before := Run(cfg, e, events[..n]);
      CompletedOnce(cfg, e, events[..n]);
      var after := Run(cfg, e, events);
      StepCompletes(cfg, before, events[n]);
      forall i | 0 <= i < |events|
        ensures after.completed[|e.completed| + i] == Completion(events[i].req.slot, ResultOf(cfg, Run(cfg, e, events[..i]), events[i]))
      {
        if i < n {
          assert events[..n][..i] == events[..i] && events[..n][i] == events[i];
        }
      }
    }
  }

  lemma StepCompletes(cfg: Config, e: Engine, ev: Event)
    ensures Step(cfg, e, ev).completed == e.completed + [Completion(ev.req.slot, ResultOf(cfg, e, ev))]
  {
  }

  // ---------- Published state ----------

  /** The published state is the opening one or that after all but the last `since` commits. */
  ghost predicate Lags(cfg: Config, opening: State, unpublished: State, published: State, since: nat, committed: seq<Transaction>) {
    && since <= |committed|
    && since < (if cfg.publishEvery == 0 then 1 else cfg.publishEvery)
    && published == if since == |committed| then unpublished else Replay(opening, committed[..|committed| - since])
  }

  lemma LagsCommit(cfg: Config, opening: State, unpublished: State, e: Engine, committed: seq<Transaction>, tx: Transaction)
    requires Lags(cfg, opening, unpublished, e.published, e.sincePublish, committed) && e.working == Replay(opening, committed)
    ensures var n := Commit(cfg, e, tx);
            Lags(cfg, opening, unpublished, n.published, n.sincePublish, committed + [tx])
  {
    hide ApplyTx, Replay;
    var all := committed + [tx];
    ReplaySnoc(opening, committed, tx);
    if e.sincePublish + 1 >= cfg.publishEvery {
      assert all[..|all|] == all;
    } else {
      assert all[..|all| - (e.sincePublish + 1)] == committed[..|committed| - e.sincePublish];
    }
  }

  lemma StepPublishes(cfg: Config, e: Engine, ev: Event)
    ensures var n := Step(cfg, e, ev);
            var c := Commit(cfg, e, Entry(ev));
            if ResultOf(cfg, e, ev).Ok? then n.published == c.published && n.sincePublish == c.sincePublish
            else n.published == e.published && n.sincePublish == e.sincePublish
  {
  }

  /** Readers see the state published before the run or the working state after some number of
      acknowledged transactions, and lag behind by fewer than max(publishEvery, 1) of them. */
  lemma {:induction false} PublishedLags(cfg: Config, e: Engine, events: seq<Event>)
    requires e.sincePublish == 0
    ensures var n := Run(cfg, e, events);
            Lags(cfg, e.working, e.published, n.published, n.sincePublish, Committed(cfg, e, events))
  {
    if events != [] {
      var before := Run(cfg, e, Front(events));
      var committed := Committed(cfg, e, Front(events));
      PublishedLags(cfg, e, Front(events));
      WorkingIsReplay(cfg, e, Front(events));
      StepPublishes(cfg, before, Last(events));
      if ResultOf(cfg, before, Last(events)).Ok? {
        LagsCommit(cfg, e.working, e.published, before, committed, Entry(Last(events)));
      } else {
        assert committed + [] == committed;
      }
    }
  }

  /** Publication happens on every `n`-th commit and on no other: the commits since the last one are
      the remainder of the commits of the run by max(n, 1). */
  lemma {:induction false} PublishesEveryNth(cfg: Config, e: Engine, events: seq<Event>)
    requires e.sincePublish == 0
    ensures var n := if cfg.publishEvery == 0 then 1 else cfg.publishEvery;
            Run(cfg, e, events).sincePublish == |Committed(cfg, e, events)| % n
  {
    hide Step, ResultOf, Commit;
    if events != [] {
      var before, ev := Run(cfg, e, Front(events)), Last(events);
      var n := if cfg.publishEvery == 0 then 1 else cfg.publishEvery;
      PublishesEveryNth(cfg, e, Front(events));
      CountStep(cfg, before, ev);
      NextRemainder(|Committed(cfg, e, Front(events))|, n);
    }
  }

  lemma CountStep(cfg: Config, e: Engine, ev: Event)
    ensures Step(cfg, e, ev).sincePublish
         == if ResultOf(cfg, e, ev).Err? then e.sincePublish
            else if e.sincePublish + 1 >= cfg.publishEvery then 0 else e.sincePublish + 1
  {
    hide AppendTo, Admit, Touch, ApplyTx;
  }

  lemma NextRemainder(x: nat, n: nat)
    requires n >= 1
    ensures (x + 1) % n == if x % n + 1 >= n then 0 else x % n + 1
  {
    var q, r := x / n, x % n;
    if r + 1 == n {
      assert x + 1 == (q + 1) * n + 0;
      ModUnique(x + 1, n, q + 1, 0);
    } else {
      ModUnique(x + 1, n, q, r + 1);
    }
  }

  // ---------- Soundness of what is logged ----------

  /** Everything logged or acknowledged is of accepted shape and names existing accounts. */
  lemma {:induction false} LoggedSound(cfg: Config, e: Engine, events: seq<Event>)
    ensures WellShaped(e.working.accounts, Logged(cfg, e, events))
    ensures WellShaped(e.working.accounts, Committed(cfg, e, events))
  {
    hide Step, AppendTo, EncodeRecord, ShapeOf, VerdictOf;
    if events != [] {
      var before := Run(cfg, e, Front(events));
      var ev := Last(events);
      LoggedSound(cfg, e, Front(events));
      OkLogs(cfg, before, ev);
      if Logs(cfg, before, ev) {
        AdmitMeaning(before, ev.req.tx);
        RunChart(cfg, e, Front(events));
        EntrySound(e.working.accounts, before.working.accounts, ev);
      }
    }
  }

  lemma RunChart(cfg: Config, e: Engine, events: seq<Event>)
    ensures SameChart(e.working.accounts, Run(cfg, e, events).working.accounts)
  {
    WorkingIsReplay(cfg, e, events);
    ReplayChart(e.working, Committed(cfg, e, events));
  }

  lemma EntrySound(chart: Accounts, accounts: Accounts, ev: Event)
    requires SameChart(chart, accounts) && ShapeOf(ev.req.tx).Ok? && AccountsExist(accounts, ev.req.tx.legs)
    ensures ShapeOf(Entry(ev)).Ok? && BalancedLegs(Entry(ev).legs) && AccountsExist(chart, Entry(ev).legs)
  {
    ShapeMeaning(ev.req.tx);
    forall i | 0 <= i < |ev.req.tx.legs| ensures ev.req.tx.legs[i].accountId in chart {
      assert ev.req.tx.legs[i].accountId in accounts.Keys;
    }
  }

  // ---------- Overdrafts ----------

  /** No run takes a debit-normal account below its floor. */
  lemma {:induction false} FloorsHold(cfg: Config, e: Engine, events: seq<Event>)
    requires AllWithinFloor(e.working.accounts)
    ensures AllWithinFloor(Run(cfg, e, events).working.accounts)
  {
    if events != [] {
      var before := Run(cfg, e, Front(events));
      FloorsHold(cfg, e, Front(events));
      StepState(cfg, before, Last(events));
      if ResultOf(cfg, before, Last(events)).Ok? {
        AdmitMeaning(before, Last(events).req.tx);
        AcceptedKeepsFloor(before.working.accounts, Last(events).req.tx.legs);
      }
    }
  }

  // ---------- Trial balance ----------

  /** From balanced books every working and every published state passes the trial balance. */
  lemma BooksStayBalanced(cfg: Config, e: Engine, events: seq<Event>)
    requires Imbalance(e.working.accounts) == 0 && Imbalance(e.published.accounts) == 0 && e.sincePublish == 0
    ensures Imbalance(Run(cfg, e, events).working.accounts) == 0
    ensures Imbalance(Run(cfg, e, events).published.accounts) == 0
  {
    hide Run, Committed, Imbalance, Replay;
    var committed := Committed(cfg, e, events);
    LoggedSound(cfg, e, events);
    WorkingIsReplay(cfg, e, events);
    PrefixBalanced(e.working, committed, |committed|);
    assert committed[..|committed|] == committed;
    PublishedLags(cfg, e, events);
    PrefixBalanced(e.working, committed, |committed| - Run(cfg, e, events).sincePublish);
  }

  lemma PrefixBalanced(s: State, txs: seq<Transaction>, n: nat)
    requires WellShaped(s.accounts, txs) && n <= |txs|
    ensures Imbalance(Replay(s, txs[..n]).accounts) == Imbalance(s.accounts)
  {
    WellShapedIsSound(s.accounts, txs);
    ReplayConserves(s, txs[..n]);
  }

  lemma WellShapedIsSound(accounts: Accounts, txs: seq<Transaction>)
    requires WellShaped(accounts, txs)
    ensures Sound(accounts, txs)
  {
    forall i | 0 <= i < |txs| ensures BalancedLegs(txs[i].legs) {
      ShapeMeaning(txs[i]);
    }
  }

  // ---------- Overflow ----------

  /** The debit totals of all presented transactions of accepted shape. */
  function Presented(events: seq<Event>): int {
    if events == [] then 0
    else Presented(Front(events)) + if ShapeOf(Last(events).req.tx).Ok? then TotalOf(Last(events).req.tx.legs, Debit) else 0
  }

  lemma {:induction false} MovedWithinPresented(cfg: Config, e: Engine, events: seq<Event>)
    ensures 0 <= Moved(Committed(cfg, e, events)) <= Moved(Logged(cfg, e, events)) <= Presented(events)
  {
    hide ShapeOf, Step, AppendTo, EncodeRecord, ResultOf, Logs;
    if events != [] {
      var before := Run(cfg, e, Front(events));
      var ev := Last(events);
      MovedWithinPresented(cfg, e, Front(events));
      if ShapeOf(ev.req.tx).Ok? {
        ShapeMeaning(ev.req.tx);
        TotalsNonNegative(ev.req.tx.legs, Debit);
      }
      OkLogs(cfg, before, ev);
      if Logs(cfg, before, ev) {
        LogsShape(cfg, before, ev);
        MovedSnoc(Logged(cfg, e, Front(events)), Entry(ev));
        MovedSnoc(Committed(cfg, e, Front(events)), Entry(ev));
      }
      assert Committed(cfg, e, Front(events)) + [] == Committed(cfg, e, Front(events));
      assert Logged(cfg, e, Front(events)) + [] == Logged(cfg, e, Front(events));
    }
  }

  lemma LogsShape(cfg: Config, e: Engine, ev: Event)
    requires Logs(cfg, e, ev)
    ensures ShapeOf(ev.req.tx).Ok?
  {
    AdmitMeaning(e, ev.req.tx);
  }

  lemma MovedSnoc(txs: seq<Transaction>, tx: Transaction)
    ensures Moved(txs + [tx]) == Moved(txs) + TotalOf(tx.legs, Debit)
  {
    assert (txs + [tx])[..|txs|] == txs;
  }

  /** If the opening exposure plus everything presented fits into 64 bits, then no value computed
      anywhere overflows: not while checking or applying any request, and not in a trial balance
      over the working state in any order. */
  lemma NothingOverflows(cfg: Config, e: Engine, events: seq<Event>, i: nat)
    requires i < |events|
    requires Exposure(e.working.accounts) + Presented(events[..i + 1]) <= I64_MAX
    requires forall id :: id in e.working.accounts ==> e.working.accounts[id].overdraftLimit >= 0
    ensures var s := Run(cfg, e, events[..i]);
            var tx := events[i].req.tx;
            && (ShapeOf(tx).Ok? ==> CheckFits(s.working.accounts, tx.legs))
            && (Admit(s, tx).Ok? ==> ApplyFits(s.working.accounts, tx.legs))
            && forall order: seq<u64> :: Distinct(order) ==> TrialFits(s.working.accounts, order)
  {
    var past := events[..i];
    var tx := events[i].req.tx;
    var committed := Committed(cfg, e, past);
    assert Front(events[..i + 1]) == past;
    LoggedSound(cfg, e, past);
    WorkingIsReplay(cfg, e, past);
    MovedWithinPresented(cfg, e, past);
    if ShapeOf(tx).Ok? {
      NextNeverOverflows(e.working, committed, tx);
      ShapeMeaning(tx);
      TotalsNonNegative(tx.legs, Debit);
    }
    if Admit(Run(cfg, e, past), tx).Ok? {
      AdmitMeaning(Run(cfg, e, past), tx);
      RunChart(cfg, e, past);
      EntrySound(e.working.accounts, Run(cfg, e, past).working.accounts, events[i]);
    }
    forall order: seq<u64> | Distinct(order) ensures TrialFits(Replay(e.working, committed).accounts, order) {
      TrialNeverOverflows(e.working, committed, order);
    }
  }

  // ---------- Deduplication ----------

  function KeysOf(events: seq<Event>): seq<Key> {
    seq(|events|, i requires 0 <= i < |events| => events[i].req.tx.key)
  }

  lemma StepKeys(cfg: Config, e: Engine, ev: Event)
    ensures Step(cfg, e, ev).keys == Touch(cfg.capacity, e.keys, ev.req.tx.key)
  {
    hide AppendTo, Touch, ShapeOf, VerdictOf, After;
  }

  lemma {:induction false} KeysAreCached(cfg: Config, e: Engine, events: seq<Event>)
    requires e.keys == []
    ensures Run(cfg, e, events).keys == Cached(cfg.capacity, KeysOf(events))
  {
    hide Step, Touch;
    if events != [] {
      KeysAreCached(cfg, e, Front(events));
      StepKeys(cfg, Run(cfg, e, Front(events)), Last(events));
      assert KeysOf(events)[..|events| - 1] == KeysOf(Front(events));
    }
  }

  /** Two acknowledged transactions with the same key have at least `capacity` distinct other keys
      presented between them. */
  lemma CommitsOfOneKeyFarApart(cfg: Config, e: Engine, events: seq<Event>, i: nat, j: nat)
    requires e.keys == [] && cfg.capacity >= 1 && i < j < |events| && events[i].req.tx.key == events[j].req.tx.key
    requires ResultOf(cfg, Run(cfg, e, events[..j]), events[j]).Ok?
    ensures |KeySet(KeysOf(events)[i + 1..j]) - {events[i].req.tx.key}| >= cfg.capacity
  {
    hide Step, AppendTo, ShapeOf, VerdictOf, Since;
    KeysAreCached(cfg, e, events[..j]);
    assert KeysOf(events[..j]) == KeysOf(events)[..j];
    NewTwiceFarApart(cfg.capacity, KeysOf(events), i, j);
  }

  lemma DuplicateMeans(cfg: Config, e: Engine, ev: Event)
    ensures ResultOf(cfg, e, ev) == Err(DuplicateTransaction) <==> ev.req.tx.key in e.keys
  {
    hide AppendTo, EncodeRecord, AccountsExist;
    AddLegsMeaning(Totals(0, 0), ev.req.tx.legs);
    AppendMeaning(e.log, cfg.mode, ev.req.tx, ev.io);
  }

  /** A request is refused as a duplicate exactly if its key was presented before and fewer than
      `capacity` distinct other keys were presented since. What became of the earlier request does
      not matter: a key is used up even if its transaction was refused or could not be logged. */
  lemma DuplicateIff(cfg: Config, e: Engine, events: seq<Event>, j: nat)
    requires e.keys == [] && cfg.capacity >= 1 && j < |events|
    ensures var k := events[j].req.tx.key;
            var past := KeysOf(events[..j]);
            ResultOf(cfg, Run(cfg, e, events[..j]), events[j]) == Err(DuplicateTransaction) <==>
            k in past && |KeySet(Since(past, k))| < cfg.capacity
  {
    hide ResultOf, Since;
    DuplicateMeans(cfg, Run(cfg, e, events[..j]), events[j]);
    KeysAreCached(cfg, e, events[..j]);
    StackDistance(cfg.capacity, KeysOf(events[..j]), events[j].req.tx.key);
  }

  // ---------- Short writes ----------

  lemma {:induction false} RunConcat(cfg: Config, e: Engine, a: seq<Event>, b: seq<Event>)
    ensures Run(cfg, e, a + b) == Run(cfg, Run(cfg, e, a), b)
  {
    hide Step;
    if b == [] {
      assert a + b == a;
    } else {
      assert Front(a + b) == a + Front(b);
      RunConcat(cfg, e, a, Front(b));
    }
  }

  /** What the run has appended, complete or not. */
  function Pieces(cfg: Config, e: Engine, events: seq<Event>): seq<Fragment> {
    if events == [] then []
    else
      var before, ev := Run(cfg, e, Front(events)), Last(events);
      var n := Reaches(ev.io, |EncodeRecord(Entry(ev))|);
      Pieces(cfg, e, Front(events)) + if Admit(before, ev.req.tx).Ok? && n > 0 then [Fragment(Entry(ev), n)] else []
  }

  lemma {:induction false} PiecesNotEmpty(cfg: Config, e: Engine, events: seq<Event>)
    ensures forall i :: 0 <= i < |Pieces(cfg, e, events)| ==> Pieces(cfg, e, events)[i].size > 0
  {
    hide Admit, Step, EncodeRecord;
    if events != [] {
      PiecesNotEmpty(cfg, e, Front(events));
    }
  }

  lemma StepPieces(cfg: Config, e: Engine, ev: Event)
    ensures var n := Reaches(ev.io, |EncodeRecord(Entry(ev))|);
            Step(cfg, e, ev).log.content
              == e.log.content + if Admit(e, ev.req.tx).Ok? then FragmentBytes(Fragment(Entry(ev), n)) else []
  {
    hide EncodeRecord, ShapeOf, VerdictOf, Step;
    StepLog(cfg, e, ev);
    AppendMeaning(e.log, cfg.mode, ev.req.tx, ev.io);
    var record := EncodeRecord(Entry(ev));
    assert record[..|record|] == record;
    assert e.log.content + [] == e.log.content;
  }

  /** With no condition on the run, the file is its opening bytes and the pieces in order. */
  lemma {:induction false} ContentIsPieces(cfg: Config, e: Engine, events: seq<Event>)
    ensures Run(cfg, e, events).log.content == e.log.content + Written(FragmentBytes, Pieces(cfg, e, events))
  {
    hide Step, Admit, EncodeRecord;
    if events == [] {
      assert e.log.content + [] == e.log.content;
    } else {
      var before, ev := Run(cfg, e, Front(events)), Last(events);
      var fs := Pieces(cfg, e, Front(events));
      var f := Fragment(Entry(ev), Reaches(ev.io, |EncodeRecord(Entry(ev))|));
      ContentIsPieces(cfg, e, Front(events));
      StepPieces(cfg, before, ev);
      WrittenSnoc(FragmentBytes, fs, f);
      Associative(e.log.content, Written(FragmentBytes, fs), FragmentBytes(f));
      assert fs + [] == fs && before.log.content + [] == before.log.content;
      if f.size == 0 {
        assert FragmentBytes(f) == [];
      }
    }
  }

  // ---------- The writer's own bookkeeping ----------

  /** Bytes left behind by short writes. */
  function TornBytes(cfg: Config, e: Engine, events: seq<Event>): nat {
    if events == [] then 0
    else
      var before := Run(cfg, e, Front(events));
      TornBytes(cfg, e, Front(events))
      + if Tears(cfg, before, Last(events)) then Reaches(Last(events).io, |EncodeRecord(Entry(Last(events)))|) else 0
  }

  lemma StepBookkeeping(cfg: Config, e: Engine, ev: Event)
    ensures var log := Step(cfg, e, ev).log;
            var torn := if Tears(cfg, e, ev) then Reaches(ev.io, |EncodeRecord(Entry(ev))|) else 0;
            |log.content| - log.offset == |e.log.content| - e.log.offset + torn
  {
    hide EncodeRecord;
    StepLog(cfg, e, ev);
  }

  lemma {:induction false} OffsetMissesTornBytes(cfg: Config, e: Engine, events: seq<Event>)
    ensures |Run(cfg, e, events).log.content| - Run(cfg, e, events).log.offset
         == |e.log.content| - e.log.offset + TornBytes(cfg, e, events)
    ensures TornBytes(cfg, e, events) == 0 <==> NoTears(cfg, e, events)
  {
    hide Step, EncodeRecord;
    if events != [] {
      OffsetMissesTornBytes(cfg, e, Front(events));
      StepBookkeeping(cfg, Run(cfg, e, Front(events)), Last(events));
    }
  }

  /** The length the writer reports, which checkpoints use as their log offset, is the length of the
      file exactly as long as no write has been short. */
  lemma OffsetTruthfulIff(cfg: Config, e: Engine, events: seq<Event>)
    requires e.log.offset == |e.log.content|
    ensures Run(cfg, e, events).log.offset == |Run(cfg, e, events).log.content| <==> NoTears(cfg, e, events)
  {
    OffsetMissesTornBytes(cfg, e, events);
  }
}
