/** The single-writer event loop (src/engine.cpp): deduplicate, validate, log, apply, publish,
    complete, for every request in the order the queue hands them out. */
module Engine {
  import opened Types
  import opened Sums
  import opened Ledger
  import opened Validation
  import opened Lru
  import opened WalFormat
  import opened WalWriter

  datatype Config = Config(mode: SyncMode, publishEvery: nat, capacity: nat)

  /** A queued transaction and the completion slot its submitter waits on. */
  datatype Request = Request(tx: Transaction, slot: nat)

  /** One call of `complete`. */
  datatype Completion = Completion(slot: nat, result: Result<()>)

  datatype Engine = Engine(keys: seq<Key>, log: Log, working: State, published: State, sincePublish: nat,
                           completed: seq<Completion>)

  /** A request and what the clock and the disk do if it gets as far as the log. */
  datatype Event = Event(req: Request, io: Io)

  // ---------- One request ----------

  /** The checks in order: known key, shape, state. */
  function Admit(e: Engine, tx: Transaction): Result<()> {
    if tx.key in e.keys then Err(DuplicateTransaction)
    else if ShapeOf(tx).Err? then ShapeOf(tx)
    else VerdictOf(e.working.accounts, tx.legs)
  }

  function ResultOf(cfg: Config, e: Engine, ev: Event): Result<()> {
    var admitted := Admit(e, ev.req.tx);
    if admitted.Err? then admitted else AppendTo(e.log, cfg.mode, ev.req.tx, ev.io).1
  }

  function Complete(e: Engine, slot: nat, result: Result<()>): Engine {
    e.(completed := e.completed + [Completion(slot, result)])
  }

  function Commit(cfg: Config, e: Engine, tx: Transaction): Engine {
    var working := After(e.working, tx);
    if e.sincePublish + 1 >= cfg.publishEvery then e.(working := working, published := working, sincePublish := 0)
    else e.(working := working, sincePublish := e.sincePublish + 1)
  }

  function Step(cfg: Config, e: Engine, ev: Event): Engine {
    var tx := ev.req.tx;
    var seen := e.(keys := Touch(cfg.capacity, e.keys, tx.key));
    var admitted := Admit(e, tx);
    if admitted.Err? then Complete(seen, ev.req.slot, admitted)
    else
      var (log, appended) := AppendTo(e.log, cfg.mode, tx, ev.io);
      var logged := seen.(log := log);
      Complete(if appended.Ok? then Commit(cfg, logged, tx) else logged, ev.req.slot, appended)
  }

  function Run(cfg: Config, e: Engine, events: seq<Event>): Engine {
    if events == [] then e else Step(cfg, Run(cfg, e, events[..|events| - 1]), events[|events| - 1])
  }

  // ---------- What a run has done ----------

  /** The transaction as it is logged, with the time of the append. */
  function Entry(ev: Event): Transaction {
    Stamp(ev.req.tx, ev.io)
  }

  /** The record is completely in the file. */
  predicate Logs(cfg: Config, e: Engine, ev: Event) {
    Admit(e, ev.req.tx).Ok? && Reaches(ev.io, |EncodeRecord(Entry(ev))|) == |EncodeRecord(Entry(ev))|
  }

  /** A short write has left part of a record behind. */
  predicate Tears(cfg: Config, e: Engine, ev: Event) {
    && Admit(e, ev.req.tx).Ok?
    && 0 < Reaches(ev.io, |EncodeRecord(Entry(ev))|) < |EncodeRecord(Entry(ev))|
  }

  /** The record is completely in the file and the sync that follows fails. */
  predicate Unsynced(cfg: Config, e: Engine, ev: Event) {
    Logs(cfg, e, ev) && cfg.mode == SyncEveryWrite && !ev.io.fsyncOk
  }

  function Last<T>(s: seq<T>): T
    requires s != []
  {
    s[|s| - 1]
  }

  function Front<T>(s: seq<T>): seq<T>
    requires s != []
  {
    s[..|s| - 1]
  }

  /** The transactions acknowledged with success. */
  function Committed(cfg: Config, e: Engine, events: seq<Event>): seq<Transaction> {
    if events == [] then []
    else
      Committed(cfg, e, Front(events))
      + if ResultOf(cfg, Run(cfg, e, Front(events)), Last(events)).Ok? then [Entry(Last(events))] else []
  }

  /** The transactions whose records are completely in the file. */
  function Logged(cfg: Config, e: Engine, events: seq<Event>): seq<Transaction> {
    if events == [] then []
    else
      Logged(cfg, e, Front(events))
      + if Logs(cfg, Run(cfg, e, Front(events)), Last(events)) then [Entry(Last(events))] else []
  }

  /** How many records were in the file when the last transaction was acknowledged. */
  function Acknowledged(cfg: Config, e: Engine, events: seq<Event>): nat {
    if events == [] then 0
    else if ResultOf(cfg, Run(cfg, e, Front(events)), Last(events)).Ok? then |Logged(cfg, e, events)|
    else Acknowledged(cfg, e, Front(events))
  }

  predicate NoTears(cfg: Config, e: Engine, events: seq<Event>) {
    events == [] || (NoTears(cfg, e, Front(events)) && !Tears(cfg, Run(cfg, e, Front(events)), Last(events)))
  }

  predicate NoSyncFailure(cfg: Config, e: Engine, events: seq<Event>) {
    events == [] || (NoSyncFailure(cfg, e, Front(events)) && !Unsynced(cfg, Run(cfg, e, Front(events)), Last(events)))
  }

  /** A freshly opened engine on a given state and log. */
  function Opened(state: State, file: seq<byte>): Engine {
    Engine([], Log(file, |file|, |file|, false), state, EMPTY, 0, [])
  }

  // ---------- Facts about one request ----------

  lemma AdmitMeaning(e: Engine, tx: Transaction)
    requires Admit(e, tx).Ok?
    ensures tx.key !in e.keys && ShapeOf(tx).Ok? && VerdictOf(e.working.accounts, tx.legs).Ok?
    ensures AccountsExist(e.working.accounts, tx.legs) && BalancedLegs(tx.legs)
  {
    ShapeMeaning(tx);
  }

  /** A shape that is accepted, on the legs. */
  predicate GoodShape(tx: Transaction) {
    |tx.legs| >= 2 && Positive(tx.legs) && BalancedLegs(tx.legs) && TotalOf(tx.legs, Debit) <= I64_MAX
  }

  /** Which request is admitted and which error it gets otherwise, on keys, amounts and type codes. A
      known key comes before everything, the shape before the accounts, a missing account before an
      overdraft. */
  lemma AdmitExactly(e: Engine, tx: Transaction)
    ensures var r, unseen := Admit(e, tx), tx.key !in e.keys;
            && (r == Err(DuplicateTransaction) <==> !unseen)
            && (r == Err(TooFewLegs) <==> unseen && |tx.legs| < 2)
            && (r == Err(ZeroAmountLeg) <==> unseen && |tx.legs| >= 2 && exists i: nat :: ZeroAt(tx.legs, i))
            && (r == Err(AmountOverflow) <==> unseen && |tx.legs| >= 2 && exists i: nat :: OverflowAt(tx.legs, i))
            && (r == Err(UnbalancedTransaction) <==> unseen && |tx.legs| >= 2 && Clean(tx.legs) && !BalancedLegs(tx.legs))
            && (r == Err(AccountNotFound) <==> unseen && GoodShape(tx) && !AccountsExist(e.working.accounts, tx.legs))
            && (r == Err(InsufficientFunds) <==>
                  unseen && GoodShape(tx) && AccountsExist(e.working.accounts, tx.legs)
                  && exists i: nat :: Overdraws(e.working.accounts, tx.legs, i))
            && (r == Ok(()) <==>
                  unseen && GoodShape(tx) && AccountsExist(e.working.accounts, tx.legs)
                  && forall i: nat :: !Overdraws(e.working.accounts, tx.legs, i))
  {
    hide ShapeOf, VerdictOf, ZeroAt, OverflowAt, Overdraws;
    ShapeMeaning(tx);
    ShapeFaults(tx);
    ShapeErrors(tx);
    VerdictByType(e.working.accounts, tx.legs);
  }

  lemma ShapeErrors(tx: Transaction)
    ensures ShapeOf(tx).Err? ==> ShapeOf(tx).error in {TooFewLegs, ZeroAmountLeg, AmountOverflow, UnbalancedTransaction}
    ensures ShapeOf(tx).Ok? ==> Clean(tx.legs)
  {
    AddLegsMeaning(Totals(0, 0), tx.legs);
  }

  /** Appending reports success only if the whole record is in the file, synced if so configured. The
      synced length moves only by an fsync that succeeded, to the end of the file; the dirty flag is
      set by a complete record and cleared by that fsync only. */
  lemma AppendMeaning(log: Log, mode: SyncMode, tx: Transaction, io: Io)
    ensures var record := EncodeRecord(Stamp(tx, io));
            var (after, r) := AppendTo(log, mode, tx, io);
            && after.content == log.content + record[..Reaches(io, |record|)]
            && (r.Ok? ==> Reaches(io, |record|) == |record|)
            && (r.Ok? && mode == SyncEveryWrite ==> after.synced == |after.content|)
            && (r.Err? ==> after.synced == log.synced)
            && (Reaches(io, |record|) == |record| && r.Err? ==> r == Err(WalSyncFailed))
            && (r == Err(WalSyncFailed) ==> Reaches(io, |record|) == |record|)
            && (r.Err? ==> r.error in {WalWriteFailed, WalSyncFailed})
            && var complete := Reaches(io, |record|) == |record|;
               var synced := complete && mode == SyncEveryWrite && io.fsyncOk;
            && (if synced then after.synced == |after.content| && !after.dirty else after.synced == log.synced)
            && (!synced ==> after.dirty == (log.dirty || complete))
            && after.offset == log.offset + (if complete then |record| else 0)
            && (r.Ok? <==> complete && (mode == SyncEveryWrite ==> io.fsyncOk))
  {
  }

  /** A request is applied exactly if it is acknowledged with success; the time of the append does
      not matter to the balances. */
  lemma StepState(cfg: Config, e: Engine, ev: Event)
    ensures Step(cfg, e, ev).working == if ResultOf(cfg, e, ev).Ok? then After(e.working, Entry(ev)) else e.working
  {
  }

  /** A refused request leaves the log, the balances and the published state alone; a failed append
      leaves the balances and the published state alone. */
  lemma RefusalChangesNothing(cfg: Config, e: Engine, ev: Event)
    requires ResultOf(cfg, e, ev).Err?
    ensures var n := Step(cfg, e, ev);
            && n.working == e.working && n.published == e.published && n.sincePublish == e.sincePublish
            && (ResultOf(cfg, e, ev).error !in {WalWriteFailed, WalSyncFailed} ==> n.log == e.log)
  {
    AppendMeaning(e.log, cfg.mode, ev.req.tx, ev.io);
  }
}
