/** The engine object: the loop of `process_pending` over its cache, log writer and state. */
module LedgerEngine {
  import opened Types
  import opened Ledger
  import opened Validation
  import opened Lru
  import opened WalWriter
  import opened Engine
  import opened EngineRuns
  import opened Headroom
  import Cache = IdempotencyCache

  /** Neither checking nor applying the request overflows anywhere. */
  ghost predicate StepFits(e: Engine, tx: Transaction) {
    && (ShapeOf(tx).Ok? ==> CheckFits(e.working.accounts, tx.legs))
    && (Admit(e, tx).Ok? ==> ApplyFits(e.working.accounts, tx.legs))
  }

  /** Within the budget of module EngineRuns every request of every run fits. */
  lemma BudgetFits(cfg: Config, e: Engine, events: seq<Event>)
    requires Exposure(e.working.accounts) + Presented(events) <= I64_MAX
    requires forall id :: id in e.working.accounts ==> e.working.accounts[id].overdraftLimit >= 0
    ensures forall i :: 0 <= i < |events| ==> StepFits(Run(cfg, e, events[..i]), events[i].req.tx)
  {
    forall i | 0 <= i < |events| ensures StepFits(Run(cfg, e, events[..i]), events[i].req.tx) {
      PresentedGrows(events, i + 1);
      NothingOverflows(cfg, e, events, i);
    }
  }

  lemma {:induction false} PresentedGrows(events: seq<Event>, k: nat)
    requires k <= |events|
    ensures Presented(events[..k]) <= Presented(events)
    decreases |events|
  {
    if k == |events| {
      assert events[..k] == events;
    } else {
      assert Front(events)[..k] == events[..k];
      PresentedGrows(Front(events), k);
      var tx := Last(events).req.tx;
      if ShapeOf(tx).Ok? {
        ShapeMeaning(tx);
        TotalsNonNegative(tx.legs, Debit);
      }
    }
  }

  // ---------- Without an open log ----------

  function StepClosed(cfg: Config, e: Engine, ev: Event): Engine {
    var admitted := Admit(e, ev.req.tx);
    Complete(e.(keys := Touch(cfg.capacity, e.keys, ev.req.tx.key)), ev.req.slot,
             if admitted.Err? then admitted else Err(WalOpenFailed))
  }

  /** A run with the log open or not. */
  function RunFrom(cfg: Config, isOpen: bool, e: Engine, events: seq<Event>): Engine {
    if events == [] then e
    else
      var before := RunFrom(cfg, isOpen, e, Front(events));
      if isOpen then Step(cfg, before, Last(events)) else StepClosed(cfg, before, Last(events))
  }

  /** With the log open this is the run all theorems speak of. */
  lemma {:induction false} OpenRun(cfg: Config, e: Engine, events: seq<Event>)
    ensures RunFrom(cfg, true, e, events) == Run(cfg, e, events)
  {
    hide Step;
    if events != [] {
      OpenRun(cfg, e, Front(events));
    }
  }

  /** Without it no request succeeds and nothing but the cache and the completions changes. */
  lemma {:induction false} ClosedRun(cfg: Config, e: Engine, events: seq<Event>)
    ensures var n := RunFrom(cfg, false, e, events);
            && n.log == e.log && n.working == e.working && n.published == e.published
            && |n.completed| == |e.completed| + |events|
            && forall i :: |e.completed| <= i < |n.completed| ==> n.completed[i].result.Err?
  {
    hide Admit, Touch;
    if events != [] {
      ClosedRun(cfg, e, Front(events));
    }
  }

  class LedgerEngine {
    const cfg: Config
    const wal: BinaryWalWriter
    const state: LedgerState
    const cache: Cache.IdempotencyCache
    var published: State
    var processedSincePublish: nat
    var completed: seq<Completion>

    ghost predicate Valid()
      reads this, wal, cache
    {
      && (wal.isOpen ==> wal.mode == cfg.mode)
      && cache.Valid() && |cache.nodes| == cfg.capacity
    }

    ghost function Value(): Engine
      reads this, wal, state, cache
    {
      Engine(cache.Keys(), wal.Value(), state.Value(), published, processedSincePublish, completed)
    }

    /** Starts on the given accounts with an empty cache; nothing is published and no log is open. */
    constructor (mode: SyncMode, publishEvery: nat, capacity: nat, hash: Key -> nat, accounts: State)
      requires capacity < 0x8000_0000
      ensures Valid() && !wal.isOpen && fresh(wal) && fresh(state) && fresh(cache)
      ensures cfg == Config(mode, publishEvery, if capacity == 0 then 1 else capacity)
      ensures Value() == Opened(accounts, [])
    {
      var w := new BinaryWalWriter();
      var s := new LedgerState(accounts);
      var c := new Cache.IdempotencyCache(capacity, hash);
      wal, state, cache := w, s, c;
      cfg := Config(mode, publishEvery, if capacity == 0 then 1 else capacity);
      published, processedSincePublish, completed := EMPTY, 0, [];
    }

    /** Opens the log, whose bytes are all on stable storage; `None` if it cannot be opened. */
    method Open(file: Option<seq<byte>>) returns (r: Result<()>)
      requires Valid()
      modifies wal
      ensures Valid() && (wal.isOpen <==> file.Some?)
      ensures r == if file.Some? then Ok(()) else Err(WalOpenFailed)
      ensures file.Some? ==> Value() == old(Value()).(log := Log(file.value, |file.value|, |file.value|, false))
    {
      r := wal.Open(file, if file.Some? then |file.value| else 0, cfg.mode);
    }

    method PublishSnapshot()
      modifies this`published
      ensures published == state.Value()
    {
      published := State(state.accounts, state.lastAppliedId);
    }

    method Finish(slot: nat, result: Result<()>)
      modifies this`completed
      ensures completed == old(completed) + [Completion(slot, result)]
    {
      completed := completed + [Completion(slot, result)];
    }

    /** The checks, in order: known key, shape, state. */
    method Check(tx: Transaction) returns (r: Result<()>, ghost fits: bool)
      requires Valid()
      modifies cache
      ensures Valid() && r == Admit(old(Value()), tx)
      ensures Value() == old(Value()).(keys := Touch(cfg.capacity, old(cache.Keys()), tx.key))
      ensures StepFits(old(Value()), tx) ==> fits
    {
      fits := true;
      var duplicate := cache.CheckAndInsert(tx.key);
      if duplicate {
        return Err(DuplicateTransaction), fits;
      }
      r := ValidateTransactionShape(tx);
      if r.Ok? {
        r, fits := ValidateTransactionAgainstState(tx, state.accounts);
      }
    }

    /** Applies a logged transaction and publishes every `publishEvery` commits. */
    method CommitLogged(tx: Transaction) returns (ghost fits: bool)
      requires Valid()
      modifies this`published, this`processedSincePublish, state
      ensures Valid() && Value() == Commit(cfg, old(Value()), tx)
      ensures ApplyFits(old(state.accounts), tx.legs) ==> fits
    {
      var applied;
      applied, fits := state.Apply(tx);
      processedSincePublish := processedSincePublish + 1;
      if processedSincePublish >= cfg.publishEvery {
        PublishSnapshot();
        processedSincePublish := 0;
      }
    }

    /** One request. Without an open log an admitted request is completed as a failed open. */
    method ProcessOne(ev: Event) returns (ghost fits: bool)
      requires Valid()
      modifies this, wal, state, cache
      ensures Valid() && wal.isOpen == old(wal.isOpen)
      ensures Value() == if wal.isOpen then Step(cfg, old(Value()), ev) else StepClosed(cfg, old(Value()), ev)
      ensures StepFits(old(Value()), ev.req.tx) ==> fits
    {
      hide Cache.Consistent, AppendTo, Touch, Commit, ShapeOf, VerdictOf, CheckFits, ApplyFits;
      var tx := ev.req.tx;
      var result;
      result, fits := Check(tx);
      if result.Ok? {
        result := wal.Append(tx, ev.io);
        if result.Ok? {
          ghost var applyFits := CommitLogged(tx);
          fits := fits && applyFits;
        }
      }
      Finish(ev.req.slot, result);
    }

    /** Drains up to `maxItems` of the requests the queue hands out during the call. */
    method ProcessPending(maxItems: nat, queue: seq<Event>) returns (processed: nat, ghost fits: bool)
      requires Valid()
      modifies this, wal, state, cache
      ensures Valid() && wal.isOpen == old(wal.isOpen)
      ensures processed == if maxItems < |queue| then maxItems else |queue|
      ensures Value() == RunFrom(cfg, wal.isOpen, old(Value()), queue[..processed])
      ensures (forall i :: 0 <= i < processed ==>
                 StepFits(RunFrom(cfg, wal.isOpen, old(Value()), queue[..i]), queue[i].req.tx)) ==> fits
    {
      hide Cache.Consistent, Step, StepClosed, StepFits;
      processed, fits := 0, true;
      while processed < maxItems && processed < |queue|
        invariant Valid() && wal.isOpen == old(wal.isOpen) && processed <= |queue| && processed <= maxItems
        invariant Value() == RunFrom(cfg, wal.isOpen, old(Value()), queue[..processed])
        invariant (forall i :: 0 <= i < processed ==>
                     StepFits(RunFrom(cfg, wal.isOpen, old(Value()), queue[..i]), queue[i].req.tx)) ==> fits
      {
        ghost var one := ProcessOne(queue[processed]);
        assert queue[..processed + 1][..processed] == queue[..processed];
        fits := fits && one;
        processed := processed + 1;
      }
    }
  }
}
