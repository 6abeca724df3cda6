/** The bounded multi-producer, single-consumer queue (include/ledger/ring_buffer.hpp) as a system
    of atomic steps that any number of producers and the consumer take in any order.

    Steps are sequentially consistent and positions do not wrap. `pushed` and `popped` record the
    items in the order of their tickets and in the order they were handed out. */
module RingBuffer {
  import opened Types
  import opened Bits

  datatype Cell<T> = Cell(sequence: nat, data: T)

  /** Where a producer is inside `try_push`. */
  datatype Producer<T> =
    | Idle
    | Loaded(item: T, pos: nat)      // position read
    | Ready(item: T, pos: nat)       // cell seen free for this position
    | Retry(item: T)                 // position seen stale
    | Claimed(item: T, pos: nat)     // ticket won
    | Filled(pos: nat)               // item written, not yet announced

  /** Where the consumer is inside `try_pop`. */
  datatype Consumer<T> =
    | Waiting
    | Seen                           // cell seen full
    | Copied(out: T)                 // item read
    | Released(out: T)               // cell given back, position not yet advanced

  datatype Ring<T> = Ring(cap: nat, cells: seq<Cell<T>>, enqueuePos: nat, dequeuePos: nat,
                          producers: map<nat, Producer<T>>, consumer: Consumer<T>,
                          pushed: seq<T>, popped: seq<T>)

  datatype Step<T> =
    | Start(p: nat, item: T)
    | LoadSequence(p: nat)
    | Reload(p: nat)
    | CompareExchange(p: nat, spurious: bool)
    | WriteData(p: nat)
    | Announce(p: nat)
    | PopLoad
    | PopCopy
    | PopRelease
    | PopAdvance

  function Index(cap: nat, pos: nat): (i: nat)
    requires cap >= 1
    ensures i < cap
  {
    And(pos, cap - 1)
  }

  /** An empty ring; `blank` is the default item the cells are built with. */
  function Init<T>(cap: nat, producers: set<nat>, blank: T): Ring<T> {
    Ring(cap, seq(cap, i requires 0 <= i < cap => Cell(i, blank)), 0, 0, map p | p in producers :: Idle, Waiting, [], [])
  }

  predicate WellFormed<T>(s: Ring<T>) {
    s.cap >= 1 && |s.cells| == s.cap
  }

  function CellAt<T>(s: Ring<T>, pos: nat): Cell<T>
    requires WellFormed(s)
  {
    s.cells[Index(s.cap, pos)]
  }

  function SetCell<T>(s: Ring<T>, pos: nat, c: Cell<T>): Ring<T>
    requires WellFormed(s)
  {
    s.(cells := s.cells[Index(s.cap, pos) := c])
  }

  function SetProducer<T>(s: Ring<T>, p: nat, q: Producer<T>): Ring<T> {
    s.(producers := s.producers[p := q])
  }

  // ---------- Steps ----------

  predicate Enabled<T>(s: Ring<T>, step: Step<T>) {
    && WellFormed(s)
    && match step
       case Start(p, _) => p in s.producers && s.producers[p].Idle?
       case LoadSequence(p) => p in s.producers && s.producers[p].Loaded?
       case Reload(p) => p in s.producers && s.producers[p].Retry?
       case CompareExchange(p, _) => p in s.producers && s.producers[p].Ready?
       case WriteData(p) => p in s.producers && s.producers[p].Claimed?
       case Announce(p) => p in s.producers && s.producers[p].Filled?
       case PopLoad => s.consumer.Waiting?
       case PopCopy => s.consumer.Seen?
       case PopRelease => s.consumer.Copied?
       case PopAdvance => s.consumer.Released?
  }

  /** `try_push` gives up and reports a full queue. */
  predicate ReportsFull<T>(s: Ring<T>, p: nat)
    requires Enabled(s, LoadSequence(p))
  {
    CellAt(s, s.producers[p].pos).sequence < s.producers[p].pos
  }

  /** `try_pop` gives up and reports an empty queue. */
  predicate ReportsEmpty<T>(s: Ring<T>)
    requires WellFormed(s)
  {
    CellAt(s, s.dequeuePos).sequence != s.dequeuePos + 1
  }

  function Next<T>(s: Ring<T>, step: Step<T>): Ring<T>
    requires Enabled(s, step)
  {
    match step
    case Start(p, item) => SetProducer(s, p, Loaded(item, s.enqueuePos))
    case LoadSequence(p) =>
      var Loaded(item, pos) := s.producers[p];
      var sequence := CellAt(s, pos).sequence;
      SetProducer(s, p, if sequence == pos then Ready(item, pos) else if sequence < pos then Idle else Retry(item))
    case Reload(p) => SetProducer(s, p, Loaded(s.producers[p].item, s.enqueuePos))
    case CompareExchange(p, spurious) =>
      var Ready(item, pos) := s.producers[p];
      if s.enqueuePos == pos && !spurious then
        SetProducer(s, p, Claimed(item, pos)).(enqueuePos := pos + 1, pushed := s.pushed + [item])
      else SetProducer(s, p, Loaded(item, s.enqueuePos))
    case WriteData(p) =>
      var Claimed(item, pos) := s.producers[p];
      SetProducer(SetCell(s, pos, CellAt(s, pos).(data := item)), p, Filled(pos))
    case Announce(p) =>
      var pos := s.producers[p].pos;
      SetProducer(SetCell(s, pos, CellAt(s, pos).(sequence := pos + 1)), p, Idle)
    case PopLoad => if ReportsEmpty(s) then s else s.(consumer := Seen)
    case PopCopy => s.(consumer := Copied(CellAt(s, s.dequeuePos).data))
    case PopRelease =>
      SetCell(s, s.dequeuePos, CellAt(s, s.dequeuePos).(sequence := s.dequeuePos + s.cap)).(consumer := Released(s.consumer.out))
    case PopAdvance => s.(dequeuePos := s.dequeuePos + 1, popped := s.popped + [s.consumer.out], consumer := Waiting)
  }

  /** A run: every step is enabled when it is taken. */
  predicate IsRun<T>(s: Ring<T>, steps: seq<Step<T>>)
    decreases |steps|
  {
    steps == [] || (Enabled(s, steps[0]) && IsRun(Next(s, steps[0]), steps[1..]))
  }

  function After<T>(s: Ring<T>, steps: seq<Step<T>>): Ring<T>
    requires IsRun(s, steps)
    decreases |steps|
  {
    if steps == [] then s else After(Next(s, steps[0]), steps[1..])
  }

  // ---------- The invariant ----------

  /** How many tickets the consumer has given back. */
  function Freed<T>(s: Ring<T>): nat {
    s.dequeuePos + if s.consumer.Released? then 1 else 0
  }

  predicate Owns<T>(q: Producer<T>, t: nat) {
    (q.Claimed? || q.Filled?) && q.pos == t
  }

  predicate Owned<T>(s: Ring<T>, t: nat) {
    exists p :: p in s.producers && Owns(s.producers[p], t)
  }

  /** The cell of a ticket in the window [Freed, Freed + cap): free for that ticket until its item
      is announced, then full with the item of that ticket. */
  predicate TicketOk<T(==)>(s: Ring<T>, t: nat)
    requires WellFormed(s)
  {
    var c := CellAt(s, t);
    if t >= s.enqueuePos || Owned(s, t) then c.sequence == t
    else t < |s.pushed| && c.sequence == t + 1 && c.data == s.pushed[t]
  }

  predicate ProducerOk<T(==)>(s: Ring<T>, q: Producer<T>)
    requires WellFormed(s)
  {
    match q
    case Idle => true
    case Loaded(_, pos) => pos <= s.enqueuePos
    case Ready(_, pos) => pos <= s.enqueuePos && (pos == s.enqueuePos ==> pos < Freed(s) + s.cap)
    case Retry(_) => true
    case Claimed(item, pos) => Freed(s) <= pos < s.enqueuePos && pos < |s.pushed| && item == s.pushed[pos]
    case Filled(pos) => Freed(s) <= pos < s.enqueuePos && pos < |s.pushed| && CellAt(s, pos).data == s.pushed[pos]
  }

  predicate ConsumerOk<T(==)>(s: Ring<T>)
    requires WellFormed(s)
  {
    var d := s.dequeuePos;
    match s.consumer
    case Waiting => true
    case Seen => d < s.enqueuePos && !Owned(s, d)
    case Copied(out) => d < s.enqueuePos && !Owned(s, d) && d < |s.pushed| && out == s.pushed[d]
    case Released(out) => d < |s.pushed| && out == s.pushed[d]
  }

  /** No ticket has two owners. */
  ghost predicate OneOwner<T>(s: Ring<T>) {
    forall p, q, t :: p in s.producers && q in s.producers && p != q ==> !(Owns(s.producers[p], t) && Owns(s.producers[q], t))
  }

  ghost predicate Inv<T>(s: Ring<T>) {
    && WellFormed(s) && s.cap >= 2 && IsPow2(s.cap)
    && Freed(s) <= s.enqueuePos <= Freed(s) + s.cap
    && |s.pushed| == s.enqueuePos
    && s.dequeuePos <= |s.pushed| && s.popped == s.pushed[..s.dequeuePos]
    && (forall t :: Freed(s) <= t < Freed(s) + s.cap ==> TicketOk(s, t))
    && (forall p :: p in s.producers ==> ProducerOk(s, s.producers[p]))
    && OneOwner(s)
    && ConsumerOk(s)
  }

  // ---------- Cells of the window ----------

  lemma DifferentCells(cap: nat, a: nat, b: nat)
    requires cap >= 1 && IsPow2(cap) && a < b < a + cap
    ensures Index(cap, a) != Index(cap, b)
  {
    Masked(a, cap);
    Masked(b, cap);
    ModDistinct(a, b, cap);
  }

  lemma SameCell(cap: nat, a: nat)
    requires cap >= 1 && IsPow2(cap)
    ensures Index(cap, a + cap) == Index(cap, a)
  {
    Masked(a, cap);
    Masked(a + cap, cap);
    ModAdd(a, cap);
  }

  /** Distinct tickets of any window of `cap` tickets have distinct cells. */
  lemma WindowCells<T>(s: Ring<T>, from: nat)
    requires WellFormed(s) && IsPow2(s.cap)
    ensures forall a, b :: from <= a < from + s.cap && from <= b < from + s.cap && a != b ==> Index(s.cap, a) != Index(s.cap, b)
  {
    forall a: nat, b: nat | from <= a < from + s.cap && from <= b < from + s.cap && a != b
      ensures Index(s.cap, a) != Index(s.cap, b)
    {
      if a < b {
        DifferentCells(s.cap, a, b);
      } else {
        DifferentCells(s.cap, b, a);
      }
    }
  }

  // ---------- Every step keeps the invariant ----------

  lemma InitInv<T>(cap: nat, producers: set<nat>, blank: T)
    requires cap >= 2 && IsPow2(cap)
    ensures Inv(Init(cap, producers, blank))
  {
    var s := Init(cap, producers, blank);
    forall t: nat | t < cap ensures TicketOk(s, t) {
      Masked(t, cap);
      SmallMod(t, cap);
    }
  }

  lemma SmallMod(t: nat, cap: nat)
    requires t < cap
    ensures t % cap == t
  {
  }

  predicate IsOwner<T>(q: Producer<T>) {
    q.Claimed? || q.Filled?
  }

  /** A step that changes nothing but one producer that owns no ticket before or after. */
  lemma LocalStep<T>(s: Ring<T>, p: nat, q: Producer<T>)
    requires Inv(s) && p in s.producers && !IsOwner(s.producers[p]) && !IsOwner(q) && ProducerOk(s, q)
    ensures Inv(SetProducer(s, p, q))
  {
    var n := SetProducer(s, p, q);
    forall t ensures Owned(n, t) <==> Owned(s, t) {
      if Owned(s, t) {
        var o :| o in s.producers && Owns(s.producers[o], t);
        assert n.producers[o] == s.producers[o];
      }
    }
    forall t: nat | Freed(n) <= t < Freed(n) + n.cap ensures TicketOk(n, t) {
      assert TicketOk(s, t);
    }
    forall o | o in n.producers ensures ProducerOk(n, n.producers[o]) {
      assert o != p ==> ProducerOk(s, s.producers[o]);
    }
  }

  /** A cell seen free for position `pos` really is free for it, if no ticket was claimed since. */
  lemma SeenFree<T>(s: Ring<T>, pos: nat)
    requires Inv(s) && pos <= s.enqueuePos && CellAt(s, pos).sequence == pos
    ensures pos == s.enqueuePos ==> pos < Freed(s) + s.cap
  {
    assert TicketOk(s, Freed(s));
    SameCell(s.cap, Freed(s));
  }

  lemma ClaimStep<T>(s: Ring<T>, p: nat)
    requires Inv(s) && p in s.producers && s.producers[p].Ready? && s.producers[p].pos == s.enqueuePos
    ensures Inv(Next(s, CompareExchange(p, false)))
  {
    hide Index;
    var n := Next(s, CompareExchange(p, false));
    var pos := s.enqueuePos;
    assert ProducerOk(s, s.producers[p]);
    assert Owns(n.producers[p], pos);
    forall t ensures Owned(n, t) <==> Owned(s, t) || t == pos {
      if Owned(s, t) {
        var o :| o in s.producers && Owns(s.producers[o], t);
        assert n.producers[o] == s.producers[o];
      }
    }
    forall t: nat | Freed(n) <= t < Freed(n) + n.cap ensures TicketOk(n, t) {
      assert TicketOk(s, t);
    }
    forall o | o in n.producers ensures ProducerOk(n, n.producers[o]) {
      assert ProducerOk(s, s.producers[o]);
    }
  }

  lemma WriteStep<T>(s: Ring<T>, p: nat)
    requires Inv(s) && Enabled(s, WriteData(p))
    ensures Inv(Next(s, WriteData(p)))
  {
    hide Index;
    var n := Next(s, WriteData(p));
    var pos := s.producers[p].pos;
    assert ProducerOk(s, s.producers[p]);
    WindowCells(s, Freed(s));
    assert Owns(n.producers[p], pos) && Owns(s.producers[p], pos);
    forall t ensures Owned(n, t) <==> Owned(s, t) {
      if Owned(s, t) {
        var o :| o in s.producers && Owns(s.producers[o], t);
        assert Owns(n.producers[o], t);
      }
      if Owned(n, t) {
        var o :| o in n.producers && Owns(n.producers[o], t);
        assert Owns(s.producers[o], t);
      }
    }
    forall t: nat | Freed(n) <= t < Freed(n) + n.cap ensures TicketOk(n, t) {
      assert TicketOk(s, t);
    }
    forall o | o in n.producers ensures ProducerOk(n, n.producers[o]) {
      assert ProducerOk(s, s.producers[o]);
      if o != p && s.producers[o].Filled? {
        assert Owns(s.producers[o], s.producers[o].pos);
      }
    }
  }

  lemma AnnounceOwned<T>(s: Ring<T>, p: nat)
    requires Enabled(s, Announce(p)) && OneOwner(s)
    ensures forall t :: Owned(Next(s, Announce(p)), t) <==> Owned(s, t) && t != s.producers[p].pos
    ensures Owned(s, s.producers[p].pos) && OneOwner(Next(s, Announce(p)))
  {
    hide Index;
    var n, pos := Next(s, Announce(p)), s.producers[p].pos;
    assert Owns(s.producers[p], pos);
    forall t ensures Owned(n, t) <==> Owned(s, t) && t != pos {
      if Owned(s, t) && t != pos {
        var o :| o in s.producers && Owns(s.producers[o], t);
        assert Owns(n.producers[o], t);
      }
      if Owned(n, t) {
        var o :| o in n.producers && Owns(n.producers[o], t);
        assert Owns(s.producers[o], t);
      }
    }
  }

  lemma AnnounceStep<T>(s: Ring<T>, p: nat)
    requires Inv(s) && Enabled(s, Announce(p))
    ensures Inv(Next(s, Announce(p)))
  {
    hide Index, Owned;
    var n := Next(s, Announce(p));
    var pos := s.producers[p].pos;
    assert ProducerOk(s, s.producers[p]);
    WindowCells(s, Freed(s));
    AnnounceOwned(s, p);
    forall t: nat | Freed(n) <= t < Freed(n) + n.cap ensures TicketOk(n, t) {
      assert TicketOk(s, t);
    }
    forall o | o in n.producers ensures ProducerOk(n, n.producers[o]) {
      assert ProducerOk(s, s.producers[o]);
    }
  }

  /** The consumer's own steps leave producers and tickets as they are. */
  lemma ConsumerStep<T>(s: Ring<T>, c: Consumer<T>)
    requires Inv(s) && !s.consumer.Released? && !c.Released? && ConsumerOk(s.(consumer := c))
    ensures Inv(s.(consumer := c))
  {
    var n := s.(consumer := c);
    forall t ensures Owned(n, t) <==> Owned(s, t) {
    }
    forall t: nat | Freed(n) <= t < Freed(n) + n.cap ensures TicketOk(n, t) {
      assert TicketOk(s, t);
    }
    forall o | o in n.producers ensures ProducerOk(n, n.producers[o]) {
      assert ProducerOk(s, s.producers[o]);
    }
  }

  /** A full cell seen by the consumer holds the oldest ticket that has not been handed out. */
  lemma SeenFull<T>(s: Ring<T>)
    requires Inv(s) && s.consumer.Waiting? && !ReportsEmpty(s)
    ensures s.dequeuePos < s.enqueuePos && !Owned(s, s.dequeuePos)
  {
    assert TicketOk(s, s.dequeuePos);
  }

  lemma ReleaseStep<T>(s: Ring<T>)
    requires Inv(s) && Enabled(s, PopRelease)
    ensures Inv(Next(s, PopRelease))
  {
    var n := Next(s, PopRelease);
    var d := s.dequeuePos;
    WindowCells(s, d);
    SameCell(s.cap, d);
    forall t ensures Owned(n, t) <==> Owned(s, t) {
    }
    forall o | o in n.producers ensures ProducerOk(n, n.producers[o]) {
      assert ProducerOk(s, s.producers[o]);
      if IsOwner(s.producers[o]) {
        assert Owns(s.producers[o], s.producers[o].pos);
      }
    }
    assert !Owned(s, d + s.cap) by {
      NotYetOwned(s, d + s.cap);
    }
    forall t: nat | Freed(n) <= t < Freed(n) + n.cap ensures TicketOk(n, t) {
      if t < d + s.cap {
        assert TicketOk(s, t);
      }
    }
  }

  lemma NotYetOwned<T>(s: Ring<T>, t: nat)
    requires Inv(s) && t >= s.enqueuePos
    ensures !Owned(s, t)
  {
    forall p | p in s.producers ensures !Owns(s.producers[p], t) {
      assert ProducerOk(s, s.producers[p]);
    }
  }

  lemma AdvanceStep<T>(s: Ring<T>)
    requires Inv(s) && Enabled(s, PopAdvance)
    ensures Inv(Next(s, PopAdvance))
  {
    var n := Next(s, PopAdvance);
    forall t ensures Owned(n, t) <==> Owned(s, t) {
    }
    forall t: nat | Freed(n) <= t < Freed(n) + n.cap ensures TicketOk(n, t) {
      assert TicketOk(s, t);
    }
    forall o | o in n.producers ensures ProducerOk(n, n.producers[o]) {
      assert ProducerOk(s, s.producers[o]);
    }
    assert s.pushed[..s.dequeuePos + 1] == s.pushed[..s.dequeuePos] + [s.pushed[s.dequeuePos]];
  }

  lemma StepKeepsInv<T>(s: Ring<T>, step: Step<T>)
    requires Inv(s) && Enabled(s, step)
    ensures Inv(Next(s, step))
  {
    match step
    case Start(p, item) => LocalStep(s, p, Loaded(item, s.enqueuePos));
    case LoadSequence(p) =>
      var q := Next(s, step).producers[p];
      assert ProducerOk(s, s.producers[p]);
      if q.Ready? {
        SeenFree(s, q.pos);
      }
      LocalStep(s, p, q);
    case Reload(p) => LocalStep(s, p, Loaded(s.producers[p].item, s.enqueuePos));
    case CompareExchange(p, spurious) =>
      if s.enqueuePos == s.producers[p].pos && !spurious {
        ClaimStep(s, p);
      } else {
        LocalStep(s, p, Loaded(s.producers[p].item, s.enqueuePos));
      }
    case WriteData(p) => WriteStep(s, p);
    case Announce(p) => AnnounceStep(s, p);
    case PopLoad =>
      if !ReportsEmpty(s) {
        SeenFull(s);
        ConsumerStep(s, Seen);
      }
    case PopCopy =>
      assert TicketOk(s, s.dequeuePos);
      ConsumerStep(s, Copied(CellAt(s, s.dequeuePos).data));
    case PopRelease => ReleaseStep(s);
    case PopAdvance => AdvanceStep(s);
  }

  // ---------- Safety of every run ----------

  lemma {:induction false} RunKeepsInv<T>(s: Ring<T>, steps: seq<Step<T>>)
    requires Inv(s) && IsRun(s, steps)
    ensures Inv(After(s, steps)) && After(s, steps).cap == s.cap
    decreases |steps|
  {
    if steps != [] {
      StepKeepsInv(s, steps[0]);
      RunKeepsInv(Next(s, steps[0]), steps[1..]);
    }
  }

  /** Items are handed out in ticket order: none lost, none twice, none made up. */
  predicate InOrder<T(==)>(s: Ring<T>) {
    |s.popped| <= |s.pushed| && s.popped == s.pushed[..|s.popped|]
  }

  /** Every interleaving of every set of producers and the consumer hands out exactly a prefix of
      the claimed items in ticket order, never claims more than `cap` tickets that have not been
      given back, and gives every ticket a single owner. */
  lemma RunsAreSafe<T>(cap: nat, producers: set<nat>, blank: T, steps: seq<Step<T>>)
    requires cap >= 2 && IsPow2(cap) && IsRun(Init(cap, producers, blank), steps)
    ensures var s := After(Init(cap, producers, blank), steps);
            && Inv(s)
            && InOrder(s)
            && Freed(s) <= |s.pushed| <= Freed(s) + cap
            && OneOwner(s)
  {
    InitInv(cap, producers, blank);
    RunKeepsInv(Init(cap, producers, blank), steps);
  }

  /** No cell is written while it is unread or being read: when a producer writes, the consumer is
      not at this cell, the item that was there has been handed out and given back, and no other
      producer owns this cell. */
  lemma WritesAreExclusive<T>(s: Ring<T>, p: nat)
    requires Inv(s) && Enabled(s, WriteData(p))
    ensures var pos := s.producers[p].pos;
            && (s.consumer.Seen? || s.consumer.Copied? ==> Index(s.cap, pos) != Index(s.cap, s.dequeuePos))
            && pos < Freed(s) + s.cap
            && CellAt(s, pos).sequence == pos
            && forall q :: q in s.producers && q != p && IsOwner(s.producers[q]) ==>
                 Index(s.cap, s.producers[q].pos) != Index(s.cap, pos)
  {
    var pos := s.producers[p].pos;
    WindowCells(s, Freed(s));
    assert ProducerOk(s, s.producers[p]) && Owns(s.producers[p], pos);
    assert TicketOk(s, pos);
    forall q | q in s.producers && q != p && IsOwner(s.producers[q])
      ensures Index(s.cap, s.producers[q].pos) != Index(s.cap, pos)
    {
      assert ProducerOk(s, s.producers[q]) && Owns(s.producers[q], s.producers[q].pos);
    }
  }

  /** The consumer copies a cell only when no producer owns it. */
  lemma ReadsAreExclusive<T>(s: Ring<T>)
    requires Inv(s) && Enabled(s, PopCopy)
    ensures forall q :: q in s.producers && IsOwner(s.producers[q]) ==>
              Index(s.cap, s.producers[q].pos) != Index(s.cap, s.dequeuePos)
  {
    WindowCells(s, Freed(s));
    forall q | q in s.producers && IsOwner(s.producers[q])
      ensures Index(s.cap, s.producers[q].pos) != Index(s.cap, s.dequeuePos)
    {
      assert ProducerOk(s, s.producers[q]) && Owns(s.producers[q], s.producers[q].pos);
    }
  }

  /** "Full" is truthful: when `try_push` reports it, `cap` claimed tickets have not been given
      back at that very moment, even if the position it read is stale. */
  lemma FullIsTruthful<T>(s: Ring<T>, p: nat)
    requires Inv(s) && Enabled(s, LoadSequence(p)) && ReportsFull(s, p)
    ensures |s.pushed| - Freed(s) == s.cap
  {
    assert ProducerOk(s, s.producers[p]);
    if s.producers[p].pos < Freed(s) + s.cap {
      NotBehind(s, s.producers[p].pos);
    }
  }

  lemma NotBehind<T>(s: Ring<T>, pos: nat)
    requires Inv(s) && pos < Freed(s) + s.cap
    ensures CellAt(s, pos).sequence >= pos
  {
    if pos < Freed(s) {
      OldCellMovedOn(s, pos);
    } else {
      assert TicketOk(s, pos);
    }
  }

  /** The cell of a ticket that has been given back is at least one round further. */
  lemma {:induction false} OldCellMovedOn<T>(s: Ring<T>, pos: nat)
    requires Inv(s) && pos < Freed(s)
    ensures CellAt(s, pos).sequence >= Freed(s)
  {
    var t := pos;
    while t < Freed(s)
      invariant Index(s.cap, t) == Index(s.cap, pos) && t < Freed(s) + s.cap
    {
      SameCell(s.cap, t);
      t := t + s.cap;
    }
    assert TicketOk(s, t);
  }

  /** "Empty" is truthful: when `try_pop` reports it, either every claimed ticket has been handed
      out or the next one is still being written. */
  lemma EmptyIsTruthful<T>(s: Ring<T>)
    requires Inv(s) && Enabled(s, PopLoad)
    ensures ReportsEmpty(s) <==> s.popped == s.pushed || Owned(s, s.dequeuePos)
  {
    assert TicketOk(s, s.dequeuePos);
    NotYetOwned(s, s.enqueuePos);
    if s.dequeuePos == s.enqueuePos {
      assert s.pushed[..s.dequeuePos] == s.pushed;
    }
  }

  /** Nothing stays behind: if no producer is in the middle of a push and `try_pop` reports empty,
      every item ever pushed has been handed out. */
  lemma DrainedMeansAll<T>(s: Ring<T>)
    requires Inv(s) && Enabled(s, PopLoad) && ReportsEmpty(s)
    requires forall p :: p in s.producers ==> !IsOwner(s.producers[p])
    ensures s.popped == s.pushed
  {
    EmptyIsTruthful(s);
  }

  // ---------- Capacity one ----------

  /** With a single cell "announced" and "free for the next ticket" are the same number. */
  function FirstPush<T>(a: T): seq<Step<T>> {
    [Start(0, a), LoadSequence(0), CompareExchange(0, false), WriteData(0), Announce(0)]
  }

  function SecondWrite<T>(b: T): seq<Step<T>> {
    [Start(0, b), LoadSequence(0), CompareExchange(0, false), WriteData(0)]
  }

  function OnePop<T>(): seq<Step<T>> {
    [PopLoad, PopCopy, PopRelease, PopAdvance]
  }

  function OneCell<T>(c: Cell<T>, enqueued: nat, q: Producer<T>, pushed: seq<T>): Ring<T> {
    Ring(1, [c], enqueued, 0, map[0 := q], Waiting, pushed, [])
  }

  lemma TakeStep<T>(s: Ring<T>, steps: seq<Step<T>>, n: Ring<T>)
    requires steps != [] && Enabled(s, steps[0]) && n == Next(s, steps[0]) && IsRun(n, steps[1..])
    ensures IsRun(s, steps) && After(s, steps) == After(n, steps[1..])
  {
  }

  lemma {:induction false} RunConcat<T>(s: Ring<T>, x: seq<Step<T>>, y: seq<Step<T>>)
    requires IsRun(s, x) && IsRun(After(s, x), y)
    ensures IsRun(s, x + y) && After(s, x + y) == After(After(s, x), y)
    decreases |x|
  {
    if x == [] {
      assert x + y == y;
    } else {
      assert (x + y)[1..] == x[1..] + y;
      RunConcat(Next(s, x[0]), x[1..], y);
    }
  }

  lemma OneIndex(pos: nat)
    ensures Index(1, pos) == 0
  {
  }

  lemma StartOne<T>(c: Cell<T>, n: nat, item: T, pushed: seq<T>)
    ensures var s := OneCell(c, n, Idle, pushed);
            Enabled(s, Start(0, item)) && Next(s, Start(0, item)) == OneCell(c, n, Loaded(item, n), pushed)
  {
    assert map[0 := Idle][0 := Loaded(item, n)] == map[0 := Loaded(item, n)];
  }

  lemma LoadOne<T>(c: Cell<T>, item: T, pushed: seq<T>)
    ensures var n := c.sequence;
            var s := OneCell(c, n, Loaded(item, n), pushed);
            Enabled(s, LoadSequence(0)) && Next(s, LoadSequence(0)) == OneCell(c, n, Ready(item, n), pushed)
  {
    var n := c.sequence;
    OneIndex(n);
    assert map[0 := Loaded(item, n)][0 := Ready(item, n)] == map[0 := Ready(item, n)];
  }

  lemma ExchangeOne<T>(c: Cell<T>, n: nat, item: T, pushed: seq<T>)
    ensures var s := OneCell(c, n, Ready(item, n), pushed);
            var step := CompareExchange(0, false);
            Enabled(s, step) && Next(s, step) == OneCell(c, n + 1, Claimed(item, n), pushed + [item])
  {
    assert map[0 := Ready(item, n)][0 := Claimed(item, n)] == map[0 := Claimed(item, n)];
  }

  lemma WriteOne<T>(c: Cell<T>, n: nat, item: T, pushed: seq<T>)
    ensures var s := OneCell(c, n + 1, Claimed(item, n), pushed);
            Enabled(s, WriteData(0)) && Next(s, WriteData(0)) == OneCell(c.(data := item), n + 1, Filled(n), pushed)
  {
    OneIndex(n);
    assert map[0 := Claimed(item, n)][0 := Filled(n)] == map[0 := Filled(n)];
  }

  lemma AnnounceOne<T>(c: Cell<T>, n: nat, pushed: seq<T>)
    ensures var s := OneCell(c, n + 1, Filled(n), pushed);
            Enabled(s, Announce(0)) && Next(s, Announce(0)) == OneCell(c.(sequence := n + 1), n + 1, Idle, pushed)
  {
    OneIndex(n);
    assert map[0 := Producer<T>.Filled(n)][0 := Idle] == map[0 := Idle];
  }

  /** A push into the one cell up to the write of its item. */
  lemma PushRun<T>(c: Cell<T>, item: T, pushed: seq<T>)
    ensures var s := OneCell(c, c.sequence, Idle, pushed);
            && IsRun(s, SecondWrite(item))
            && After(s, SecondWrite(item)) == OneCell(c.(data := item), c.sequence + 1, Filled(c.sequence), pushed + [item])
  {
    hide Enabled, Next, OneCell;
    var steps, n := SecondWrite(item), c.sequence;
    var s0 := OneCell(c, n, Idle, pushed);
    var s1 := OneCell(c, n, Loaded(item, n), pushed);
    var s2 := OneCell(c, n, Ready(item, n), pushed);
    var s3 := OneCell(c, n + 1, Claimed(item, n), pushed + [item]);
    var s4 := OneCell(c.(data := item), n + 1, Filled(n), pushed + [item]);
    StartOne(c, n, item, pushed);
    LoadOne(c, item, pushed);
    ExchangeOne(c, n, item, pushed);
    WriteOne(c, n, item, pushed + [item]);
    assert steps[3..][1..] == [];
    TakeStep(s3, steps[3..], s4);
    assert steps[2..][1..] == steps[3..];
    TakeStep(s2, steps[2..], s3);
    assert steps[1..][1..] == steps[2..];
    TakeStep(s1, steps[1..], s2);
    TakeStep(s0, steps, s1);
  }

  lemma FirstPushRun<T>(a: T)
    ensures IsRun(Init(1, {0}, a), FirstPush(a))
    ensures After(Init(1, {0}, a), FirstPush(a)) == OneCell(Cell(1, a), 1, Idle, [a])
  {
    hide Enabled, Next, SecondWrite;
    var filled := OneCell(Cell(0, a), 1, Filled(0), [a]);
    var s5 := OneCell(Cell(1, a), 1, Idle, [a]);
    assert Init(1, {0}, a) == OneCell(Cell(0, a), 0, Idle, []) by {
      assert Init(1, {0}, a).producers == map[0 := Idle];
    }
    PushRun(Cell(0, a), a, []);
    assert [] + [a] == [a];
    AnnounceOne(Cell(0, a), 0, [a]);
    var last: seq<Step<T>> := [Announce(0)];
    assert last[1..] == [];
    TakeStep(filled, last, s5);
    assert FirstPush(a) == SecondWrite(a) + last by {
      FirstIsSecond(a);
    }
    RunConcat(Init(1, {0}, a), SecondWrite(a), last);
  }

  lemma FirstIsSecond<T>(a: T)
    ensures FirstPush(a) == SecondWrite(a) + [Announce(0)]
  {
  }

  lemma SecondWriteRun<T>(a: T, b: T)
    ensures IsRun(OneCell(Cell(1, a), 1, Idle, [a]), SecondWrite(b))
    ensures After(OneCell(Cell(1, a), 1, Idle, [a]), SecondWrite(b)) == OneCell(Cell(1, b), 2, Filled(1), [a, b])
  {
    hide Enabled, Next, SecondWrite;
    PushRun(Cell(1, a), b, [a]);
    assert [a] + [b] == [a, b];
  }

  lemma PopOne<T>(s: Ring<T>, b: T)
    requires s.cap == 1 && s.cells == [Cell(1, b)] && s.dequeuePos == 0 && s.popped == []
    ensures s.consumer == Waiting ==> Enabled(s, PopLoad) && Next(s, PopLoad) == s.(consumer := Seen)
    ensures s.consumer == Seen ==> Enabled(s, PopCopy) && Next(s, PopCopy) == s.(consumer := Copied(b))
    ensures s.consumer == Copied(b) ==> Enabled(s, PopRelease) && Next(s, PopRelease) == s.(consumer := Released(b))
    ensures s.consumer == Released(b) ==>
            Enabled(s, PopAdvance) && Next(s, PopAdvance) == s.(consumer := Waiting, dequeuePos := 1, popped := [b])
  {
    OneIndex(0);
    assert [] + [b] == [b];
    assert s.cells[0 := Cell(1, b)] == s.cells;
  }

  lemma OnePopRun<T>(a: T, b: T)
    ensures IsRun(OneCell(Cell(1, b), 2, Filled(1), [a, b]), OnePop())
    ensures After(OneCell(Cell(1, b), 2, Filled(1), [a, b]), OnePop()).pushed == [a, b]
    ensures After(OneCell(Cell(1, b), 2, Filled(1), [a, b]), OnePop()).popped == [b]
  {
    hide Enabled, Next;
    var steps: seq<Step<T>> := OnePop();
    var s0 := OneCell(Cell(1, b), 2, Filled(1), [a, b]);
    var s1 := s0.(consumer := Seen);
    var s2 := s0.(consumer := Copied(b));
    var s3 := s0.(consumer := Released(b));
    var s4 := s0.(dequeuePos := 1, popped := [b]);
    PopOne(s0, b);
    PopOne(s1, b);
    PopOne(s2, b);
    PopOne(s3, b);
    assert steps[3..][1..] == [];
    TakeStep(s3, steps[3..], s4);
    assert steps[2..][1..] == steps[3..];
    TakeStep(s2, steps[2..], s3);
    assert steps[1..][1..] == steps[2..];
    TakeStep(s1, steps[1..], s2);
    TakeStep(s0, steps, s1);
  }

  /** In a ring of one cell a second push overwrites the first item before it is read. */
  lemma CapacityOneOverwrites<T>(a: T, b: T) returns (steps: seq<Step<T>>)
    ensures IsRun(Init(1, {0}, a), steps)
    ensures After(Init(1, {0}, a), steps).pushed == [a, b] && After(Init(1, {0}, a), steps).popped == [b]
  {
    FirstPushRun(a);
    SecondWriteRun(a, b);
    OnePopRun(a, b);
    RunConcat(Init(1, {0}, a), FirstPush(a), SecondWrite(b));
    RunConcat(Init(1, {0}, a), FirstPush(a) + SecondWrite(b), OnePop());
    steps := FirstPush(a) + SecondWrite(b) + OnePop();
  }

  /** Among the powers of two the queue keeps its order in every run exactly from capacity two on. */
  lemma OrderNeedsTwoCells<T(!new)>(cap: nat, a: T, b: T)
    requires IsPow2(cap) && a != b
    ensures cap >= 2 <==>
            forall producers, blank: T, steps :: IsRun(Init(cap, producers, blank), steps) ==>
              InOrder(After(Init(cap, producers, blank), steps))
  {
    if cap >= 2 {
      forall producers, blank: T, steps | IsRun(Init(cap, producers, blank), steps)
        ensures InOrder(After(Init(cap, producers, blank), steps))
      {
        RunsAreSafe(cap, producers, blank, steps);
      }
    } else {
      var steps := CapacityOneOverwrites(a, b);
      var s := After(Init(cap, {0}, a), steps);
      assert s.popped[0] != s.pushed[..1][0];
    }
  }
}
