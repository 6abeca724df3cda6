/** What becomes of every push: nothing is invented, lost, doubled or overtaken.

    A push is known by its producer and its number among that producer's calls. What was presented
    is read off the calls alone; what happened to it is read off the steps that decide a call, the
    exchange that wins a ticket and the load that reports a full queue. */
module RingHistory {
  import opened Types
  import opened Bits
  import opened RingBuffer

  function Front<T>(s: seq<T>): seq<T>
    requires s != []
  {
    s[..|s| - 1]
  }

  function Last<T>(s: seq<T>): T
    requires s != []
  {
    s[|s| - 1]
  }

  /** The arguments of the calls of one producer, in order. */
  function Presented<T>(steps: seq<Step<T>>, p: nat): seq<T> {
    if steps == [] then []
    else Presented(Front(steps), p) + if Last(steps).Start? && Last(steps).p == p then [Last(steps).item] else []
  }

  datatype Push = Push(p: nat, number: int)

  /** The exchange succeeds. */
  predicate Wins<T>(s: Ring<T>, step: Step<T>)
    requires Enabled(s, step)
  {
    step.CompareExchange? && !step.spurious && s.enqueuePos == s.producers[step.p].pos
  }

  /** The call returns false. */
  predicate GivesUp<T>(s: Ring<T>, step: Step<T>)
    requires Enabled(s, step)
  {
    step.LoadSequence? && ReportsFull(s, step.p)
  }

  lemma {:induction false} RunFront<T>(s: Ring<T>, steps: seq<Step<T>>)
    requires steps != [] && IsRun(s, steps)
    ensures IsRun(s, Front(steps)) && Enabled(After(s, Front(steps)), Last(steps))
    ensures After(s, steps) == Next(After(s, Front(steps)), Last(steps))
    decreases |steps|
  {
    hide Enabled, Next;
    if |steps| == 1 {
      assert steps[1..] == [];
    } else {
      RunFront(Next(s, steps[0]), steps[1..]);
      assert Front(steps)[1..] == Front(steps[1..]) && Front(steps)[0] == steps[0];
    }
  }

  /** The calls that won a ticket, in ticket order. */
  function Claims<T>(s: Ring<T>, steps: seq<Step<T>>): seq<Push>
    requires IsRun(s, steps)
    decreases |steps|
  {
    if steps == [] then []
    else
      RunFront(s, steps);
      var front, step := Front(steps), Last(steps);
      Claims(s, front) + if Wins(After(s, front), step) then [Push(step.p, |Presented(front, step.p)| - 1)] else []
  }

  /** The calls that returned false. */
  function Refusals<T>(s: Ring<T>, steps: seq<Step<T>>): set<Push>
    requires IsRun(s, steps)
    decreases |steps|
  {
    if steps == [] then {}
    else
      RunFront(s, steps);
      var front, step := Front(steps), Last(steps);
      Refusals(s, front) + if GivesUp(After(s, front), step) then {Push(step.p, |Presented(front, step.p)| - 1)} else {}
  }

  // ---------- The books ----------

  /** The producer is inside a call that is not decided yet. */
  predicate Pending<T>(q: Producer<T>) {
    q.Loaded? || q.Ready? || q.Retry?
  }

  predicate IsOpen<T>(s: Ring<T>, p: nat) {
    p in s.producers && Pending(s.producers[p])
  }

  /** The call was made. */
  predicate Made<T>(steps: seq<Step<T>>, c: Push) {
    0 <= c.number < |Presented(steps, c.p)|
  }

  /** Every ticket holds the argument of its call. */
  ghost predicate TicketsHold<T>(s: Ring<T>, steps: seq<Step<T>>, claims: seq<Push>) {
    |claims| == |s.pushed| && forall t :: 0 <= t < |claims| ==>
      Made(steps, claims[t]) && s.pushed[t] == Presented(steps, claims[t].p)[claims[t].number]
  }

  /** Tickets of one producer are in the order of its calls; so no call has two tickets. */
  ghost predicate InCallOrder(claims: seq<Push>) {
    forall t, u :: 0 <= t < u < |claims| && claims[t].p == claims[u].p ==> claims[t].number < claims[u].number
  }

  predicate Decided(claims: seq<Push>, refusals: set<Push>, c: Push) {
    c in claims || c in refusals
  }

  /** Every call made is decided, in one way only, unless it is the one its producer is still in,
      which goes on with its own argument. */
  ghost predicate CallsDecided<T>(s: Ring<T>, steps: seq<Step<T>>, claims: seq<Push>, refusals: set<Push>) {
    && (forall c :: c in refusals ==> Made(steps, c) && c !in claims)
    && (forall c :: Made(steps, c) ==>
          (Decided(claims, refusals, c) <==> !(IsOpen(s, c.p) && c.number == |Presented(steps, c.p)| - 1)))
    && (forall p :: IsOpen(s, p) ==> Presented(steps, p) != [] && s.producers[p].item == Last(Presented(steps, p)))
  }

  ghost predicate Accounted<T>(s: Ring<T>, steps: seq<Step<T>>, claims: seq<Push>, refusals: set<Push>) {
    TicketsHold(s, steps, claims) && InCallOrder(claims) && CallsDecided(s, steps, claims, refusals)
  }

  lemma PresentedSnoc<T>(steps: seq<Step<T>>, step: Step<T>, p: nat)
    ensures Presented(steps + [step], p) == Presented(steps, p) + if step.Start? && step.p == p then [step.item] else []
  {
    assert Front(steps + [step]) == steps && Last(steps + [step]) == step;
  }

  /** Calls already made are still made, with the same arguments. */
  lemma MadeStays<T>(steps: seq<Step<T>>, step: Step<T>, c: Push)
    requires Made(steps, c)
    ensures Made(steps + [step], c) && Presented(steps + [step], c.p)[c.number] == Presented(steps, c.p)[c.number]
  {
    PresentedSnoc(steps, step, c.p);
  }

  lemma TicketsStay<T>(s: Ring<T>, n: Ring<T>, steps: seq<Step<T>>, step: Step<T>, claims: seq<Push>)
    requires TicketsHold(s, steps, claims) && n.pushed == s.pushed
    ensures TicketsHold(n, steps + [step], claims)
  {
    forall t | 0 <= t < |claims|
      ensures Made(steps + [step], claims[t]) && n.pushed[t] == Presented(steps + [step], claims[t].p)[claims[t].number]
    {
      MadeStays(steps, step, claims[t]);
    }
  }

  // ---------- What a step does to the books ----------

  /** A step that decides no call leaves every undecided call undecided, with its argument. */
  lemma QuietStep<T>(s: Ring<T>, step: Step<T>)
    requires Enabled(s, step) && !step.Start? && !Wins(s, step) && !GivesUp(s, step)
    ensures var n := Next(s, step);
            && n.pushed == s.pushed
            && forall p :: IsOpen(n, p) == IsOpen(s, p) && (IsOpen(s, p) ==> n.producers[p].item == s.producers[p].item)
  {
    hide Index;
  }

  lemma StartBooks<T>(s: Ring<T>, step: Step<T>, steps: seq<Step<T>>, claims: seq<Push>, refusals: set<Push>)
    requires Enabled(s, step) && step.Start? && Accounted(s, steps, claims, refusals)
    ensures Accounted(Next(s, step), steps + [step], claims, refusals)
  {
    var n, all := Next(s, step), steps + [step];
    TicketsStay(s, n, steps, step, claims);
    forall c | c in refusals ensures Made(all, c) {
      MadeStays(steps, step, c);
    }
    forall c | Made(all, c)
      ensures Decided(claims, refusals, c) <==> !(IsOpen(n, c.p) && c.number == |Presented(all, c.p)| - 1)
    {
      PresentedSnoc(steps, step, c.p);
      if Made(steps, c) {
        assert Decided(claims, refusals, c) <==> !(IsOpen(s, c.p) && c.number == |Presented(steps, c.p)| - 1);
      }
    }
    forall p | IsOpen(n, p) ensures Presented(all, p) != [] && n.producers[p].item == Last(Presented(all, p)) {
      PresentedSnoc(steps, step, p);
      assert p != step.p ==> IsOpen(s, p);
    }
  }

  lemma SamePresented<T>(steps: seq<Step<T>>, step: Step<T>)
    requires !step.Start?
    ensures forall p: nat :: Presented(steps + [step], p) == Presented(steps, p)
  {
    forall p: nat ensures Presented(steps + [step], p) == Presented(steps, p) {
      PresentedSnoc(steps, step, p);
    }
  }

  lemma QuietBooks<T>(s: Ring<T>, step: Step<T>, steps: seq<Step<T>>, claims: seq<Push>, refusals: set<Push>)
    requires Enabled(s, step) && !step.Start? && !Wins(s, step) && !GivesUp(s, step) && Accounted(s, steps, claims, refusals)
    ensures Accounted(Next(s, step), steps + [step], claims, refusals)
  {
    hide Enabled, Next, Presented;
    QuietStep(s, step);
    SamePresented(steps, step);
    TicketsStay(s, Next(s, step), steps, step, claims);
  }

  lemma GiveUpStep<T>(s: Ring<T>, step: Step<T>)
    requires Enabled(s, step) && GivesUp(s, step)
    ensures var n := Next(s, step);
            n.pushed == s.pushed && n.producers == s.producers[step.p := Idle] && IsOpen(s, step.p)
  {
    hide Index;
  }

  lemma GiveUpBooks<T>(s: Ring<T>, step: Step<T>, steps: seq<Step<T>>, claims: seq<Push>, refusals: set<Push>)
    requires Enabled(s, step) && GivesUp(s, step) && Accounted(s, steps, claims, refusals)
    ensures Accounted(Next(s, step), steps + [step], claims, refusals + {Push(step.p, |Presented(steps, step.p)| - 1)})
  {
    hide Enabled, Next, Presented;
    GiveUpStep(s, step);
    SamePresented(steps, step);
    TicketsStay(s, Next(s, step), steps, step, claims);
    var mine := Push(step.p, |Presented(steps, step.p)| - 1);
    assert Made(steps, mine) && !Decided(claims, refusals, mine);
  }

  lemma WinStep<T>(s: Ring<T>, step: Step<T>)
    requires Enabled(s, step) && Wins(s, step)
    ensures var n, q := Next(s, step), s.producers[step.p];
            && IsOpen(s, step.p) && n.pushed == s.pushed + [q.item]
            && n.producers == s.producers[step.p := Claimed(q.item, q.pos)]
  {
    hide Index;
  }

  lemma WinBooks<T>(s: Ring<T>, step: Step<T>, steps: seq<Step<T>>, claims: seq<Push>, refusals: set<Push>)
    requires Enabled(s, step) && Wins(s, step) && Accounted(s, steps, claims, refusals)
    ensures Accounted(Next(s, step), steps + [step], claims + [Push(step.p, |Presented(steps, step.p)| - 1)], refusals)
  {
    hide Enabled, Next, Presented, TicketsHold;
    var mine := Push(step.p, |Presented(steps, step.p)| - 1);
    var more := claims + [mine];
    WinStep(s, step);
    SamePresented(steps, step);
    assert Made(steps, mine) && !Decided(claims, refusals, mine);
    forall t | 0 <= t < |claims| && claims[t].p == mine.p ensures claims[t].number < mine.number {
      TicketMade(s, steps, claims, t);
      assert claims[t] in claims;
    }
    OrderGrows(claims, mine);
    WinTickets(s, step, steps, claims);
    forall c ensures Decided(more, refusals, c) <==> Decided(claims, refusals, c) || c == mine {
    }
  }

  lemma TicketMade<T>(s: Ring<T>, steps: seq<Step<T>>, claims: seq<Push>, t: nat)
    requires TicketsHold(s, steps, claims) && t < |claims|
    ensures Made(steps, claims[t])
  {
  }

  lemma OrderGrows(claims: seq<Push>, mine: Push)
    requires InCallOrder(claims)
    requires forall t :: 0 <= t < |claims| && claims[t].p == mine.p ==> claims[t].number < mine.number
    ensures InCallOrder(claims + [mine])
  {
  }

  lemma WinTickets<T>(s: Ring<T>, step: Step<T>, steps: seq<Step<T>>, claims: seq<Push>)
    requires Enabled(s, step) && Wins(s, step) && TicketsHold(s, steps, claims)
    requires Presented(steps, step.p) != [] && s.producers[step.p].item == Last(Presented(steps, step.p))
    ensures TicketsHold(Next(s, step), steps + [step], claims + [Push(step.p, |Presented(steps, step.p)| - 1)])
  {
    hide Enabled, Next, Presented;
    var n, more := Next(s, step), claims + [Push(step.p, |Presented(steps, step.p)| - 1)];
    WinStep(s, step);
    SamePresented(steps, step);
    forall t | 0 <= t < |more|
      ensures Made(steps + [step], more[t]) && n.pushed[t] == Presented(steps + [step], more[t].p)[more[t].number]
    {
      if t < |claims| {
        assert more[t] == claims[t] && n.pushed[t] == s.pushed[t];
      }
    }
  }

  // ---------- Progress of a producer that runs alone ----------

  /** After the start of a call, after a reload and after a lost exchange the producer goes on with the
      current position and its own item. */
  lemma PositionIsFresh<T>(s: Ring<T>, step: Step<T>)
    requires Enabled(s, step) && (step.Start? || step.Reload? || (step.CompareExchange? && !Wins(s, step)))
    ensures var n := Next(s, step);
            var item := if step.Start? then step.item else s.producers[step.p].item;
            n == s.(producers := n.producers) && n.producers == s.producers[step.p := Loaded(item, s.enqueuePos)]
  {
    hide Index;
  }

  /** A load at the current position decides the call: full exactly if `cap` claimed tickets have not
      been given back, and otherwise the exchange that follows undisturbed wins the ticket. */
  lemma FreshLoadDecides<T>(s: Ring<T>, p: nat)
    requires Inv(s) && Enabled(s, LoadSequence(p)) && s.producers[p].pos == s.enqueuePos
    ensures ReportsFull(s, p) <==> |s.pushed| - Freed(s) == s.cap
    ensures !ReportsFull(s, p) ==>
            var n := Next(s, LoadSequence(p));
            Enabled(n, CompareExchange(p, false)) && Wins(n, CompareExchange(p, false))
  {
    hide Index, Owned;
    var e := s.enqueuePos;
    if e < Freed(s) + s.cap {
      assert TicketOk(s, e);
    } else {
      assert TicketOk(s, Freed(s));
      SameCell(s.cap, Freed(s));
    }
  }

  /** So a call that runs alone ends after two steps with "full" or has its ticket after three. */
  lemma SoloPush<T>(s: Ring<T>, p: nat, item: T)
    requires Inv(s) && Enabled(s, Start(p, item))
    ensures var n := Next(s, Start(p, item));
            && Enabled(n, LoadSequence(p))
            && (GivesUp(n, LoadSequence(p)) <==> |s.pushed| - Freed(s) == s.cap)
            && (|s.pushed| - Freed(s) < s.cap ==>
                  && Enabled(Next(n, LoadSequence(p)), CompareExchange(p, false))
                  && Next(Next(n, LoadSequence(p)), CompareExchange(p, false)).pushed == s.pushed + [item])
  {
    hide Index, Inv;
    PositionIsFresh(s, Start(p, item));
    StepKeepsInv(s, Start(p, item));
    FreshLoadDecides(Next(s, Start(p, item)), p);
  }

  // ---------- Over whole runs ----------

  /** In every run of every ring: every ticket holds the argument of the call that won it, tickets of
      one producer are in the order of its calls, and every call has one ticket or was refused, never
      both, unless it is still going on. */
  lemma {:induction false} EveryPushAccounted<T>(cap: nat, producers: set<nat>, blank: T, steps: seq<Step<T>>)
    requires IsRun(Init(cap, producers, blank), steps)
    ensures var s := Init(cap, producers, blank);
            Accounted(After(s, steps), steps, Claims(s, steps), Refusals(s, steps))
    decreases |steps|
  {
    hide Enabled, Next, Accounted, Wins, GivesUp;
    var s := Init(cap, producers, blank);
    if steps == [] {
      NoBooks(cap, producers, blank);
    } else {
      RunFront(s, steps);
      var front, step := Front(steps), Last(steps);
      EveryPushAccounted(cap, producers, blank, front);
      StepBooks(After(s, front), step, front, Claims(s, front), Refusals(s, front));
      assert steps == front + [step];
    }
  }

  lemma NoBooks<T>(cap: nat, producers: set<nat>, blank: T)
    ensures Accounted(Init(cap, producers, blank), [], [], {})
  {
  }

  lemma StepBooks<T>(s: Ring<T>, step: Step<T>, steps: seq<Step<T>>, claims: seq<Push>, refusals: set<Push>)
    requires Enabled(s, step) && Accounted(s, steps, claims, refusals)
    ensures Accounted(Next(s, step), steps + [step],
                      claims + (if Wins(s, step) then [Push(step.p, |Presented(steps, step.p)| - 1)] else []),
                      refusals + (if GivesUp(s, step) then {Push(step.p, |Presented(steps, step.p)| - 1)} else {}))
  {
    hide Enabled, Next, Accounted;
    assert claims + [] == claims && refusals + {} == refusals;
    if step.Start? {
      StartBooks(s, step, steps, claims, refusals);
    } else if Wins(s, step) {
      WinBooks(s, step, steps, claims, refusals);
    } else if GivesUp(s, step) {
      GiveUpBooks(s, step, steps, claims, refusals);
    } else {
      QuietBooks(s, step, steps, claims, refusals);
    }
  }

  /** What the consumer is handed, in order, is what the winning calls presented, and each producer's
      items arrive in the order it presented them. */
  lemma HandedOutWasPresented<T>(cap: nat, producers: set<nat>, blank: T, steps: seq<Step<T>>)
    requires IsPow2(cap) && cap >= 2 && IsRun(Init(cap, producers, blank), steps)
    ensures var s := Init(cap, producers, blank);
            var popped, claims := After(s, steps).popped, Claims(s, steps);
            && |popped| <= |claims| && InCallOrder(claims)
            && forall t :: 0 <= t < |popped| ==>
                 Made(steps, claims[t]) && popped[t] == Presented(steps, claims[t].p)[claims[t].number]
  {
    hide IsRun, After, Claims, Refusals, Presented, Inv;
    EveryPushAccounted(cap, producers, blank, steps);
    RunsAreSafe(cap, producers, blank, steps);
  }
}
