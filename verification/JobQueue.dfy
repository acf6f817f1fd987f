/**
  The executor's queue under every interleaving of its two goroutines
  (cmd/halite-node/execute.go, Offer, Run and Cancel). The stream handler
  offers and cancels, one message at a time (cmd/halite-node/enroll.go, handle);
  the worker takes from the same channel whenever it is free, also half way
  through a cancellation's drain or refill.

  A ticket numbers each accepted job in the order it was accepted.
*/
module JobQueue {

  datatype Ticket = Ticket(n: nat, jid: string)

  /** `mark` is how many jobs had been cancelled when this cancellation began. */
  datatype Handler =
    | Reading
    | Draining(id: string, mark: nat, kept: seq<Ticket>, dropped: bool)
    | Refilling(id: string, mark: nat, left: seq<Ticket>, dropped: bool)

  /** `spilled` is what a refill's default branch would lose. */
  datatype State = State(
    queue: seq<Ticket>, handler: Handler, running: seq<Ticket>,
    accepted: seq<Ticket>, finished: seq<Ticket>, cancelled: seq<Ticket>, refused: seq<Ticket>, spilled: seq<Ticket>,
    answered: seq<(string, bool)>)

  datatype Event =
    | Offer(jid: string)    // accepted and recorded, then queued or refused as full
    | StartCancel(id: string)
    | DrainOne
    | DrainedAll
    | RefillOne
    | EndCancel
    | Take
    | Finish

  const START := State([], Reading, [], [], [], [], [], [], [])

  predicate Enabled(s: State, e: Event) {
    match e
    case Offer(_) => s.handler.Reading?
    case StartCancel(_) => s.handler.Reading?
    case DrainOne => s.handler.Draining? && s.queue != []
    case DrainedAll => s.handler.Draining? && s.queue == []
    case RefillOne => s.handler.Refilling? && s.handler.left != []
    case EndCancel => s.handler.Refilling? && s.handler.left == []
    case Take => s.running == [] && s.queue != []
    case Finish => s.running != []
  }

  function Next(depth: nat, s: State, e: Event): State
    requires Enabled(s, e)
  {
    match e
    case Offer(jid) =>
      var t := Ticket(|s.accepted|, jid);
      if |s.queue| < depth then s.(accepted := s.accepted + [t], queue := s.queue + [t])
      else s.(accepted := s.accepted + [t], refused := s.refused + [t])
    case StartCancel(id) => s.(handler := Draining(id, |s.cancelled|, [], false))
    case DrainOne =>
      var t := s.queue[0];
      if t.jid == s.handler.id
      then s.(queue := s.queue[1..], cancelled := s.cancelled + [t], handler := Draining(s.handler.id, s.handler.mark, s.handler.kept, true))
      else s.(queue := s.queue[1..], handler := Draining(s.handler.id, s.handler.mark, s.handler.kept + [t], s.handler.dropped))
    case DrainedAll => s.(handler := Refilling(s.handler.id, s.handler.mark, s.handler.kept, s.handler.dropped))
    case RefillOne =>
      var t := s.handler.left[0];
      var rest := Refilling(s.handler.id, s.handler.mark, s.handler.left[1..], s.handler.dropped);
      if |s.queue| < depth then s.(queue := s.queue + [t], handler := rest)
      else s.(spilled := s.spilled + [t], handler := rest)
    case EndCancel => s.(handler := Reading, answered := s.answered + [(s.handler.id, s.handler.dropped)])
    case Take => s.(running := [s.queue[0]], queue := s.queue[1..])
    case Finish => s.(finished := s.finished + s.running, running := [])
  }

  ghost predicate Run(depth: nat, states: seq<State>, events: seq<Event>) {
    && |states| == |events| + 1
    && states[0] == START
    && (forall i | 0 <= i < |events| ::
          Enabled(states[i], events[i]) && states[i + 1] == Next(depth, states[i], events[i]))
  }

  /** Everything still waiting, in the order it will wait: what a cancellation holds
      goes before what it has not reached, and behind what it has put back. */
  function Line(s: State): seq<Ticket> {
    match s.handler
    case Reading => s.queue
    case Draining(_, _, kept, _) => kept + s.queue
    case Refilling(_, _, left, _) => s.queue + left
  }

  ghost predicate InOrder(ts: seq<Ticket>) {
    forall i, j | 0 <= i < j < |ts| :: ts[i].n < ts[j].n
  }

  /** Every accepted job is in exactly one place. */
  ghost predicate Conserved(s: State) {
    multiset(s.accepted) ==
    multiset(s.finished) + multiset(s.running) + multiset(Line(s)) + multiset(s.cancelled) + multiset(s.refused)
  }

  ghost predicate Tidy(depth: nat, s: State) {
    && InOrder(Line(s)) && |Line(s)| <= depth
    && (forall t | t in Line(s) :: t.n < |s.accepted|)
    && s.spilled == []
    && (forall i | 0 <= i < |s.accepted| :: s.accepted[i].n == i)
  }

  /** A cancellation holds nothing it was asked to drop, past its drain the queue
      holds none either, and it knows whether it dropped anything. */
  ghost predicate Purged(s: State) {
    match s.handler
    case Reading => true
    case Draining(id, mark, kept, dropped) =>
      (forall t | t in kept :: t.jid != id) && mark <= |s.cancelled| && (dropped <==> mark < |s.cancelled|)
    case Refilling(id, mark, left, dropped) =>
      (forall t | t in s.queue + left :: t.jid != id) && (dropped <==> mark < |s.cancelled|)
  }

  /** Where in the line a step takes a ticket out, if it does. */
  function Leaves(s: State, e: Event): (k: int)
    requires Enabled(s, e)
  {
    var head := if s.handler.Draining? then |s.handler.kept| else 0;
    if e.Take? || (e.DrainOne? && s.queue[0].jid == s.handler.id) then head else -1
  }

  function Removed(line: seq<Ticket>, k: nat): seq<Ticket>
    requires k < |line|
  {
    line[..k] + line[k + 1..]
  }

  lemma {:induction false} LineMoves(depth: nat, s: State, e: Event)
    requires Enabled(s, e) && |Line(s)| <= depth && !e.Offer?
    ensures var t, k := Next(depth, s, e), Leaves(s, e);
            && t.spilled == s.spilled
            && if k >= 0 then k < |Line(s)| && Line(s)[k] == s.queue[0] && Line(t) == Removed(Line(s), k)
               else Line(t) == Line(s)
  {
    match e {
      case Take => LineWithoutHead(s);
      case DrainOne =>
        LineWithoutHead(s);
        assert s.handler.kept + [s.queue[0]] + s.queue[1..] == s.handler.kept + s.queue;
      case RefillOne =>
        assert s.queue + [s.handler.left[0]] + s.handler.left[1..] == s.queue + s.handler.left;
      case _ =>
    }
  }

  lemma {:induction false} RemovalKeepsOrder(line: seq<Ticket>, k: nat, bound: nat)
    requires k < |line| && InOrder(line) && forall t | t in line :: t.n < bound
    ensures InOrder(Removed(line, k)) && forall t | t in Removed(line, k) :: t.n < bound
  {
  }

  lemma {:induction false} StepTidy(depth: nat, s: State, e: Event)
    requires Enabled(s, e) && Tidy(depth, s)
    ensures Tidy(depth, Next(depth, s, e))
  {
    if e.Offer? {
      OfferTidy(depth, s, e.jid);
    } else {
      LineMoves(depth, s, e);
      var k := Leaves(s, e);
      if k >= 0 {
        RemovalKeepsOrder(Line(s), k, |s.accepted|);
      }
      OnlyOffersAccept(depth, s, e);
    }
  }

  lemma {:induction false} OfferTidy(depth: nat, s: State, jid: string)
    requires s.handler.Reading? && Tidy(depth, s)
    ensures Tidy(depth, Next(depth, s, Offer(jid)))
  {
    var t := Next(depth, s, Offer(jid));
    assert Line(t) == if |s.queue| < depth then s.queue + [Ticket(|s.accepted|, jid)] else s.queue;
    assert t.accepted == s.accepted + [Ticket(|s.accepted|, jid)];
  }

  lemma {:induction false} OnlyOffersAccept(depth: nat, s: State, e: Event)
    requires Enabled(s, e) && !e.Offer?
    ensures Next(depth, s, e).accepted == s.accepted
  {
  }

  lemma {:induction false} LineWithoutHead(s: State)
    requires s.queue != []
    ensures var k := if s.handler.Draining? then |s.handler.kept| else 0;
            && k < |Line(s)| && Line(s)[k] == s.queue[0]
            && Line(s.(queue := s.queue[1..])) == Removed(Line(s), k)
  {
  }

  lemma {:induction false} TakeOut(line: seq<Ticket>, k: nat)
    requires k < |line|
    ensures multiset(line) == multiset(Removed(line, k)) + multiset{line[k]}
  {
    assert line == line[..k] + [line[k]] + line[k + 1..];
  }

  lemma {:induction false} Snoc(ts: seq<Ticket>, t: Ticket)
    ensures multiset(ts + [t]) == multiset(ts) + multiset{t}
  {
  }

  lemma {:induction false} OfferConserves(depth: nat, s: State, jid: string)
    requires s.handler.Reading? && Conserved(s)
    ensures Conserved(Next(depth, s, Offer(jid)))
  {
    var t := Ticket(|s.accepted|, jid);
    Snoc(s.accepted, t);
    Snoc(s.queue, t);
    Snoc(s.refused, t);
  }

  lemma {:induction false} LeavingConserves(depth: nat, s: State, e: Event)
    requires Enabled(s, e) && !e.Offer? && |Line(s)| <= depth && Conserved(s) && Leaves(s, e) >= 0
    ensures Conserved(Next(depth, s, e))
  {
    LineMoves(depth, s, e);
    TakeOut(Line(s), Leaves(s, e));
    Snoc(s.cancelled, s.queue[0]);
  }

  lemma {:induction false} StepConserves(depth: nat, s: State, e: Event)
    requires Enabled(s, e) && |Line(s)| <= depth && Conserved(s)
    ensures Conserved(Next(depth, s, e))
  {
    if e.Offer? {
      OfferConserves(depth, s, e.jid);
    } else if Leaves(s, e) >= 0 {
      LeavingConserves(depth, s, e);
    } else {
      LineMoves(depth, s, e);
      assert e.Finish? ==> multiset(s.finished + s.running) == multiset(s.finished) + multiset(s.running);
    }
  }

  lemma {:induction false} StepPurges(depth: nat, s: State, e: Event)
    requires Enabled(s, e) && Purged(s)
    ensures Purged(Next(depth, s, e))
  {
  }

  lemma {:induction false} NothingLost(depth: nat, states: seq<State>, events: seq<Event>)
    requires Run(depth, states, events)
    ensures Tidy(depth, states[|events|]) && Conserved(states[|events|]) && Purged(states[|events|])
  {
    if events != [] {
      var n := |events| - 1;
      NothingLost(depth, states[..|events|], events[..n]);
      StepTidy(depth, states[n], events[n]);
      StepConserves(depth, states[n], events[n]);
      StepPurges(depth, states[n], events[n]);
    }
  }

  /** The accounting of the whole queue, in every reachable state. */
  lemma {:induction false} EveryJobAccountedFor(depth: nat, states: seq<State>, events: seq<Event>)
    requires Run(depth, states, events)
    ensures var s := states[|events|];
            && s.spilled == []
            && |s.accepted| == |s.finished| + |s.running| + |Line(s)| + |s.cancelled| + |s.refused|
            && (forall t | t in s.accepted ::
                  multiset(s.finished)[t] + multiset(s.running)[t] + multiset(Line(s))[t]
                  + multiset(s.cancelled)[t] + multiset(s.refused)[t] == 1)
  {
    NothingLost(depth, states, events);
    var s := states[|events|];
    forall t | t in s.accepted
      ensures multiset(s.accepted)[t] == 1
    {
      TicketsAreUnique(s.accepted, t);
    }
    assert |multiset(s.accepted)| == |s.accepted|;
  }

  lemma {:induction false} TicketsAreUnique(ts: seq<Ticket>, t: Ticket)
    requires forall i | 0 <= i < |ts| :: ts[i].n == i
    ensures multiset(ts)[t] == if t in ts then 1 else 0
  {
    if ts != [] {
      var n := |ts| - 1;
      TicketsAreUnique(ts[..n], t);
      assert ts == ts[..n] + [ts[n]];
    }
  }

  /** A cancellation drops only what it names, and when it ends nothing it names waits. */
  lemma {:induction false} CancelIsExact(depth: nat, states: seq<State>, events: seq<Event>, i: nat)
    requires Run(depth, states, events) && i < |events|
    ensures states[i + 1].cancelled != states[i].cancelled ==>
              && states[i].handler.Draining?
              && states[i + 1].cancelled == states[i].cancelled + [states[i].queue[0]]
              && states[i].queue[0].jid == states[i].handler.id
    ensures events[i].EndCancel? ==>
              && (forall t | t in Line(states[i + 1]) :: t.jid != states[i].handler.id)
              && states[i + 1].answered ==
                 states[i].answered + [(states[i].handler.id, states[i].handler.mark < |states[i].cancelled|)]
  {
    NothingLost(depth, states[..i + 1], events[..i]);
  }

  /** The worker may overtake only jobs a cancellation is holding at that moment. */
  lemma {:induction false} OvertakesOnlyTheHeld(depth: nat, states: seq<State>, events: seq<Event>, i: nat, t: Ticket)
    requires Run(depth, states, events) && i < |events| && events[i].Take?
    requires t in Line(states[i]) && t.n < states[i].queue[0].n
    ensures states[i].handler.Draining? && t in states[i].handler.kept
  {
    NothingLost(depth, states[..i + 1], events[..i]);
    var s := states[i];
    LineWithoutHead(s);
    var k := if s.handler.Draining? then |s.handler.kept| else 0;
    EarlierIsAhead(Line(s), k, t);
    assert s.handler.Draining? ==> Line(s)[..k] == s.handler.kept;
  }

  lemma {:induction false} EarlierIsAhead(line: seq<Ticket>, k: nat, t: Ticket)
    requires InOrder(line) && k < |line| && t in line && t.n < line[k].n
    ensures t in line[..k]
  {
    var a :| 0 <= a < |line| && line[a] == t;
    assert a < k;
    assert line[..k][a] == t;
  }

  /** At every step of every run, a job offered is queued behind everything waiting exactly
      when there is room, and refused exactly when there is none; and a job the worker takes
      is the first of those in the queue. */
  lemma {:induction false} QueuedIffRoom(depth: nat, states: seq<State>, events: seq<Event>, i: nat)
    requires Run(depth, states, events) && i < |events|
    ensures var s, t, e := states[i], states[i + 1], events[i];
            && (e.Offer? ==>
                  var ticket := Ticket(|s.accepted|, e.jid);
                  && t.accepted == s.accepted + [ticket]
                  && t.queue == s.queue + (if |s.queue| < depth then [ticket] else [])
                  && t.refused == s.refused + (if |s.queue| < depth then [] else [ticket]))
            && (!e.Offer? ==> t.refused == s.refused && t.accepted == s.accepted)
            && (e.Take? ==> t.running == [s.queue[0]] && t.queue == s.queue[1..])
            && (e.Finish? ==> t.finished == s.finished + s.running && t.running == [])
            && (!e.Finish? ==> t.finished == s.finished)
  {
    assert Enabled(states[i], events[i]) && states[i + 1] == Next(depth, states[i], events[i]);
  }
}
