/**
  Whole runs of the per-source failure budgets of internal/api/loginlimit.go,
  with the order internal/api/auth.go uses them in: a check, an unlocked
  password check, and only then the charge, so several attempts may be
  between their check and their charge at once.
*/
module LoginSourceRuns {
  import opened Basics
  import opened LoginTables

  datatype Event =
    | Admit(source: string, at: Time)   // the check let an attempt through
    | Charge(source: string, at: Time)  // that attempt failed
    | Leave(source: string, at: Time)   // or ended without a failure

  ghost predicate Step(before: Sources, e: Event, after: Sources) {
    match e
    case Charge(source, now) => SourcesFailed(before, after, source, now)
    case Admit(source, now) => after == before && SourceWaitOf(before, source, now) == 0
    case Leave(_, _) => after == before
  }

  ghost predicate Run(tables: seq<Sources>, events: seq<Event>) {
    && |tables| == |events| + 1
    && tables[0] == map[]
    && (forall i | 0 <= i < |events| :: Step(tables[i], events[i], tables[i + 1]))
  }

  ghost predicate Ordered(events: seq<Event>) {
    forall i, j | 0 <= i < j < |events| :: events[i].at <= events[j].at
  }

  ghost predicate After(events: seq<Event>, now: Time) {
    forall i | 0 <= i < |events| :: events[i].at <= now
  }

  function UnboundedStep(sources: Sources, e: Event): Sources {
    if e.Charge? then sources[e.source := Budget(Level(sources, e.source, e.at) + DRAIN, e.at)] else sources
  }

  function Unbounded(events: seq<Event>): Sources {
    if events == [] then map[]
    else UnboundedStep(Unbounded(events[..|events| - 1]), events[|events| - 1])
  }

  ghost predicate LosesLive(before: Sources, e: Event, after: Sources) {
    exists s | s in before :: s !in after && Drained(before[s], e.at) != 0
  }

  // ---- Bounds ----------------------------------------------------------

  lemma {:induction false} StepKeepsBound(before: Sources, e: Event, after: Sources)
    requires |before| <= MAX_SOURCES && Step(before, e, after)
    ensures |after| <= MAX_SOURCES
  {
    if e.Charge? {
      var room :| SourcesRoom(before, room, e.source, e.at) &&
                  after == room[e.source := Budget(Level(before, e.source, e.at) + DRAIN, e.at)];
      PutGrows(room, e.source, Budget(Level(before, e.source, e.at) + DRAIN, e.at));
      if e.source !in before && |before| >= MAX_SOURCES {
        EvictionMakesRoom(before, room, e.at);
      }
    }
  }

  lemma {:induction false} EvictionMakesRoom(before: Sources, room: Sources, now: Time)
    requires |before| <= MAX_SOURCES && SourcesEvicted(before, room, now)
    ensures |room| < MAX_SOURCES
  {
    var live := LiveSources(before, now);
    SubmapNoLarger(live, before);
    if |live| >= MAX_SOURCES {
      var s :| s in live && room == live - {s};
      RemovalShrinks(live, s);
    }
  }

  lemma {:induction false} TableBounded(tables: seq<Sources>, events: seq<Event>, i: nat)
    requires Run(tables, events) && i < |tables|
    ensures |tables[i]| <= 4096
  {
    if i > 0 {
      TableBounded(tables, events, i - 1);
      StepKeepsBound(tables[i - 1], events[i - 1], tables[i]);
    }
  }

  /** An eviction gives up at most one source that has anything spent, only when
      none had drained, and then the one with the least spent. */
  lemma {:induction false} EvictionGivesUpTheLeast(before: Sources, after: Sources, source: string, now: Time, gone: string, other: string)
    requires |before| <= MAX_SOURCES && SourcesFailed(before, after, source, now)
    requires gone in before && gone !in after && Drained(before[gone], now) != 0
    requires other in before && other != gone
    ensures other in after && after[other] == before[other]
    ensures Drained(before[gone], now) <= Drained(before[other], now)
    ensures source !in before && |before| == MAX_SOURCES
  {
    var room :| SourcesRoom(before, room, source, now) &&
                after == room[source := Budget(Level(before, source, now) + DRAIN, now)];
    var live := LiveSources(before, now);
    assert gone in live;
    SubmapNoLarger(live, before);
    var s :| s in live && Least(live, s, now) && room == live - {s};
    if Drained(before[other], now) == 0 {
      SubsetNoLarger(live.Keys, before.Keys - {other});
      assert false;
    }
    assert other in live;
  }

  // ---- The bounded table against the one that never evicts --------------

  ghost predicate NotFromTheFuture(sources: Sources, now: Time) {
    forall s | s in sources :: sources[s].at <= now
  }

  ghost predicate NoStricter(bounded: Sources, ideal: Sources, now: Time) {
    && NotFromTheFuture(bounded, now) && NotFromTheFuture(ideal, now)
    && forall s | s in bounded :: s in ideal && Level(bounded, s, now) <= Level(ideal, s, now)
  }

  ghost predicate Faithful(bounded: Sources, ideal: Sources, now: Time) {
    && NotFromTheFuture(bounded, now) && NotFromTheFuture(ideal, now)
    && (forall s | s in bounded :: s in ideal && bounded[s] == ideal[s])
    && (forall s | s in ideal && s !in bounded :: Level(ideal, s, now) == 0)
  }

  /** A charge touches one source; others stay as they were or go. */
  lemma {:induction false} ChargeShape(before: Sources, after: Sources, source: string, now: Time)
    requires SourcesFailed(before, after, source, now)
    ensures source in after && after[source] == Budget(Level(before, source, now) + DRAIN, now)
    ensures forall s | s in after && s != source :: s in before && after[s] == before[s]
  {
    var room :| SourcesRoom(before, room, source, now) &&
                after == room[source := Budget(Level(before, source, now) + DRAIN, now)];
  }

  lemma {:induction false} StepNoStricter(bounded: Sources, ideal: Sources, e: Event, after: Sources)
    requires NoStricter(bounded, ideal, e.at) && Step(bounded, e, after)
    ensures NoStricter(after, UnboundedStep(ideal, e), e.at)
  {
    if e.Charge? {
      ChargeShape(bounded, after, e.source, e.at);
      var next := UnboundedStep(ideal, e);
      assert NotFromTheFuture(next, e.at);
      forall s | s in after
        ensures after[s].at <= e.at && s in next && Level(after, s, e.at) <= Level(next, s, e.at)
      {
        if s != e.source {
          assert Level(after, s, e.at) == Level(bounded, s, e.at) && Level(next, s, e.at) == Level(ideal, s, e.at);
        }
      }
    }
  }

  lemma {:induction false} StepFaithful(bounded: Sources, ideal: Sources, e: Event, after: Sources)
    requires Faithful(bounded, ideal, e.at) && Step(bounded, e, after) && !LosesLive(bounded, e, after)
    ensures Faithful(after, UnboundedStep(ideal, e), e.at)
  {
    if e.Charge? {
      var room :| SourcesRoom(bounded, room, e.source, e.at) &&
                  after == room[e.source := Budget(Level(bounded, e.source, e.at) + DRAIN, e.at)];
      assert Level(bounded, e.source, e.at) == Level(ideal, e.source, e.at);
      var next := UnboundedStep(ideal, e);
      forall s | s in next && s !in after
        ensures Level(next, s, e.at) == 0
      {
        if s in bounded {
          assert Drained(bounded[s], e.at) == 0;
        }
      }
    }
  }

  lemma {:induction false} RunNoStricter(tables: seq<Sources>, events: seq<Event>, now: Time)
    requires Run(tables, events) && Ordered(events) && After(events, now)
    ensures NoStricter(tables[|events|], Unbounded(events), now)
  {
    if events != [] {
      var n := |events| - 1;
      RunNoStricter(tables[..|events|], events[..n], events[n].at);
      StepNoStricter(tables[n], Unbounded(events[..n]), events[n], tables[n + 1]);
    }
  }

  lemma {:induction false} RunFaithful(tables: seq<Sources>, events: seq<Event>, now: Time)
    requires Run(tables, events) && Ordered(events) && After(events, now)
    requires forall i | 0 <= i < |events| :: !LosesLive(tables[i], events[i], tables[i + 1])
    ensures Faithful(tables[|events|], Unbounded(events), now)
  {
    if events != [] {
      var n := |events| - 1;
      RunFaithful(tables[..|events|], events[..n], events[n].at);
      StepFaithful(tables[n], Unbounded(events[..n]), events[n], tables[n + 1]);
    }
  }

  lemma {:induction false} SourceWaitNeverLonger(tables: seq<Sources>, events: seq<Event>, source: string, now: Time)
    requires Run(tables, events) && Ordered(events) && After(events, now)
    ensures SourceWaitOf(tables[|events|], source, now) <= SourceWaitOf(Unbounded(events), source, now)
  {
    RunNoStricter(tables, events, now);
  }

  lemma {:induction false} SourceWaitExactUntilLiveLoss(tables: seq<Sources>, events: seq<Event>, source: string, now: Time)
    requires Run(tables, events) && Ordered(events) && After(events, now)
    requires forall i | 0 <= i < |events| :: !LosesLive(tables[i], events[i], tables[i + 1])
    ensures SourceWaitOf(tables[|events|], source, now) == SourceWaitOf(Unbounded(events), source, now)
  {
    RunFaithful(tables, events, now);
  }

  function Own(events: seq<Event>, source: string): seq<Event> {
    if events == [] then []
    else
      var last := events[|events| - 1];
      Own(events[..|events| - 1], source) + if last.source == source then [last] else []
  }

  lemma {:induction false} OwnHistoryDecides(events: seq<Event>, source: string)
    ensures Get(Unbounded(events), source) == Get(Unbounded(Own(events, source)), source)
  {
    if events != [] {
      var n := |events| - 1;
      OwnHistoryDecides(events[..n], source);
      var own := Own(events[..n], source);
      if events[n].source == source {
        assert (own + [events[n]])[..|own|] == own;
      } else {
        assert own + [] == own;
      }
    }
  }

  // ---- What one source can spend ------------------------------------------

  /** Attempts of the source that are between their check and their end. */
  function Open(events: seq<Event>, source: string): int {
    if events == [] then 0
    else
      var last := events[|events| - 1];
      Open(events[..|events| - 1], source) +
      if last.source != source then 0 else if last.Admit? then 1 else -1
  }

  function Charges(events: seq<Event>, source: string): nat {
    if events == [] then 0
    else
      var last := events[|events| - 1];
      Charges(events[..|events| - 1], source) + if last.Charge? && last.source == source then 1 else 0
  }

  /** Every attempt that ends was admitted, and at most k are open at once. */
  ghost predicate AtMostOpen(events: seq<Event>, source: string, k: nat) {
    forall i {:trigger events[..i]} | 0 <= i <= |events| :: 0 <= Open(events[..i], source) <= k
  }

  /** The source is dropped only once it has drained. */
  ghost predicate KeptThroughout(tables: seq<Sources>, events: seq<Event>, source: string)
    requires |tables| == |events| + 1
  {
    forall i | 0 <= i < |events| ::
      source in tables[i] && Drained(tables[i][source], events[i].at) != 0 ==> source in tables[i + 1]
  }

  /** A step moves a kept source's level by exactly what that source was charged. */
  lemma {:induction false} KeptStep(before: Sources, e: Event, after: Sources, source: string)
    requires Step(before, e, after) && NotFromTheFuture(before, e.at)
    requires source in before && Drained(before[source], e.at) != 0 ==> source in after
    ensures NotFromTheFuture(after, e.at)
    ensures Level(after, source, e.at) ==
            Level(before, source, e.at) + if e.Charge? && e.source == source then DRAIN else 0
  {
    if e.Charge? {
      ChargeShape(before, after, e.source, e.at);
    }
  }

  /** Between events a level falls by exactly the time that passed, to nothing and no further. */
  lemma {:induction false} LevelFalls(sources: Sources, source: string, t: Time, u: Time)
    requires NotFromTheFuture(sources, t) && t <= u
    ensures Level(sources, source, u) == Max(0, Level(sources, source, t) - (u - t))
  {
  }

  /** Both at once: a step, and the time from it to now. */
  lemma {:induction false} LevelAfter(before: Sources, e: Event, after: Sources, source: string, now: Time)
    requires Step(before, e, after) && NotFromTheFuture(before, e.at) && e.at <= now
    requires source in before && Drained(before[source], e.at) != 0 ==> source in after
    ensures NotFromTheFuture(after, now)
    ensures var level := Level(before, source, e.at) + if e.Charge? && e.source == source then DRAIN else 0;
            Level(after, source, now) == Max(0, level - (now - e.at))
  {
    KeptStep(before, e, after, source);
    LevelFalls(after, source, e.at, now);
  }

  /** With at most k attempts between check and charge, a source never evicted
      while it has something spent holds at most 29 + k failures, less one for
      each attempt still open. */
  lemma {:induction false} BudgetBound(tables: seq<Sources>, events: seq<Event>, source: string, k: nat, now: Time)
    requires Run(tables, events) && Ordered(events) && After(events, now)
    requires AtMostOpen(events, source, k) && KeptThroughout(tables, events, source)
    ensures NotFromTheFuture(tables[|events|], now)
    ensures Level(tables[|events|], source, now) + DRAIN * Open(events, source) <= (BURST - 1 + k) * DRAIN
  {
    if events != [] {
      var n := |events| - 1;
      var e := events[n];
      RunPrefix(tables, events, source);
      OpenPrefix(events, source, k);
      BudgetBound(tables[..|events|], events[..n], source, k, e.at);
      LevelAfter(tables[n], e, tables[n + 1], source, now);
    }
  }

  lemma {:induction false} RunPrefix(tables: seq<Sources>, events: seq<Event>, source: string)
    requires events != [] && Run(tables, events) && Ordered(events) && KeptThroughout(tables, events, source)
    ensures var was := events[..|events| - 1];
            && Run(tables[..|events|], was) && Ordered(was) && After(was, events[|events| - 1].at)
            && KeptThroughout(tables[..|events|], was, source)
            && Step(tables[|events| - 1], events[|events| - 1], tables[|events|])
  {
  }

  lemma {:induction false} OpenPrefix(events: seq<Event>, source: string, k: nat)
    requires AtMostOpen(events, source, k) && events != []
    ensures AtMostOpen(events[..|events| - 1], source, k)
    ensures Open(events, source) <= k
  {
    var was := events[..|events| - 1];
    assert forall i | 0 <= i <= |was| :: was[..i] == events[..i];
    assert events[..|events|] == events;
  }

  lemma {:induction false} NoneFromTheFuture(tables: seq<Sources>, events: seq<Event>, now: Time)
    requires Run(tables, events) && Ordered(events) && After(events, now)
    ensures NotFromTheFuture(tables[|events|], now)
  {
    RunNoStricter(tables, events, now);
  }

  /** What was charged in a stretch is what the level rose by and what drained meanwhile. */
  lemma {:induction false} ChargesAreAccountedFor(
    tables: seq<Sources>, events: seq<Event>, source: string, from: nat, t0: Time, now: Time)
    requires Run(tables, events) && Ordered(events) && After(events, now) && t0 <= now
    requires from <= |events| && KeptThroughout(tables, events, source)
    requires forall i | from <= i < |events| :: t0 <= events[i].at
    ensures DRAIN * Charges(events[from..], source) <= Level(tables[|events|], source, now) + (now - t0)
  {
    if |events| > from {
      var n := |events| - 1;
      var e := events[n];
      RunPrefix(tables, events, source);
      ChargesAreAccountedFor(tables[..|events|], events[..n], source, from, t0, e.at);
      NoneFromTheFuture(tables[..|events|], events[..n], e.at);
      LevelAfter(tables[n], e, tables[n + 1], source, now);
      ChargesStep(events, source, from);
    }
  }

  lemma {:induction false} ChargesStep(events: seq<Event>, source: string, from: nat)
    requires from < |events|
    ensures var e := events[|events| - 1];
            Charges(events[from..], source) ==
            Charges(events[..|events| - 1][from..], source) + if e.Charge? && e.source == source then 1 else 0
  {
    var n := |events| - 1;
    assert events[from..][..n - from] == events[..n][from..];
  }

  /** In any interval of length T a kept source is charged at most 29 + k + T/30s failures. */
  lemma {:induction false} ChargeRate(tables: seq<Sources>, events: seq<Event>, source: string, k: nat, from: nat, t0: Time, now: Time)
    requires Run(tables, events) && Ordered(events) && After(events, now) && t0 <= now
    requires from <= |events|
    requires forall i | from <= i < |events| :: t0 <= events[i].at
    requires AtMostOpen(events, source, k) && KeptThroughout(tables, events, source)
    ensures Charges(events[from..], source) <= BURST - 1 + k + (now - t0) / DRAIN
  {
    BudgetBound(tables, events, source, k, now);
    assert events[..|events|] == events;
    ChargesAreAccountedFor(tables, events, source, from, t0, now);
    RatePerDrain(Charges(events[from..], source), BURST - 1 + k, now - t0);
  }

  lemma {:induction false} RatePerDrain(charges: nat, base: nat, span: nat)
    requires DRAIN * charges <= DRAIN * base + span
    ensures charges <= base + span / DRAIN
  {
  }
}
