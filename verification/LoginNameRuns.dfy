/**
  Whole runs of the backoff table of internal/api/loginlimit.go. A run is any
  sequence of checks, charged failures and successes on a clock that never goes
  back, with any choice the eviction leaves open. The yardstick is a table that
  never evicts.
*/
module LoginNameRuns {
  import opened Basics
  import opened LoginTables

  datatype Event =
    | Admit(key: string, at: Time)  // the check let an attempt through
    | Fail(key: string, at: Time)   // that attempt failed, and is charged
    | Clear(key: string, at: Time)  // or succeeded
    | Leave(key: string, at: Time)  // or ended without being either

  ghost predicate Step(before: Names, e: Event, after: Names) {
    match e
    case Fail(key, now) => NamesFailed(before, after, key, now)
    case Clear(key, _) => after == before - {key}
    case Admit(key, now) => after == before && WaitOf(before, key, now) == 0
    case Leave(_, _) => after == before
  }

  ghost predicate Run(tables: seq<Names>, events: seq<Event>) {
    && |tables| == |events| + 1
    && tables[0] == map[]
    && (forall i | 0 <= i < |events| :: Step(tables[i], events[i], tables[i + 1]))
  }

  ghost predicate Ordered(events: seq<Event>) {
    forall i, j | 0 <= i < j < |events| :: events[i].at <= events[j].at
  }

  /** An instant no earlier than anything in the run. */
  ghost predicate After(events: seq<Event>, now: Time) {
    forall i | 0 <= i < |events| :: events[i].at <= now
  }

  function UnboundedStep(names: Names, e: Event): Names {
    match e
    case Fail(key, now) => names[key := Charged(Get(names, key), now)]
    case Clear(key, _) => names - {key}
    case Admit(_, _) => names
    case Leave(_, _) => names
  }

  /** The table that never evicts. */
  function Unbounded(events: seq<Event>): Names {
    if events == [] then map[]
    else UnboundedStep(Unbounded(events[..|events| - 1]), events[|events| - 1])
  }

  /** An entry that still matters left the table on this step, and not because it succeeded. */
  ghost predicate LosesLive(before: Names, e: Event, after: Names) {
    exists k | k in before :: k !in after && k != e.key && !Stale(before[k], e.at)
  }

  // ---- Bounds ----------------------------------------------------------

  lemma {:induction false} StepKeepsBound(before: Names, e: Event, after: Names)
    requires |before| <= MAX_NAMES && Step(before, e, after)
    ensures |after| <= MAX_NAMES
  {
    match e {
      case Clear(key, _) => RemovalShrinks(before, key);
      case Admit(_, _) =>
      case Leave(_, _) =>
      case Fail(key, now) =>
        var room :| NamesRoom(before, room, key, now) && after == room[key := Charged(Get(before, key), now)];
        PutGrows(room, key, Charged(Get(before, key), now));
        if key !in before && |before| >= MAX_NAMES {
          EvictionMakesRoom(before, room, now);
        }
    }
  }

  lemma {:induction false} EvictionMakesRoom(before: Names, room: Names, now: Time)
    requires |before| <= MAX_NAMES && NamesEvicted(before, room, now)
    ensures |room| < MAX_NAMES
  {
    var live := LiveNames(before, now);
    SubmapNoLarger(live, before);
    if |live| >= MAX_NAMES {
      var k :| k in live && room == live - {k};
      RemovalShrinks(live, k);
    }
  }

  lemma {:induction false} TableBounded(tables: seq<Names>, events: seq<Event>, i: nat)
    requires Run(tables, events) && i < |tables|
    ensures |tables[i]| <= 4096
  {
    if i > 0 {
      TableBounded(tables, events, i - 1);
      StepKeepsBound(tables[i - 1], events[i - 1], tables[i]);
    }
  }

  /** An eviction gives up at most one entry that still matters, only when nothing
      was stale, and then the one whose window ends soonest. */
  lemma {:induction false} EvictionGivesUpTheSoonest(before: Names, after: Names, key: string, now: Time, gone: string, other: string)
    requires |before| <= MAX_NAMES && NamesFailed(before, after, key, now)
    requires gone in before && gone !in after && !Stale(before[gone], now)
    requires other in before && other != gone
    ensures other in after && after[other] == before[other]
    ensures !Stale(before[other], now) && before[gone].until <= before[other].until
    ensures key !in before && |before| == MAX_NAMES
  {
    var room :| NamesRoom(before, room, key, now) && after == room[key := Charged(Get(before, key), now)];
    var live := LiveNames(before, now);
    assert gone in live;
    SubmapNoLarger(live, before);
    var k :| k in live && Soonest(live, k) && room == live - {k};
    if Stale(before[other], now) {
      SubsetNoLarger(live.Keys, before.Keys - {other});
      assert false;
    }
    assert other in live;
  }

  // ---- The bounded table against the one that never evicts --------------

  /** The bounded table forgets, but never remembers more. */
  ghost predicate NoStricter(bounded: Names, ideal: Names) {
    forall k | k in bounded ::
      && k in ideal
      && bounded[k].failures <= ideal[k].failures
      && bounded[k].until <= ideal[k].until
  }

  /** What is held is held exactly, and what is missing no longer matters. */
  ghost predicate Faithful(bounded: Names, ideal: Names, now: Time) {
    && (forall k | k in bounded :: k in ideal && bounded[k] == ideal[k])
    && (forall k | k in ideal && k !in bounded :: Stale(ideal[k], now))
  }

  lemma Pow2Grows(m: nat, n: nat)
    requires m <= n
    ensures Pow2(m) <= Pow2(n)
  {
  }

  lemma {:induction false} WindowGrows(m: nat, n: nat)
    requires 1 <= m <= n
    ensures Window(m) <= Window(n)
  {
    Pow2Grows(if m - 1 < 10 then m - 1 else 10, if n - 1 < 10 then n - 1 else 10);
  }

  lemma {:induction false} StepNoStricter(bounded: Names, ideal: Names, e: Event, after: Names)
    requires NoStricter(bounded, ideal) && Step(bounded, e, after)
    ensures NoStricter(after, UnboundedStep(ideal, e))
  {
    if e.Fail? {
      var room :| NamesRoom(bounded, room, e.key, e.at) && after == room[e.key := Charged(Get(bounded, e.key), e.at)];
      var mine, theirs := Charged(Get(bounded, e.key), e.at), Charged(Get(ideal, e.key), e.at);
      assert mine.failures <= theirs.failures;
      WindowGrows(mine.failures, theirs.failures);
    }
  }

  lemma {:induction false} StepFaithful(bounded: Names, ideal: Names, e: Event, after: Names)
    requires Faithful(bounded, ideal, e.at) && Step(bounded, e, after)
    requires !LosesLive(bounded, e, after)
    ensures Faithful(after, UnboundedStep(ideal, e), e.at)
  {
    var next := UnboundedStep(ideal, e);
    if e.Fail? {
      var room :| NamesRoom(bounded, room, e.key, e.at) && after == room[e.key := Charged(Get(bounded, e.key), e.at)];
      assert Charged(Get(bounded, e.key), e.at) == Charged(Get(ideal, e.key), e.at);
      forall k | k in next && k !in after
        ensures Stale(next[k], e.at)
      {
        if k in bounded {
          assert Stale(bounded[k], e.at);
        }
      }
    }
  }

  lemma {:induction false} RunNoStricter(tables: seq<Names>, events: seq<Event>)
    requires Run(tables, events)
    ensures NoStricter(tables[|events|], Unbounded(events))
  {
    if events != [] {
      var n := |events| - 1;
      RunNoStricter(tables[..|events|], events[..n]);
      StepNoStricter(tables[n], Unbounded(events[..n]), events[n], tables[n + 1]);
    }
  }

  lemma {:induction false} RunFaithful(tables: seq<Names>, events: seq<Event>, now: Time)
    requires Run(tables, events) && Ordered(events) && After(events, now)
    requires forall i | 0 <= i < |events| :: !LosesLive(tables[i], events[i], tables[i + 1])
    ensures Faithful(tables[|events|], Unbounded(events), now)
  {
    if events != [] {
      var n := |events| - 1;
      RunFaithful(tables[..|events|], events[..n], events[n].at);
      StepFaithful(tables[n], Unbounded(events[..n]), events[n], tables[n + 1]);
    }
  }

  /** Eviction can only shorten an answer, never lengthen one. */
  lemma {:induction false} WaitNeverLonger(tables: seq<Names>, events: seq<Event>, key: string, now: Time)
    requires Run(tables, events)
    ensures WaitOf(tables[|events|], key, now) <= WaitOf(Unbounded(events), key, now)
  {
    RunNoStricter(tables, events);
  }

  /** Until an entry that matters is evicted, eviction cannot be observed at all. */
  lemma {:induction false} WaitExactUntilLiveLoss(tables: seq<Names>, events: seq<Event>, key: string, now: Time)
    requires Run(tables, events) && Ordered(events) && After(events, now)
    requires forall i | 0 <= i < |events| :: !LosesLive(tables[i], events[i], tables[i + 1])
    ensures WaitOf(tables[|events|], key, now) == WaitOf(Unbounded(events), key, now)
  {
    RunFaithful(tables, events, now);
  }

  // ---- One key's own history decides -----------------------------------

  function Own(events: seq<Event>, key: string): seq<Event> {
    if events == [] then []
    else
      var last := events[|events| - 1];
      Own(events[..|events| - 1], key) + if last.key == key then [last] else []
  }

  lemma {:induction false} OwnHistoryDecides(events: seq<Event>, key: string)
    ensures Get(Unbounded(events), key) == Get(Unbounded(Own(events, key)), key)
  {
    if events != [] {
      var n := |events| - 1;
      OwnHistoryDecides(events[..n], key);
      var own := Own(events[..n], key);
      if events[n].key == key {
        assert (own + [events[n]])[..|own|] == own;
      } else {
        assert own + [] == own;
      }
    }
  }
}
