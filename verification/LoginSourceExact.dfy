/**
  Exactly what a source's budget answers, and that its bounds are reached
  (internal/api/loginlimit.go, drained, sourceWait and sourceFailed).
*/
module LoginSourceExact {
  import opened Basics
  import opened LoginTables
  import opened LoginSourceRuns

  // ---- The answer, from the times of the charges ---------------------------------------

  function ChargeTimes(events: seq<Event>, source: string): seq<Time> {
    if events == [] then []
    else
      var last := events[|events| - 1];
      ChargeTimes(events[..|events| - 1], source) + if last.Charge? && last.source == source then [last.at] else []
  }

  lemma {:induction false} ChargeTimesCount(events: seq<Event>, source: string)
    ensures |ChargeTimes(events, source)| == Charges(events, source)
  {
    if events != [] {
      ChargeTimesCount(events[..|events| - 1], source);
    }
  }

  lemma {:induction false} ChargeTimesBefore(events: seq<Event>, source: string, now: Time)
    requires After(events, now)
    ensures forall i | 0 <= i < |ChargeTimes(events, source)| :: ChargeTimes(events, source)[i] <= now
  {
    if events != [] {
      ChargeTimesBefore(events[..|events| - 1], source, now);
    }
  }

  /** What would be left at `now` had the bucket been empty before the i-th of some charges:
      thirty seconds for each charge from then on, less the time since. */
  function Left(ts: seq<Time>, i: nat, now: Time): int
    requires i < |ts|
  {
    30_000_000_000 * (|ts| - i) - (now - ts[i])
  }

  /** The greatest of those, or nothing. */
  ghost predicate IsBacklog(ts: seq<Time>, now: Time, level: int) {
    && level >= 0
    && (forall i | 0 <= i < |ts| :: Left(ts, i, now) <= level)
    && (level == 0 || exists i | 0 <= i < |ts| :: Left(ts, i, now) == level)
  }

  lemma {:induction false} BacklogFalls(ts: seq<Time>, t: Time, u: Time, level: int)
    requires IsBacklog(ts, t, level) && t <= u && forall i | 0 <= i < |ts| :: ts[i] <= t
    ensures IsBacklog(ts, u, Max(0, level - (u - t)))
  {
    forall i | 0 <= i < |ts|
      ensures Left(ts, i, u) == Left(ts, i, t) - (u - t)
    {
    }
    if level > u - t {
      var i :| 0 <= i < |ts| && Left(ts, i, t) == level;
      assert Left(ts, i, u) == level - (u - t);
    }
  }

  lemma {:induction false} BacklogCharged(ts: seq<Time>, t: Time, level: int)
    requires IsBacklog(ts, t, level)
    ensures IsBacklog(ts + [t], t, level + 30_000_000_000)
  {
    var more := ts + [t];
    forall i | 0 <= i < |ts|
      ensures Left(more, i, t) == Left(ts, i, t) + 30_000_000_000
    {
    }
    assert Left(more, |ts|, t) == 30_000_000_000;
    if level > 0 {
      var i :| 0 <= i < |ts| && Left(ts, i, t) == level;
      assert Left(more, i, t) == level + 30_000_000_000;
    }
  }

  /** In every run, a source dropped only when drained has a level that is exactly its
      backlog: every charge adds thirty seconds, and they drain one second a second. */
  lemma {:induction false} LevelIsBacklog(tables: seq<Sources>, events: seq<Event>, source: string, now: Time)
    requires Run(tables, events) && Ordered(events) && After(events, now) && KeptThroughout(tables, events, source)
    ensures NotFromTheFuture(tables[|events|], now)
    ensures IsBacklog(ChargeTimes(events, source), now, Level(tables[|events|], source, now))
  {
    if events != [] {
      var n := |events| - 1;
      var e, was := events[n], events[..n];
      RunPrefix(tables, events, source);
      LevelIsBacklog(tables[..|events|], was, source, e.at);
      LevelAfter(tables[n], e, tables[n + 1], source, now);
      var ts, level := ChargeTimes(was, source), Level(tables[n], source, e.at);
      ChargeTimesBefore(was, source, e.at);
      if e.Charge? && e.source == source {
        BacklogCharged(ts, e.at, level);
        BacklogFalls(ts + [e.at], e.at, now, level + 30_000_000_000);
      } else {
        assert ts + [] == ts;
        BacklogFalls(ts, e.at, now, level);
      }
    }
  }

  /** What the i-th charge and those after it ask a caller to wait: what they leave, over
      twenty-nine failures. */
  function Asks(ts: seq<Time>, i: nat, now: Time): int
    requires i < |ts|
  {
    30_000_000_000 * (|ts| - i - 29) - (now - ts[i])
  }

  lemma {:induction false} AsksIsLeft(ts: seq<Time>, i: nat, now: Time)
    requires i < |ts|
    ensures Asks(ts, i, now) == Left(ts, i, now) - 870_000_000_000
  {
  }

  /** So the wait is exactly what the backlog is over twenty-nine failures: never shorter
      than any of the charges asks for, and as long as one of them does, or nothing. */
  lemma {:induction false} SourceWaitIsExact(tables: seq<Sources>, events: seq<Event>, source: string, now: Time)
    requires Run(tables, events) && Ordered(events) && After(events, now) && KeptThroughout(tables, events, source)
    ensures var ts, wait := ChargeTimes(events, source), SourceWaitOf(tables[|events|], source, now);
            && (forall i | 0 <= i < |ts| :: Asks(ts, i, now) <= wait)
            && (wait == 0 || exists i | 0 <= i < |ts| :: Asks(ts, i, now) == wait)
  {
    LevelIsBacklog(tables, events, source, now);
    var ts, level := ChargeTimes(events, source), Level(tables[|events|], source, now);
    WaitIsOver(tables[|events|], source, now);
    forall i | 0 <= i < |ts|
      ensures Asks(ts, i, now) <= SourceWaitOf(tables[|events|], source, now)
    {
      AsksIsLeft(ts, i, now);
      assert Left(ts, i, now) <= level;
    }
    if level > 870_000_000_000 {
      var i :| 0 <= i < |ts| && Left(ts, i, now) == level;
      AsksIsLeft(ts, i, now);
    }
  }

  lemma {:induction false} WaitIsOver(sources: Sources, source: string, now: Time)
    ensures SourceWaitOf(sources, source, now) == Max(0, Level(sources, source, now) - 870_000_000_000)
  {
  }

  /** A source told to wait, and not charged again, waits that long and no longer: the
      answer counts down to nothing and stays there. */
  lemma {:induction false} SourceWaitRunsOut(sources: Sources, source: string, now: Time, later: Time)
    requires NotFromTheFuture(sources, now) && now <= later
    ensures SourceWaitOf(sources, source, later) == Max(0, SourceWaitOf(sources, source, now) - (later - now))
  {
    LevelFalls(sources, source, now, later);
  }

  // ---- The bounds are reached -------------------------------------------------------------

  /** A run of one source alone, with `open` attempts open and `level` spent at `t`. */
  ghost predicate Built(
    tables: seq<Sources>, events: seq<Event>, source: string, k: nat, open: nat, charges: nat, level: nat, t: Time)
  {
    && Run(tables, events) && Ordered(events) && After(events, t)
    && AtMostOpen(events, source, k) && KeptThroughout(tables, events, source)
    && Open(events, source) == open && Charges(events, source) == charges
    && Level(tables[|events|], source, t) == level
    && tables[|events|].Keys <= {source} && NotFromTheFuture(tables[|events|], t)
  }

  lemma {:induction false} BuiltLater(
    tables: seq<Sources>, events: seq<Event>, source: string, k: nat, open: nat, charges: nat, level: nat, t: Time, u: Time)
    requires Built(tables, events, source, k, open, charges, level, t) && t <= u
    ensures Built(tables, events, source, k, open, charges, Max(0, level - (u - t)), u)
  {
    LevelFalls(tables[|events|], source, t, u);
  }

  /** One event more at t. */
  lemma {:induction false} BuiltThen(
    tables: seq<Sources>, events: seq<Event>, source: string, k: nat, open: nat, charges: nat, level: nat, t: Time,
    e: Event, after: Sources)
    requires Built(tables, events, source, k, open, charges, level, t) && e.at == t && e.source == source
    requires if e.Admit? then open < k else open > 0
    requires Step(tables[|events|], e, after) && NotFromTheFuture(after, t)
    requires after.Keys <= {source} && (source in tables[|events|] ==> source in after)
    ensures Built(tables + [after], events + [e], source, k, if e.Admit? then open + 1 else open - 1,
                  if e.Charge? then charges + 1 else charges, Level(after, source, t), t)
  {
    var es, ts := events + [e], tables + [after];
    assert es[..|events|] == events;
    assert forall i | 0 <= i <= |events| :: es[..i] == events[..i];
    assert es[..|es|] == es;
    forall i | 0 <= i < |es|
      ensures Step(ts[i], es[i], ts[i + 1])
    {
      if i < |events| {
        assert Step(tables[i], events[i], tables[i + 1]);
      }
    }
  }

  /** m attempts let through at t. */
  lemma {:induction false} AddAdmits(
    tables: seq<Sources>, events: seq<Event>, source: string, k: nat, open: nat, charges: nat, level: nat, t: Time, m: nat)
    returns (tables': seq<Sources>, events': seq<Event>)
    requires Built(tables, events, source, k, open, charges, level, t) && open + m <= k && level <= 29 * 30_000_000_000
    ensures Built(tables', events', source, k, open + m, charges, level, t)
    decreases m
  {
    tables', events' := tables, events;
    if m > 0 {
      var last := tables[|events|];
      BuiltThen(tables, events, source, k, open, charges, level, t, Admit(source, t), last);
      tables', events' := AddAdmits(tables + [last], events + [Admit(source, t)], source, k, open + 1, charges, level, t, m - 1);
    }
  }

  /** m attempts charged at t. */
  lemma {:induction false} AddCharges(
    tables: seq<Sources>, events: seq<Event>, source: string, k: nat, open: nat, charges: nat, level: nat, t: Time, m: nat)
    returns (tables': seq<Sources>, events': seq<Event>)
    requires Built(tables, events, source, k, open, charges, level, t) && m <= open
    ensures Built(tables', events', source, k, open - m, charges + m, level + m * 30_000_000_000, t)
    decreases m
  {
    tables', events' := tables, events;
    if m > 0 {
      var last := tables[|events|];
      var after := last[source := Budget(level + 30_000_000_000, t)];
      ChargeAlone(last, source, level, t);
      BuiltThen(tables, events, source, k, open, charges, level, t, Charge(source, t), after);
      tables', events' := AddCharges(tables + [after], events + [Charge(source, t)], source, k, open - 1, charges + 1, level + 30_000_000_000, t, m - 1);
    }
  }

  lemma {:induction false} ChargeAlone(last: Sources, source: string, level: nat, t: Time)
    requires last.Keys <= {source} && Level(last, source, t) == level
    ensures var after := last[source := Budget(level + 30_000_000_000, t)];
            Step(last, Charge(source, t), after) && Level(after, source, t) == level + 30_000_000_000 && after.Keys <= {source}
  {
    var after := last[source := Budget(level + 30_000_000_000, t)];
    SubsetNoLarger(last.Keys, {source});
    assert DRAIN == 30_000_000_000 && SourcesRoom(last, last, source, t);
    assert SourcesFailed(last, after, source, t);
  }

  /** m attempts at t, one after another, while each is let through. */
  lemma {:induction false} AddOneByOne(
    tables: seq<Sources>, events: seq<Event>, source: string, k: nat, charges: nat, level: nat, t: Time, m: nat)
    returns (tables': seq<Sources>, events': seq<Event>)
    requires k >= 1 && Built(tables, events, source, k, 0, charges, level, t) && level + m * 30_000_000_000 <= 30 * 30_000_000_000
    ensures Built(tables', events', source, k, 0, charges + m, level + m * 30_000_000_000, t)
    decreases m
  {
    tables', events' := tables, events;
    if m > 0 {
      tables', events' := AddAdmits(tables, events, source, k, 0, charges, level, t, 1);
      tables', events' := AddCharges(tables', events', source, k, 1, charges, level, t, 1);
      tables', events' := AddOneByOne(tables', events', source, k, charges + 1, level + 30_000_000_000, t, m - 1);
    }
  }

  /** Twenty-nine failures at the start, and one more every thirty seconds before r. */
  lemma {:induction false} Steady(source: string, k: nat, r: nat) returns (tables: seq<Sources>, events: seq<Event>)
    requires k >= 1
    ensures Built(tables, events, source, k, 0, 29 + r, 29 * 30_000_000_000, r * 30_000_000_000)
  {
    if r == 0 {
      tables, events := [map[]], [];
      assert Built(tables, events, source, k, 0, 0, 0, 0);
      tables, events := AddOneByOne(tables, events, source, k, 0, 0, 0, 29);
    } else {
      tables, events := Steady(source, k, r - 1);
      tables, events := AddOneByOne(tables, events, source, k, 29 + r - 1, 29 * 30_000_000_000, (r - 1) * 30_000_000_000, 1);
      BuiltLater(tables, events, source, k, 0, 29 + r, 30 * 30_000_000_000, (r - 1) * 30_000_000_000, r * 30_000_000_000);
    }
  }

  /** The bounds on a source are met: for every k and every length T, a run that charges a
      source exactly 29 + k + T/30s times within T of its start, and leaves its level at
      29 + k. */
  lemma {:induction false} ChargeRateIsMet(source: string, k: nat, span: nat) returns (tables: seq<Sources>, events: seq<Event>)
    requires k >= 1
    ensures Run(tables, events) && Ordered(events) && After(events, span)
    ensures AtMostOpen(events, source, k) && KeptThroughout(tables, events, source)
    ensures Charges(events, source) == 29 + k + span / 30_000_000_000
    ensures Level(tables[|events|], source, span / 30_000_000_000 * 30_000_000_000) == (29 + k) * 30_000_000_000
  {
    var r := span / 30_000_000_000;
    tables, events := Steady(source, k, r);
    tables, events := AddAdmits(tables, events, source, k, 0, 29 + r, 29 * 30_000_000_000, r * 30_000_000_000, k);
    tables, events := AddCharges(tables, events, source, k, k, 29 + r, 29 * 30_000_000_000, r * 30_000_000_000, k);
    assert r * 30_000_000_000 <= span;
  }
}
