/**
  The two tables behind `POST /v1/login` (internal/api/loginlimit.go): a
  backoff window per (method, source, name) key, and a leaky budget of
  failures per source. Both are filled by callers, so both are bounded and
  evict.

  Times are nanoseconds since Go's zero time. A budget's level is kept as
  `spent`, the level times the thirty seconds one failure takes to drain, so
  it is a whole number of nanoseconds.
*/
module LoginTables {
  import opened Basics

  type Time = nat

  const SECOND: nat := 1_000_000_000
  const BACKOFF_MAX: nat := 900 * SECOND
  const MAX_NAMES: nat := 4096
  const MAX_SOURCES: nat := 4096
  const BURST: nat := 30
  const DRAIN: nat := 30 * SECOND

  datatype Backoff = Backoff(failures: nat, until: Time)
  datatype Budget = Budget(spent: nat, at: Time)

  type Names = map<string, Backoff>
  type Sources = map<string, Budget>

  function Get<V>(m: map<string, V>, k: string): Option<V> {
    if k in m then Some(m[k]) else None
  }

  function Pow2(n: nat): (p: nat)
    ensures p >= 1
  {
    if n == 0 then 1 else 2 * Pow2(n - 1)
  }

  // ---- Backoff windows -------------------------------------------------

  /** The window the n-th failure in a row starts: one second, doubling, capped. */
  function Window(failures: nat): nat
    requires failures >= 1
  {
    var w := SECOND * Pow2(if failures - 1 < 10 then failures - 1 else 10);
    if w > BACKOFF_MAX then BACKOFF_MAX else w
  }

  /** Quiet for a whole maximum window since the last one ended. */
  predicate Stale(b: Backoff, now: Time) {
    now >= b.until + BACKOFF_MAX
  }

  function WaitOf(names: Names, key: string, now: Time): nat {
    if key in names && now < names[key].until then names[key].until - now else 0
  }

  function Charged(was: Option<Backoff>, now: Time): Backoff {
    var failures := if was.Some? && !Stale(was.value, now) then was.value.failures + 1 else 1;
    Backoff(failures, now + Window(failures))
  }

  function LiveNames(names: Names, now: Time): Names {
    map k | k in names && !Stale(names[k], now) :: names[k]
  }

  ghost predicate Soonest(names: Names, k: string) {
    k in names && forall j | j in names :: names[k].until <= names[j].until
  }

  /** What `evict` may leave: every stale entry gone and, only if the table is
      still full, one entry whose window ends soonest. */
  ghost predicate NamesEvicted(before: Names, after: Names, now: Time) {
    var live := LiveNames(before, now);
    if |live| >= MAX_NAMES then exists k | k in live :: Soonest(live, k) && after == live - {k}
    else after == live
  }

  /** Room is made only for a key not held, in a full table. */
  ghost predicate NamesRoom(before: Names, room: Names, key: string, now: Time) {
    if key !in before && |before| >= MAX_NAMES then NamesEvicted(before, room, now) else room == before
  }

  ghost predicate NamesFailed(before: Names, after: Names, key: string, now: Time) {
    exists room | NamesRoom(before, room, key, now) :: after == room[key := Charged(Get(before, key), now)]
  }

  // ---- Source budgets --------------------------------------------------

  function Drained(b: Budget, now: Time): nat {
    var left := b.spent - (now - b.at);
    if left < 0 then 0 else left
  }

  /** A source that is not held has spent nothing. */
  function Level(sources: Sources, source: string, now: Time): nat {
    if source in sources then Drained(sources[source], now) else 0
  }

  function SourceWaitOf(sources: Sources, source: string, now: Time): nat {
    var over := Level(sources, source, now) - (BURST - 1) * DRAIN;
    if over <= 0 then 0 else over
  }

  function LiveSources(sources: Sources, now: Time): Sources {
    map s | s in sources && Drained(sources[s], now) != 0 :: sources[s]
  }

  ghost predicate Least(sources: Sources, s: string, now: Time) {
    s in sources && forall j | j in sources :: Drained(sources[s], now) <= Drained(sources[j], now)
  }

  ghost predicate SourcesEvicted(before: Sources, after: Sources, now: Time) {
    var live := LiveSources(before, now);
    if |live| >= MAX_SOURCES then exists s | s in live :: Least(live, s, now) && after == live - {s}
    else after == live
  }

  ghost predicate SourcesRoom(before: Sources, room: Sources, source: string, now: Time) {
    if source !in before && |before| >= MAX_SOURCES then SourcesEvicted(before, room, now) else room == before
  }

  ghost predicate SourcesFailed(before: Sources, after: Sources, source: string, now: Time) {
    exists room | SourcesRoom(before, room, source, now) ::
      after == room[source := Budget(Level(before, source, now) + DRAIN, now)]
  }

  // ---- The limiter -----------------------------------------------------

  class LoginLimit {
    var names: Names
    var sources: Sources

    ghost predicate Valid()
      reads this
    {
      |names| <= MAX_NAMES && |sources| <= MAX_SOURCES
    }

    constructor ()
      ensures Valid() && names == map[] && sources == map[]
    {
      names, sources := map[], map[];
    }

    method Wait(key: string, now: Time) returns (d: nat)
      ensures d == WaitOf(names, key, now)
      ensures d == 0 <==> (key in names ==> names[key].until <= now)
    {
      if key !in names || !(now < names[key].until) {
        return 0;
      }
      d := names[key].until - now;
    }

    method Failed(key: string, now: Time)
      requires Valid()
      modifies `names
      ensures Valid()
      ensures NamesFailed(old(names), names, key, now)
    {
      var b := Backoff(0, 0);
      if key !in names {
        if |names| >= MAX_NAMES {
          Evict(now);
        }
      } else {
        b := names[key];
        if !(now < b.until + BACKOFF_MAX) {
          b := b.(failures := 0);
        }
      }
      ghost var room := names;
      assert NamesRoom(old(names), room, key, now);
      b := b.(failures := b.failures + 1);
      var window := SECOND * Pow2(if b.failures - 1 < 10 then b.failures - 1 else 10);
      if window > BACKOFF_MAX {
        window := BACKOFF_MAX;
      }
      names := names[key := b.(until := now + window)];
      assert names == room[key := Charged(Get(old(names), key), now)];
      PutGrows(room, key, names[key]);
    }

    method Succeeded(key: string)
      requires Valid()
      modifies `names
      ensures Valid() && names == old(names) - {key}
    {
      RemovalShrinks(names, key);
      names := names - {key};
    }

    /** Every visiting order of the table is allowed, as a Go map range is. */
    method Evict(now: Time)
      requires |names| <= MAX_NAMES
      modifies `names
      ensures NamesEvicted(old(names), names, now)
      ensures |names| < MAX_NAMES
    {
      ghost var before := names;
      var soonest, soonestAt, found := "", 0, false;
      var todo := names.Keys;
      while todo != {}
        invariant todo <= before.Keys
        invariant names == map k | k in before && (k in todo || !Stale(before[k], now)) :: before[k]
        invariant found ==> soonest in before && soonest !in todo && !Stale(before[soonest], now)
        invariant found ==> soonestAt == before[soonest].until
        invariant forall k | k in before && k !in todo && !Stale(before[k], now) ::
                    found && soonestAt <= before[k].until
      {
        var key :| key in todo;
        todo := todo - {key};
        var b := names[key];
        if !(now < b.until + BACKOFF_MAX) {
          names := names - {key};
        } else if !found || b.until < soonestAt {
          soonest, soonestAt, found := key, b.until, true;
        }
      }
      ghost var live := LiveNames(before, now);
      assert names == live;
      SubmapNoLarger(live, before);
      assert |live| >= MAX_NAMES ==> found by {
        if |live| >= MAX_NAMES {
          assert live.Keys != {};
          var k :| k in live;
        }
      }
      if |names| >= MAX_NAMES && found {
        assert Soonest(live, soonest);
        RemovalShrinks(names, soonest);
        names := names - {soonest};
      }
    }

    method SourceWait(source: string, now: Time) returns (d: nat)
      ensures d == SourceWaitOf(sources, source, now)
      ensures d == 0 <==> Level(sources, source, now) <= (BURST - 1) * DRAIN
    {
      if source !in sources {
        return 0;
      }
      var over := Drained(sources[source], now) - (BURST - 1) * DRAIN;
      if over <= 0 {
        return 0;
      }
      d := over;
    }

    method SourceFailed(source: string, now: Time)
      requires Valid()
      modifies `sources
      ensures Valid()
      ensures SourcesFailed(old(sources), sources, source, now)
    {
      var b := Budget(0, 0);
      if source !in sources {
        if |sources| >= MAX_SOURCES {
          EvictSource(now);
        }
      } else {
        b := sources[source];
      }
      ghost var room := sources;
      assert SourcesRoom(old(sources), room, source, now);
      sources := sources[source := Budget(Drained(b, now) + DRAIN, now)];
      assert sources == room[source := Budget(Level(old(sources), source, now) + DRAIN, now)];
      PutGrows(room, source, sources[source]);
    }

    method EvictSource(now: Time)
      requires |sources| <= MAX_SOURCES
      modifies `sources
      ensures SourcesEvicted(old(sources), sources, now)
      ensures |sources| < MAX_SOURCES
    {
      ghost var before := sources;
      var least, leastLevel, found := "", 0, false;
      var todo := sources.Keys;
      while todo != {}
        invariant todo <= before.Keys
        invariant sources == map s | s in before && (s in todo || Drained(before[s], now) != 0) :: before[s]
        invariant found ==> least in before && least !in todo && leastLevel != 0
        invariant found ==> leastLevel == Drained(before[least], now)
        invariant forall s | s in before && s !in todo && Drained(before[s], now) != 0 ::
                    found && leastLevel <= Drained(before[s], now)
      {
        var source :| source in todo;
        todo := todo - {source};
        var level := Drained(sources[source], now);
        if level == 0 {
          sources := sources - {source};
        } else if !found || level < leastLevel {
          least, leastLevel, found := source, level, true;
        }
      }
      ghost var live := LiveSources(before, now);
      assert sources == live;
      SubmapNoLarger(live, before);
      assert |live| >= MAX_SOURCES ==> found by {
        if |live| >= MAX_SOURCES {
          assert live.Keys != {};
          var k :| k in live;
        }
      }
      if |sources| >= MAX_SOURCES && found {
        assert Least(live, least, now);
        RemovalShrinks(sources, least);
        sources := sources - {least};
      }
    }

    /** loginThrottled: the source's budget first, then the name's window. */
    method Throttled(source: string, key: string, now: Time) returns (wait: nat)
      ensures wait == if SourceWaitOf(sources, source, now) > 0 then SourceWaitOf(sources, source, now) else WaitOf(names, key, now)
      ensures wait == 0 <==> Level(sources, source, now) <= 870_000_000_000 && (key in names ==> names[key].until <= now)
    {
      wait := SourceWait(source, now);
      if wait == 0 {
        wait := Wait(key, now);
      }
    }

    /** loginFailed: both are charged, at one reading of the clock. */
    method ChargeBoth(source: string, key: string, now: Time)
      requires Valid()
      modifies `names, `sources
      ensures Valid() && NamesFailed(old(names), names, key, now) && SourcesFailed(old(sources), sources, source, now)
    {
      Failed(key, now);
      SourceFailed(source, now);
    }
  }

  /** Retry-After: the whole seconds that cover a wait, and no more. */
  function RetryAfter(wait: nat): (seconds: nat)
    ensures wait <= 1_000_000_000 * seconds && (seconds > 0 ==> 1_000_000_000 * (seconds - 1) < wait)
  {
    var whole := wait / SECOND;
    if wait > whole * SECOND then whole + 1 else whole
  }

  // ---- Map sizes -------------------------------------------------------

  lemma {:induction false} SubsetNoLarger<T>(a: set<T>, b: set<T>)
    requires a <= b
    ensures |a| <= |b|
  {
    assert b == a + (b - a);
  }

  lemma {:induction false} SubmapNoLarger<V>(a: map<string, V>, b: map<string, V>)
    requires a.Keys <= b.Keys
    ensures |a| <= |b|
  {
    SubsetNoLarger(a.Keys, b.Keys);
  }

  lemma {:induction false} PutGrows<V>(m: map<string, V>, k: string, v: V)
    ensures |m[k := v]| == if k in m then |m| else |m| + 1
  {
    assert m[k := v].Keys == m.Keys + {k};
  }

  lemma {:induction false} RemovalShrinks<V>(m: map<string, V>, k: string)
    ensures |m - {k}| == if k in m then |m| - 1 else |m|
  {
    assert (m - {k}).Keys == m.Keys - {k};
  }
}
