/**
  What decides whether an attempt is throttled (internal/api/auth.go,
  loginThrottled): its own source's history and nothing else, whatever other
  sources do and whatever the tables evict on their account.
*/
module LoginIsolation {
  import opened LoginTables
  import opened Texts
  import NameRuns = LoginNameRuns
  import SourceRuns = LoginSourceRuns

  datatype Attempt = Attempt(via: string, source: string, name: string)

  const NUL: char := '\0'

  function LoginKey(a: Attempt): string {
    a.via + ":" + a.source + [NUL] + a.name
  }

  /** What every caller passes: `local` or `ldap`, and a printed address. */
  predicate WellFormed(a: Attempt) {
    ':' !in a.via && NUL !in a.via && NUL !in a.source
  }

  lemma {:induction false} KeyIsUnambiguous(a: Attempt, b: Attempt)
    requires WellFormed(a) && WellFormed(b)
    ensures LoginKey(a) == LoginKey(b) <==> a == b
  {
    if LoginKey(a) == LoginKey(b) {
      SplitAtMark(a.via + ":" + a.source, a.name, b.via + ":" + b.source, b.name, NUL);
      SplitAtMark(a.via, a.source, b.via, b.source, ':');
    }
  }

  ghost predicate UnambiguousFor(vias: set<string>) {
    forall a: Attempt, b: Attempt {:trigger LoginKey(a), LoginKey(b)} |
      a.via in vias && b.via in vias && NUL !in a.source && NUL !in b.source && LoginKey(a) == LoginKey(b) :: a == b
  }

  predicate NoneExtendsAnother(vias: set<string>) {
    forall m, n | m in vias && n in vias :: !(m + ":" <= n)
  }

  lemma {:induction false} HeadsAgree(m: string, s: string, n: string, t: string)
    requires m + ":" + s == n + ":" + t
    ensures (m == n && s == t) || m + ":" <= n || n + ":" <= m
  {
    var x := m + ":" + s;
    if |m| < |n| {
      assert m + ":" == x[..|m| + 1] == n[..|m| + 1];
    } else if |n| < |m| {
      assert n + ":" == x[..|n| + 1] == m[..|n| + 1];
    } else {
      assert m == x[..|m|] == n;
      assert s == x[|m| + 1..] == t;
    }
  }

  /** Exactly when a set of methods gives every attempt a key of its own. */
  lemma {:induction false} KeysUnambiguousIff(vias: set<string>)
    requires forall m | m in vias :: NUL !in m
    ensures UnambiguousFor(vias) <==> NoneExtendsAnother(vias)
  {
    if NoneExtendsAnother(vias) {
      forall a: Attempt, b: Attempt |
        a.via in vias && b.via in vias && NUL !in a.source && NUL !in b.source && LoginKey(a) == LoginKey(b)
        ensures a == b
      {
        var x, y := a.via + ":" + a.source, b.via + ":" + b.source;
        SplitAtMark(x, a.name, y, b.name, NUL);
        HeadsAgree(a.via, a.source, b.via, b.source);
      }
    } else {
      var m, n :| m in vias && n in vias && m + ":" <= n;
      var rest := n[|m| + 1..];
      var a, b := Attempt(n, "", ""), Attempt(m, rest + ":", "");
      assert n == m + ":" + rest;
      assert a.via + ":" + a.source == b.via + ":" + b.source;
      assert LoginKey(a) == LoginKey(b) && a != b;
    }
  }

  /** The two methods in use meet it. */
  lemma {:induction false} MethodsInUseAreUnambiguous()
    ensures UnambiguousFor({"local", "ldap"})
  {
    var vias := {"local", "ldap"};
    forall m, n | m in vias && n in vias
      ensures !(m + ":" <= n)
    {
      assert (m + ":")[|m|] == ':';
      assert ':' !in "local" && ':' !in "ldap";
    }
    KeysUnambiguousIff(vias);
  }

  // ---- The service's run -------------------------------------------------

  datatype Event =
    | NameFailed(who: Attempt, at: Time)
    | SourceFailed(who: Attempt, at: Time)
    | Succeeded(who: Attempt, at: Time)

  function NameEvents(events: seq<Event>): seq<NameRuns.Event> {
    if events == [] then []
    else
      var last := events[|events| - 1];
      NameEvents(events[..|events| - 1]) +
      match last
      case NameFailed(a, at) => [NameRuns.Fail(LoginKey(a), at)]
      case Succeeded(a, at) => [NameRuns.Clear(LoginKey(a), at)]
      case SourceFailed(_, _) => []
  }

  function SourceEvents(events: seq<Event>): seq<SourceRuns.Event> {
    if events == [] then []
    else
      var last := events[|events| - 1];
      SourceEvents(events[..|events| - 1]) +
      if last.SourceFailed? then [SourceRuns.Charge(last.who.source, last.at)] else []
  }

  predicate Throttled(names: Names, sources: Sources, a: Attempt, now: Time) {
    SourceWaitOf(sources, a.source, now) > 0 || WaitOf(names, LoginKey(a), now) > 0
  }

  function FromSource(events: seq<Event>, source: string): seq<Event> {
    if events == [] then []
    else
      var last := events[|events| - 1];
      FromSource(events[..|events| - 1], source) + if last.who.source == source then [last] else []
  }

  ghost predicate AllWellFormed(events: seq<Event>) {
    forall i | 0 <= i < |events| :: WellFormed(events[i].who)
  }

  lemma {:induction false} OwnNameEvents(events: seq<Event>, a: Attempt)
    requires AllWellFormed(events) && WellFormed(a)
    ensures NameRuns.Own(NameEvents(events), LoginKey(a)) ==
            NameRuns.Own(NameEvents(FromSource(events, a.source)), LoginKey(a))
  {
    if events != [] {
      var n := |events| - 1;
      var was, own := events[..n], FromSource(events[..n], a.source);
      OwnNameEvents(was, a);
      KeyIsUnambiguous(events[n].who, a);
      NameEventsSnoc(was, events[n], LoginKey(a));
      assert was + [events[n]] == events;
      if events[n].who.source == a.source {
        NameEventsSnoc(own, events[n], LoginKey(a));
      } else {
        assert own + [] == own;
      }
    }
  }

  lemma {:induction false} NameEventsSnoc(events: seq<Event>, e: Event, key: string)
    ensures NameRuns.Own(NameEvents(events + [e]), key) ==
            NameRuns.Own(NameEvents(events), key) +
            if e.SourceFailed? || LoginKey(e.who) != key then []
            else [if e.NameFailed? then NameRuns.Fail(key, e.at) else NameRuns.Clear(key, e.at)]
  {
    var all, was := NameEvents(events + [e]), NameEvents(events);
    assert (events + [e])[..|events|] == events;
    if e.SourceFailed? {
      assert all == was;
    } else {
      assert all[..|was|] == was;
    }
  }

  lemma {:induction false} OwnSourceEvents(events: seq<Event>, source: string)
    ensures SourceRuns.Own(SourceEvents(events), source) ==
            SourceRuns.Own(SourceEvents(FromSource(events, source)), source)
  {
    if events != [] {
      var n := |events| - 1;
      var was, own := events[..n], FromSource(events[..n], source);
      OwnSourceEvents(was, source);
      SourceEventsSnoc(was, events[n], source);
      assert was + [events[n]] == events;
      if events[n].who.source == source {
        SourceEventsSnoc(own, events[n], source);
      } else {
        assert own + [] == own;
      }
    }
  }

  lemma {:induction false} SourceEventsSnoc(events: seq<Event>, e: Event, source: string)
    ensures SourceRuns.Own(SourceEvents(events + [e]), source) ==
            SourceRuns.Own(SourceEvents(events), source) +
            if e.SourceFailed? && e.who.source == source then [SourceRuns.Charge(source, e.at)] else []
  {
    var all, was := SourceEvents(events + [e]), SourceEvents(events);
    assert (events + [e])[..|events|] == events;
    if e.SourceFailed? {
      assert all[..|was|] == was;
    } else {
      assert all == was;
    }
  }

  /** An attempt throttled in the full, evicting service would be throttled by its
      own source's history alone, in a service that never evicts. */
  lemma {:induction false} ThrottledOnlyByOwnSource(
    names: seq<Names>, sources: seq<Sources>, events: seq<Event>, a: Attempt, now: Time)
    requires AllWellFormed(events) && WellFormed(a)
    requires NameRuns.Run(names, NameEvents(events))
    requires SourceRuns.Run(sources, SourceEvents(events))
    requires SourceRuns.Ordered(SourceEvents(events)) && SourceRuns.After(SourceEvents(events), now)
    requires Throttled(names[|names| - 1], sources[|sources| - 1], a, now)
    ensures var own := FromSource(events, a.source);
            Throttled(NameRuns.Unbounded(NameEvents(own)), SourceRuns.Unbounded(SourceEvents(own)), a, now)
  {
    var own := FromSource(events, a.source);
    var key := LoginKey(a);
    NameRuns.WaitNeverLonger(names, NameEvents(events), key, now);
    NameRuns.OwnHistoryDecides(NameEvents(events), key);
    NameRuns.OwnHistoryDecides(NameEvents(own), key);
    OwnNameEvents(events, a);
    SourceRuns.SourceWaitNeverLonger(sources, SourceEvents(events), a.source, now);
    SourceRuns.OwnHistoryDecides(SourceEvents(events), a.source);
    SourceRuns.OwnHistoryDecides(SourceEvents(own), a.source);
    OwnSourceEvents(events, a.source);
    SameEntrySameWait(NameRuns.Unbounded(NameEvents(events)), NameRuns.Unbounded(NameEvents(own)), key, now);
    SameEntrySameLevel(SourceRuns.Unbounded(SourceEvents(events)), SourceRuns.Unbounded(SourceEvents(own)), a.source, now);
  }

  lemma {:induction false} SameEntrySameWait(x: Names, y: Names, key: string, now: Time)
    requires Get(x, key) == Get(y, key)
    ensures WaitOf(x, key, now) == WaitOf(y, key, now)
  {
  }

  lemma {:induction false} SameEntrySameLevel(x: Sources, y: Sources, source: string, now: Time)
    requires Get(x, source) == Get(y, source)
    ensures SourceWaitOf(x, source, now) == SourceWaitOf(y, source, now)
  {
  }
}
