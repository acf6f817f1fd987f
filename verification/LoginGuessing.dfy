/**
  How fast one name can be guessed at from one source (internal/api/loginlimit.go,
  driven by internal/api/auth.go). An attempt is checked, verified with no lock held,
  and only then charged, so several attempts at one name may be between their check
  and their charge at once; `k` is how many at most.
*/
module LoginGuessing {
  import opened Basics
  import opened LoginTables
  import opened LoginNameRuns

  /** What happens to the attempts at one key. */
  datatype Attempt =
    | Open(at: Time)    // let through by the check
    | Charge(at: Time)  // failed
    | Drop(at: Time)    // ended otherwise

  /** The entry of a key never cleared, and evicted only when stale. */
  function Entry(es: seq<Attempt>): Option<Backoff> {
    if es == [] then None
    else
      var was, e := Entry(es[..|es| - 1]), es[|es| - 1];
      if e.Charge? then Some(Charged(was, e.at)) else was
  }

  /** How many attempts are between their check and their end. */
  function Opened(es: seq<Attempt>): int {
    if es == [] then 0 else Opened(es[..|es| - 1]) + if es[|es| - 1].Open? then 1 else -1
  }

  function ChargeTimes(es: seq<Attempt>): seq<Time> {
    if es == [] then []
    else ChargeTimes(es[..|es| - 1]) + if es[|es| - 1].Charge? then [es[|es| - 1].at] else []
  }

  function Charges(es: seq<Attempt>): nat {
    |ChargeTimes(es)|
  }

  predicate LetsThrough(entry: Option<Backoff>, now: Time) {
    entry.Some? ==> entry.value.until <= now
  }

  /** A history of attempts on a clock that does not go back, at most k of them open at
      once, each opened outside the window. */
  ghost predicate Guesses(es: seq<Attempt>, k: nat) {
    es == [] || (Guesses(es[..|es| - 1], k) && LastFits(es, k))
  }

  predicate LastFits(es: seq<Attempt>, k: nat)
    requires es != []
  {
    var n := |es| - 1;
    && (n > 0 ==> es[n - 1].at <= es[n].at)
    && 0 <= Opened(es) <= k
    && (es[n].Open? ==> LetsThrough(Entry(es[..n]), es[n].at))
  }

  /** No failure came so late that the count started again. */
  ghost predicate NoReset(es: seq<Attempt>) {
    es == [] ||
    var n := |es| - 1;
    && NoReset(es[..n])
    && (es[n].Charge? && Entry(es[..n]).Some? ==> !Stale(Entry(es[..n]).value, es[n].at))
  }

  // ---- Along a history --------------------------------------------------------------

  /** What the entry says of the charges so far. */
  lemma {:induction false} EntryShape(es: seq<Attempt>, k: nat)
    requires Guesses(es, k)
    ensures Entry(es).Some? <==> Charges(es) > 0
    ensures Charges(es) > 0 ==>
              var ts, b := ChargeTimes(es), Entry(es).value;
              && 1 <= b.failures && b.until == ts[|ts| - 1] + Window(b.failures)
              && ts[0] <= ts[|ts| - 1] <= es[|es| - 1].at
    ensures NoReset(es) && Charges(es) > 0 ==> Entry(es).value.failures == Charges(es)
  {
    if es != [] {
      EntryShape(es[..|es| - 1], k);
    }
  }

  lemma {:induction false} PrefixGuesses(es: seq<Attempt>, k: nat, p: nat)
    requires Guesses(es, k) && p <= |es|
    ensures Guesses(es[..p], k) && (NoReset(es) ==> NoReset(es[..p]))
    ensures Charges(es[..p]) <= Charges(es) && ChargeTimes(es[..p]) == ChargeTimes(es)[..Charges(es[..p])]
    ensures 0 < p ==> es[p - 1].at <= es[|es| - 1].at
  {
    var n := |es| - 1;
    if p == |es| {
      assert es[..p] == es;
    } else {
      PrefixGuesses(es[..n], k, p);
      assert es[..n][..p] == es[..p];
    }
  }

  /** From a charge on, the window's end only moves on, and the count goes up by one with
      each charge, unless a whole maximum window has passed as well. */
  lemma {:induction false} EntryGrows(es: seq<Attempt>, k: nat, p: nat)
    requires Guesses(es, k) && p <= |es| && Charges(es[..p]) > 0
    ensures Charges(es) >= Charges(es[..p]) && Entry(es).Some? && Entry(es[..p]).Some?
    ensures Entry(es).value.until >= Entry(es[..p]).value.until
    ensures var was, more := Entry(es[..p]).value, Charges(es) - Charges(es[..p]);
            || Entry(es).value.failures >= was.failures + more
            || es[|es| - 1].at >= was.until + BACKOFF_MAX
  {
    var n := |es| - 1;
    EntryShape(es[..p], k) by { PrefixGuesses(es, k, p); }
    if p == |es| {
      assert es[..p] == es;
    } else {
      assert es[..n][..p] == es[..p];
      EntryGrows(es[..n], k, p);
      EntryShape(es[..n], k);
      if es[n].Charge? {
        var ts := ChargeTimes(es[..n]);
        ChargedGrows(Entry(es[..n]).value, ts[|ts| - 1], es[n].at);
      }
    }
  }

  lemma {:induction false} ChargedGrows(b: Backoff, last: Time, t: Time)
    requires b.failures >= 1 && b.until == last + Window(b.failures) && last <= t
    ensures var c := Charged(Some(b), t);
            c.until >= b.until && (c.failures == b.failures + 1 || t >= b.until + BACKOFF_MAX)
  {
    WindowGrows(b.failures, b.failures + 1);
  }

  /** After a point, either a window that began before it has ended, or every charge is of
      an attempt that was open there. */
  lemma {:induction false} OpenOrPassed(es: seq<Attempt>, k: nat, p: nat)
    requires Guesses(es, k) && p <= |es| && Charges(es[..p]) > 0
    ensures Charges(es) >= Charges(es[..p]) && Entry(es[..p]).Some?
    ensures || Opened(es) <= Opened(es[..p]) - (Charges(es) - Charges(es[..p]))
            || es[|es| - 1].at >= Entry(es[..p]).value.until
  {
    var n := |es| - 1;
    EntryShape(es[..p], k) by { PrefixGuesses(es, k, p); }
    if p == |es| {
      assert es[..p] == es;
    } else {
      assert es[..n][..p] == es[..p];
      OpenOrPassed(es[..n], k, p);
      EntryGrows(es[..n], k, p);
    }
  }

  /** The history up to its m-th charge. */
  lemma {:induction false} CutAtCharge(es: seq<Attempt>, m: nat) returns (p: nat)
    requires 1 <= m <= Charges(es)
    ensures 0 < p <= |es| && es[p - 1].Charge? && Charges(es[..p]) == m
  {
    var n := |es| - 1;
    if es[n].Charge? && Charges(es) == m {
      p := |es|;
      assert es[..p] == es;
    } else {
      p := CutAtCharge(es[..n], m);
      assert es[..n][..p] == es[..p];
    }
  }

  /** k charges after a charge, its window has passed: at most k - 1 others were open. */
  lemma {:induction false} KLater(es: seq<Attempt>, k: nat, p: nat)
    requires Guesses(es, k) && 0 < p <= |es| && es[p - 1].Charge? && Charges(es) == Charges(es[..p]) + k && k >= 1
    ensures Entry(es[..p]).Some? && Entry(es).Some?
    ensures var was, now := Entry(es[..p]).value, es[|es| - 1].at;
            && now >= was.until
            && (Entry(es).value.failures >= was.failures + k || now >= was.until + BACKOFF_MAX)
  {
    PrefixGuesses(es, k, p);
    PrefixGuesses(es, k, p - 1);
    assert es[..p][..p - 1] == es[..p - 1];
    OpenOrPassed(es, k, p);
    EntryGrows(es, k, p);
    assert Opened(es[..p - 1]) <= k by { OpenedWithin(es[..p - 1], k); }
    OpenedWithin(es, k);
  }

  lemma {:induction false} OpenedWithin(es: seq<Attempt>, k: nat)
    requires Guesses(es, k)
    ensures 0 <= Opened(es) <= k
  {
  }

  // ---- Without a reset -----------------------------------------------------------------

  /** The least time n failures take with k attempts open at once. */
  function Span(n: nat, k: nat): nat
    requires k >= 1
  {
    if n <= k then 0 else Span(n - k, k) + Window(n - k)
  }

  /** The k-th charge before the last, and what its window makes of the time between. */
  lemma {:induction false} OneRound(es: seq<Attempt>, k: nat) returns (p: nat)
    requires k >= 1 && Guesses(es, k) && es != [] && es[|es| - 1].Charge? && Charges(es) > k
    ensures 0 < p < |es| && es[p - 1].Charge? && Charges(es[..p]) == Charges(es) - k
    ensures Guesses(es[..p], k) && (NoReset(es) ==> NoReset(es[..p]))
    ensures ChargeTimes(es[..p])[0] == ChargeTimes(es)[0]
    ensures Entry(es[..p]).Some? && Entry(es).Some? && Entry(es[..p]).value.failures >= 1
    ensures var f, now := Entry(es[..p]).value.failures, es[|es| - 1].at;
            && now >= es[p - 1].at + Window(f)
            && (Entry(es).value.failures >= f + k || now >= es[p - 1].at + Window(f) + BACKOFF_MAX)
            && (NoReset(es) ==> f == Charges(es) - k)
  {
    p := CutAtCharge(es, Charges(es) - k);
    assert es[..|es|] == es;
    PrefixGuesses(es, k, p);
    KLater(es, k, p);
    EntryShape(es[..p], k);
    LastChargeIs(es[..p]);
  }

  /** A history that ends with a charge takes as long as its charges do. */
  lemma {:induction false} SlowUpTo(es: seq<Attempt>, k: nat)
    requires k >= 1 && Guesses(es, k) && NoReset(es) && es != [] && es[|es| - 1].Charge?
    ensures Charges(es) > 0 && es[|es| - 1].at - ChargeTimes(es)[0] >= Span(Charges(es), k)
    decreases Charges(es)
  {
    LastChargeIs(es);
    if Charges(es) > k {
      var p := OneRound(es, k);
      SlowUpTo(es[..p], k);
    } else {
      EntryShape(es, k);
    }
  }

  /** With at most k attempts between check and charge and no reset, n failures take at
      least that long. */
  lemma {:induction false} GuessingIsSlow(es: seq<Attempt>, k: nat)
    requires k >= 1 && Guesses(es, k) && NoReset(es) && Charges(es) > 0
    ensures var ts := ChargeTimes(es); ts[|ts| - 1] - ts[0] >= Span(|ts|, k)
  {
    var q := CutAtCharge(es, Charges(es));
    PrefixGuesses(es, k, q);
    SlowUpTo(es[..q], k);
    LastChargeIs(es[..q]);
  }

  lemma {:induction false} LastChargeIs(es: seq<Attempt>)
    requires es != [] && es[|es| - 1].Charge?
    ensures Charges(es) > 0 && ChargeTimes(es)[Charges(es) - 1] == es[|es| - 1].at
  {
  }

  // ---- Histories, built step by step ------------------------------------------------------

  lemma {:induction false} AddOne(es: seq<Attempt>, k: nat, e: Attempt)
    requires Guesses(es, k) && (es != [] ==> es[|es| - 1].at <= e.at)
    requires if e.Open? then Opened(es) < k && LetsThrough(Entry(es), e.at) else Opened(es) > 0
    ensures var fs := es + [e];
            && Guesses(fs, k) && Opened(fs) == Opened(es) + (if e.Open? then 1 else -1)
            && Entry(fs) == (if e.Charge? then Some(Charged(Entry(es), e.at)) else Entry(es))
            && ChargeTimes(fs) == ChargeTimes(es) + (if e.Charge? then [e.at] else [])
            && (NoReset(fs) <==> NoReset(es) && (e.Charge? && Entry(es).Some? ==> !Stale(Entry(es).value, e.at)))
  {
    assert (es + [e])[..|es|] == es;
    OpenedWithin(es, k);
  }

  /** m attempts opened at t. */
  lemma {:induction false} AddOpens(es: seq<Attempt>, k: nat, m: nat, t: Time) returns (fs: seq<Attempt>)
    requires Guesses(es, k) && (es != [] ==> es[|es| - 1].at <= t) && Opened(es) + m <= k && LetsThrough(Entry(es), t)
    ensures Guesses(fs, k) && (fs != [] ==> fs[|fs| - 1].at <= t) && Opened(fs) == Opened(es) + m
    ensures Entry(fs) == Entry(es) && ChargeTimes(fs) == ChargeTimes(es) && (NoReset(es) ==> NoReset(fs))
    decreases m
  {
    fs := es;
    if m > 0 {
      AddOne(es, k, Open(t));
      fs := AddOpens(es + [Open(t)], k, m - 1, t);
    }
  }

  /** m attempts charged at t, not so late that the count starts again. */
  lemma {:induction false} AddCharges(es: seq<Attempt>, k: nat, m: nat, t: Time) returns (fs: seq<Attempt>)
    requires Guesses(es, k) && NoReset(es) && (es != [] ==> es[|es| - 1].at <= t) && 1 <= m <= Opened(es)
    requires Entry(es).Some? ==> !Stale(Entry(es).value, t)
    ensures Guesses(fs, k) && NoReset(fs) && fs != [] && fs[|fs| - 1].at == t && Opened(fs) == Opened(es) - m
    ensures Charges(fs) == Charges(es) + m && ChargeTimes(fs)[Charges(fs) - 1] == t
    ensures ChargeTimes(fs)[0] == if Charges(es) > 0 then ChargeTimes(es)[0] else t
    decreases m
  {
    AddOne(es, k, Charge(t));
    fs := es + [Charge(t)];
    if m > 1 {
      fs := AddCharges(fs, k, m - 1, t);
    }
  }

  /** And that long is enough: k attempts opened and charged as soon as each window ends. */
  lemma {:induction false} SpanIsMet(n: nat, k: nat) returns (es: seq<Attempt>)
    requires n >= 1 && k >= 1
    ensures Guesses(es, k) && NoReset(es) && Opened(es) == 0 && Charges(es) == n
    ensures ChargeTimes(es)[0] == 0 && ChargeTimes(es)[n - 1] == es[|es| - 1].at == Span(n, k)
    decreases n
  {
    var t, m := 0, n;
    es := [];
    if n > k {
      es := SpanIsMet(n - k, k);
      EntryShape(es, k);
      t, m := Span(n, k), k;
    }
    es := AddOpens(es, k, m, t);
    es := AddCharges(es, k, m, t);
  }

  /** Two attempts let through together are two guesses in no time, where one at a time
      they take a second. */
  lemma {:induction false} OverlapIsFaster() returns (es: seq<Attempt>)
    ensures Guesses(es, 2) && NoReset(es) && ChargeTimes(es) == [0, 0] && Span(2, 1) == SECOND
  {
    es := SpanIsMet(2, 2);
    assert ChargeTimes(es) == [ChargeTimes(es)[0], ChargeTimes(es)[1]];
    SmallPowers();
    assert Span(1, 1) == 0;
  }

  /** Whatever n failures are let through with k open at once, and no reset, take as long as
      one at a time. */
  ghost predicate NoFasterThanOne(n: nat, k: nat)
    requires n >= 1
  {
    forall es | Guesses(es, k) && NoReset(es) && Charges(es) == n ::
      ChargeTimes(es)[n - 1] - ChargeTimes(es)[0] >= Span(n, 1)
  }

  /** Exactly when attempts cannot overlap, or there is only one. */
  lemma {:induction false} NoFasterThanOneIff(n: nat, k: nat)
    requires n >= 1 && k >= 1
    ensures NoFasterThanOne(n, k) <==> n == 1 || k == 1
  {
    if n == 1 || k == 1 {
      forall es | Guesses(es, k) && NoReset(es) && Charges(es) == n
        ensures ChargeTimes(es)[n - 1] - ChargeTimes(es)[0] >= Span(n, 1)
      {
        GuessingIsSlow(es, k);
      }
    } else {
      var es := SpanIsMet(n, k);
      SpanSmaller(n, k);
    }
  }

  lemma {:induction false} SpanSmaller(n: nat, k: nat)
    requires n >= 1 && k >= 2
    ensures Span(n, k) <= Span(n, 1) && (n >= 2 ==> Span(n, k) < Span(n, 1))
    decreases n
  {
    if n > k {
      SpanSmaller(n - k, k);
      SpanIncreases(n - k + 1, n);
    } else if n >= 2 {
      SpanIncreases(1, n);
    }
  }

  lemma {:induction false} SpanIncreases(m: nat, n: nat)
    requires 1 <= m < n
    ensures Span(m, 1) < Span(n, 1)
    decreases n
  {
    if m < n - 1 {
      SpanIncreases(m, n - 1);
    }
  }

  // ---- With resets --------------------------------------------------------------------------

  lemma {:induction false} SmallPowers()
    ensures Pow2(0) == 1 && Pow2(1) == 2 && Pow2(2) == 4 && Pow2(3) == 8 && Pow2(4) == 16 && Pow2(5) == 32
    ensures Pow2(6) == 64 && Pow2(7) == 128 && Pow2(8) == 256 && Pow2(9) == 512 && Pow2(10) == 1024
  {
  }

  /** One attempt at a time: 2^(n-1) - 1 seconds up to the eleventh, and nine hundred more
      for each after it. */
  lemma {:induction false} SpanOneAtATime(n: nat)
    requires n >= 1
    ensures Span(n, 1) == if n <= 11 then SECOND * (Pow2(n - 1) - 1) else 1023 * SECOND + BACKOFF_MAX * (n - 11)
  {
    SmallPowers();
    if n > 1 {
      SpanOneAtATime(n - 1);
    }
  }

  /** A reset costs a whole maximum window. */
  lemma {:induction false} ResetCosts(es: seq<Attempt>, k: nat)
    requires Guesses(es, k) && !NoReset(es)
    ensures Charges(es) > 0 && ChargeTimes(es)[Charges(es) - 1] - ChargeTimes(es)[0] >= BACKOFF_MAX
  {
    var n := |es| - 1;
    EntryShape(es, k);
    EntryShape(es[..n], k);
    if !NoReset(es[..n]) {
      ResetCosts(es[..n], k);
    }
  }

  /** So while the least time is no more than that, no reset beats it. */
  lemma {:induction false} FewAreSlow(es: seq<Attempt>, k: nat)
    requires k >= 1 && Guesses(es, k) && Charges(es) > 0 && Span(Charges(es), k) <= BACKOFF_MAX
    ensures var ts := ChargeTimes(es); ts[|ts| - 1] - ts[0] >= Span(|ts|, k)
  {
    if NoReset(es) {
      GuessingIsSlow(es, k);
    } else {
      ResetCosts(es, k);
    }
  }

  /** Whatever n failures are let through one at a time take at least the sum of the first
      n - 1 windows. */
  ghost predicate NeverFaster(n: nat)
    requires n >= 1
  {
    forall es | Guesses(es, 1) && Charges(es) == n :: ChargeTimes(es)[n - 1] - ChargeTimes(es)[0] >= Span(n, 1)
  }

  /** That holds up to ten failures and for no more: from the eleventh on, waiting once
      for the count to start again is faster. */
  lemma {:induction false} NeverFasterIff(n: nat)
    requires n >= 1
    ensures NeverFaster(n) <==> n <= 10
  {
    SpanOneAtATime(n);
    if n <= 10 {
      SmallPowers();
      Pow2Grows(n - 1, 9);
      forall es | Guesses(es, 1) && Charges(es) == n
        ensures ChargeTimes(es)[n - 1] - ChargeTimes(es)[0] >= Span(n, 1)
      {
        FewAreSlow(es, 1);
      }
    } else {
      var es := ResetsAreFaster(n);
      assert Guesses(es, 1);
    }
  }

  /** One at a time, five failures as early as they may come, a wait just long enough for
      the count to start again, and then as early as they may come. */
  function ResetTime(i: nat): Time {
    if i < 5 then Span(i + 1, 1) else 931 * SECOND + Span(i - 4, 1)
  }

  function ResetCount(i: nat): nat {
    if i <= 5 then i else i - 5
  }

  lemma {:induction false} ResetGap(i: nat)
    requires i > 0
    ensures var b := Backoff(ResetCount(i), ResetTime(i - 1) + Window(ResetCount(i)));
            ResetTime(i - 1) <= b.until <= ResetTime(i) && (Stale(b, ResetTime(i)) <==> i == 5)
  {
    if i == 5 {
      SmallPowers();
      SpanOneAtATime(5);
    }
  }

  lemma {:induction false} ResetRun(n: nat) returns (es: seq<Attempt>)
    requires n >= 1
    ensures Guesses(es, 1) && Opened(es) == 0 && es != [] && es[|es| - 1].at == ResetTime(n - 1)
    ensures Entry(es) == Some(Backoff(ResetCount(n), ResetTime(n - 1) + Window(ResetCount(n))))
    ensures Charges(es) == n && ChargeTimes(es)[0] == 0 && ChargeTimes(es)[n - 1] == ResetTime(n - 1)
  {
    es := [];
    if n > 1 {
      es := ResetRun(n - 1);
      ResetGap(n - 1);
      ResetCharge(n - 1);
    }
    es := AddPair(es, ResetTime(n - 1));
  }

  lemma {:induction false} ResetCharge(i: nat)
    requires i > 0
    ensures Charged(Some(Backoff(ResetCount(i), ResetTime(i - 1) + Window(ResetCount(i)))), ResetTime(i)) ==
            Backoff(ResetCount(i + 1), ResetTime(i) + Window(ResetCount(i + 1)))
  {
    ResetGap(i);
  }

  /** One attempt, opened and charged at t. */
  lemma {:induction false} AddPair(es: seq<Attempt>, t: Time) returns (fs: seq<Attempt>)
    requires Guesses(es, 1) && Opened(es) == 0 && (es != [] ==> es[|es| - 1].at <= t) && LetsThrough(Entry(es), t)
    ensures Guesses(fs, 1) && Opened(fs) == 0 && fs != [] && fs[|fs| - 1].at == t
    ensures Entry(fs) == Some(Charged(Entry(es), t)) && ChargeTimes(fs) == ChargeTimes(es) + [t]
  {
    AddOne(es, 1, Open(t));
    AddOne(es + [Open(t)], 1, Charge(t));
    fs := es + [Open(t)] + [Charge(t)];
  }

  /** With a reset the claim fails, for eleven failures (962 seconds) and for every number
      after. */
  lemma {:induction false} ResetsAreFaster(n: nat) returns (es: seq<Attempt>)
    requires n >= 11
    ensures Guesses(es, 1) && Charges(es) == n && ChargeTimes(es)[0] == 0
    ensures ChargeTimes(es)[n - 1] == 931 * SECOND + Span(n - 5, 1) < Span(n, 1)
  {
    es := ResetRun(n);
    SmallPowers();
    SpanOneAtATime(n);
    SpanOneAtATime(n - 5);
    if n <= 16 {
      Pow2Grows(n - 6, 10);
    }
  }

  // ---- The rate -------------------------------------------------------------------------------

  /** How far a chain of failures is ahead of one every 144 seconds. */
  function Ahead(failures: nat): int
    requires failures >= 1
  {
    Span(failures, 1) - 144 * SECOND * (failures - 1)
  }

  lemma {:induction false} AheadBounds(failures: nat)
    requires failures >= 1
    ensures Ahead(failures) >= -897 * SECOND
  {
    SpanOneAtATime(failures);
    SmallPowers();
  }

  /** How many times k failures fit between the first and the n-th. */
  function Rounds(n: nat, k: nat): nat
    requires k >= 1
  {
    if n <= k then 0 else Rounds(n - k, k) + 1
  }

  lemma {:induction false} RoundsAre(n: nat, k: nat)
    requires n >= 1 && k >= 1
    ensures k * Rounds(n, k) <= n - 1 < k * Rounds(n, k) + k
  {
    if n > k {
      RoundsAre(n - k, k);
    }
  }

  /** One round more is paid for by the window before it, or by the quiet a reset costs. */
  lemma {:induction false} RateStep(h: nat, f: nat, took: int, reset: bool)
    requires 1 <= h <= f && took >= Window(f) + if reset then BACKOFF_MAX else 0
    ensures took + Ahead(h) >= 144 * SECOND + Ahead(if reset then 1 else h + 1)
  {
    WindowGrows(h, f);
    AheadBounds(h + 1);
    AheadStep(h);
  }

  lemma {:induction false} AheadStep(h: nat)
    requires h >= 1
    ensures Ahead(h + 1) == Ahead(h) + Window(h) - 144 * SECOND && Ahead(1) == 0
  {
  }

  lemma {:induction false} RateRound(first: Time, was: Time, now: Time, f: nat, f': nat, k: nat, rounds: nat, h: nat) returns (h': nat)
    requires k >= 1 && 1 <= h <= f && f' >= 1 && was - first >= 144 * SECOND * rounds + Ahead(h)
    requires now >= was + Window(f) && (f' >= f + k || now >= was + Window(f) + BACKOFF_MAX)
    ensures 1 <= h' <= f' && now - first >= 144 * SECOND * (rounds + 1) + Ahead(h')
  {
    var reset := f' < f + k;
    h' := if reset then 1 else h + 1;
    RateStep(h, f, now - was, reset);
  }

  /** Every k-th failure makes a chain like that of one attempt at a time; `h` is how long
      that chain is since its last reset. */
  lemma {:induction false} RateAt(es: seq<Attempt>, k: nat) returns (h: nat)
    requires k >= 1 && Guesses(es, k) && es != [] && es[|es| - 1].Charge?
    ensures Charges(es) > 0 && Entry(es).Some? && 1 <= h <= Entry(es).value.failures
    ensures es[|es| - 1].at - ChargeTimes(es)[0] >= 144 * SECOND * Rounds(Charges(es), k) + Ahead(h)
    decreases Charges(es)
  {
    LastChargeIs(es);
    EntryShape(es, k);
    h := 1;
    AheadStep(1);
    if Charges(es) > k {
      var p := OneRound(es, k);
      var was := RateAt(es[..p], k);
      h := RateRound(ChargeTimes(es)[0], es[p - 1].at, es[|es| - 1].at, Entry(es[..p]).value.failures,
                     Entry(es).value.failures, k, Rounds(Charges(es) - k, k), was);
    }
  }

  /** Resets or none: with at most k attempts between check and charge, failures at one key
      that is never cleared come no faster than k every 144 seconds, 897 seconds ahead at
      most. */
  lemma {:induction false} GuessingRate(es: seq<Attempt>, k: nat)
    requires k >= 1 && Guesses(es, k) && Charges(es) > 0
    ensures var ts := ChargeTimes(es);
            ts[|ts| - 1] - ts[0] >= 144 * SECOND * Rounds(|ts|, k) - 897 * SECOND
  {
    var q := CutAtCharge(es, Charges(es));
    PrefixGuesses(es, k, q);
    var h := RateAt(es[..q], k);
    AheadBounds(h);
    LastChargeIs(es[..q]);
  }

  // ---- In the whole table ------------------------------------------------------------------------

  /** What a run of the table does to the attempts at one key. */
  function AttemptsOf(events: seq<Event>, key: string): seq<Attempt> {
    if events == [] then []
    else
      var e := events[|events| - 1];
      AttemptsOf(events[..|events| - 1], key) +
      if e.key != key then []
      else
        match e
        case Admit(_, at) => [Open(at)]
        case Fail(_, at) => [Charge(at)]
        case Clear(_, at) => [Drop(at)]
        case Leave(_, at) => [Drop(at)]
  }

  /** Every attempt that ends was admitted, and at most k are open at once. */
  ghost predicate AtMostOpen(events: seq<Event>, key: string, k: nat) {
    forall i {:trigger events[..i]} | 0 <= i <= |events| :: 0 <= Opened(AttemptsOf(events[..i], key)) <= k
  }

  /** Never succeeded, and evicted only once stale. */
  ghost predicate KeptThroughout(tables: seq<Names>, events: seq<Event>, key: string)
    requires |tables| == |events| + 1
  {
    forall i | 0 <= i < |events| ::
      && !(events[i].Clear? && events[i].key == key)
      && (key in tables[i] && !Stale(tables[i][key], events[i].at) ==> key in tables[i + 1])
  }

  /** The entry held, or none where it would be stale. */
  predicate Tracks(held: Option<Backoff>, due: Option<Backoff>, now: Time) {
    held == due || (held.None? && due.Some? && Stale(due.value, now))
  }

  lemma {:induction false} AttemptsStep(events: seq<Event>, key: string)
    requires events != []
    ensures var n := |events| - 1;
            var was, e := AttemptsOf(events[..n], key), events[n];
            && (e.key != key ==> AttemptsOf(events, key) == was)
            && (e.key == key ==>
                  && |AttemptsOf(events, key)| == |was| + 1 && AttemptsOf(events, key)[..|was|] == was
                  && AttemptsOf(events, key)[|was|].at == e.at
                  && (AttemptsOf(events, key)[|was|].Open? <==> e.Admit?)
                  && (AttemptsOf(events, key)[|was|].Charge? <==> e.Fail?))
  {
  }

  lemma {:induction false} KeptEntry(tables: seq<Names>, events: seq<Event>, key: string, now: Time)
    requires Run(tables, events) && Ordered(events) && After(events, now) && KeptThroughout(tables, events, key)
    ensures Tracks(Get(tables[|events|], key), Entry(AttemptsOf(events, key)), now)
  {
    if events != [] {
      var n := |events| - 1;
      KeptEntry(tables[..|events|], events[..n], key, events[n].at);
      KeptStep(tables[n], events[n], tables[n + 1], key, Entry(AttemptsOf(events[..n], key)));
      AttemptsStep(events, key);
    }
  }

  lemma {:induction false} KeptStep(before: Names, e: Event, after: Names, key: string, due: Option<Backoff>)
    requires Step(before, e, after) && Tracks(Get(before, key), due, e.at)
    requires !(e.Clear? && e.key == key) && (key in before && !Stale(before[key], e.at) ==> key in after)
    ensures Tracks(Get(after, key), if e.Fail? && e.key == key then Some(Charged(due, e.at)) else due, e.at)
  {
    if e.Fail? {
      var room :| NamesRoom(before, room, e.key, e.at) && after == room[e.key := Charged(Get(before, e.key), e.at)];
    }
  }

  /** The attempts at a key in a run of the whole table are such a history. */
  lemma {:induction false} RunGuesses(tables: seq<Names>, events: seq<Event>, key: string, k: nat)
    requires Run(tables, events) && Ordered(events)
    requires KeptThroughout(tables, events, key) && AtMostOpen(events, key, k)
    ensures Guesses(AttemptsOf(events, key), k)
  {
    if events != [] {
      var n := |events| - 1;
      var was := events[..n];
      PrefixRun(tables, events, key, k);
      RunGuesses(tables[..|events|], was, key, k);
      AttemptsStep(events, key);
      if events[n].key == key {
        KeptEntry(tables[..|events|], was, key, events[n].at);
        AttemptsInOrder(was, key, events[n].at);
        assert events[..|events|] == events;
        assert Step(tables[n], events[n], tables[n + 1]) && tables[..|events|][n] == tables[n];
        TrackedLetsThrough(tables[n], key, Entry(AttemptsOf(was, key)), events[n].at);
        assert LastFits(AttemptsOf(events, key), k);
      }
    }
  }

  lemma {:induction false} TrackedLetsThrough(names: Names, key: string, due: Option<Backoff>, now: Time)
    requires Tracks(Get(names, key), due, now)
    ensures WaitOf(names, key, now) == 0 <==> LetsThrough(due, now)
  {
  }

  lemma {:induction false} PrefixRun(tables: seq<Names>, events: seq<Event>, key: string, k: nat)
    requires events != [] && Run(tables, events) && Ordered(events)
    requires KeptThroughout(tables, events, key) && AtMostOpen(events, key, k)
    ensures var was, before := events[..|events| - 1], tables[..|events|];
            && Run(before, was) && Ordered(was) && After(was, events[|events| - 1].at)
            && KeptThroughout(before, was, key) && AtMostOpen(was, key, k)
  {
    var was := events[..|events| - 1];
    assert forall i | 0 <= i <= |was| :: was[..i] == events[..i];
  }

  lemma {:induction false} AttemptsInOrder(events: seq<Event>, key: string, now: Time)
    requires After(events, now)
    ensures forall e | e in AttemptsOf(events, key) :: e.at <= now
  {
    if events != [] {
      AttemptsInOrder(events[..|events| - 1], key, now);
    }
  }

  /** The whole-table form: whatever other keys do, and whatever they evict, a key evicted
      only when stale is guessed at no faster than this. */
  lemma {:induction false} KeyGuessedSlowly(tables: seq<Names>, events: seq<Event>, key: string, k: nat)
    requires k >= 1 && Run(tables, events) && Ordered(events)
    requires KeptThroughout(tables, events, key) && AtMostOpen(events, key, k)
    requires Charges(AttemptsOf(events, key)) > 0
    ensures var es := AttemptsOf(events, key);
            var ts := ChargeTimes(es);
            && ts[|ts| - 1] - ts[0] >= 144 * SECOND * Rounds(|ts|, k) - 897 * SECOND
            && (NoReset(es) || Span(|ts|, k) <= BACKOFF_MAX ==> ts[|ts| - 1] - ts[0] >= Span(|ts|, k))
  {
    var es := AttemptsOf(events, key);
    RunGuesses(tables, events, key, k);
    GuessingRate(es, k);
    if NoReset(es) {
      GuessingIsSlow(es, k);
    } else if Span(Charges(es), k) <= BACKOFF_MAX {
      FewAreSlow(es, k);
    }
  }

  // ---- The answer itself ----------------------------------------------------------------------

  /** The window after the n-th failure in a row: one second, doubling, up to fifteen minutes. */
  function WindowSeconds(n: nat): nat
    requires n >= 1
  {
    if n <= 10 then Pow2(n - 1) else 900
  }

  /** In every run, with no reset, the wait at a key is exactly what is left of the window
      its last failure opened, as long as the number of its failures says. */
  lemma {:induction false} WaitIsExact(tables: seq<Names>, events: seq<Event>, key: string, k: nat, now: Time)
    requires Run(tables, events) && Ordered(events) && After(events, now)
    requires KeptThroughout(tables, events, key) && AtMostOpen(events, key, k) && NoReset(AttemptsOf(events, key))
    ensures var ts := ChargeTimes(AttemptsOf(events, key));
            WaitOf(tables[|events|], key, now) ==
            if |ts| == 0 then 0 else Max(0, ts[|ts| - 1] + 1_000_000_000 * WindowSeconds(|ts|) - now)
  {
    var es := AttemptsOf(events, key);
    RunGuesses(tables, events, key, k);
    KeptEntry(tables, events, key, now);
    EntryShape(es, k);
    if Charges(es) > 0 {
      WindowIs(Charges(es));
    }
  }

  lemma {:induction false} WindowIs(n: nat)
    requires n >= 1
    ensures Window(n) == 1_000_000_000 * WindowSeconds(n)
  {
    SmallPowers();
    if n <= 10 {
      Pow2Grows(n - 1, 9);
    }
  }

  /** A key told to wait, and not charged again, waits that long and no longer. */
  lemma {:induction false} WaitRunsOut(names: Names, key: string, now: Time, later: Time)
    requires now <= later
    ensures WaitOf(names, key, later) == Max(0, WaitOf(names, key, now) - (later - now))
  {
  }

  /** A success leaves a key with no wait at any time, and its next failure is a first one;
      no other key is touched. */
  lemma {:induction false} SuccessClears(tables: seq<Names>, events: seq<Event>, i: nat, key: string, now: Time)
    requires Run(tables, events) && i < |events| && events[i].Clear?
    ensures WaitOf(tables[i + 1], events[i].key, now) == 0
    ensures Charged(Get(tables[i + 1], events[i].key), now) == Backoff(1, now + 1_000_000_000)
    ensures key != events[i].key ==> Get(tables[i + 1], key) == Get(tables[i], key)
  {
    assert Step(tables[i], events[i], tables[i + 1]);
    WindowIs(1);
  }
}
