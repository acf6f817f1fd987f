/**
  What the webhook replay protocol promises in every interleaving, and the runs that
  show where each promise ends.
*/
module HookPromises {
  import opened HookReplay

  // ---- What that promises ---------------------------------------------------

  /** Two copies of one delivery are never both past the reservation. */
  lemma {:induction false} NeverTwoHolders(cfg: Config, s: State, i: nat, j: nat)
    requires Reachable(cfg, s) && i in s.holders && j in s.holders && i != j
    ensures s.holders[i].key == s.holders[j].key ==> s.holders[i].key == NoNonce
  {
    ReachableKeepsInv(cfg, s, 0);
  }

  /** Landings of the hook's signatures are always more than its window apart. */
  ghost predicate AlwaysSpaced(cfg: Config, path: string)
    requires path in cfg
  {
    forall s | Reachable(cfg, s) :: SpacedFor(s, path, cfg[path])
  }

  ghost predicate SpacedFor(s: State, path: string, w: int) {
    forall i, j | 0 <= i < j < |s.landings| ::
      s.landings[i].key == s.landings[j].key && s.landings[i].key.Signature? && s.landings[i].key.path == path ==>
        s.landings[j].at - s.landings[i].at > w
  }

  /** Because `reserve` prunes every hook's records by the caller's window, a hook's
      signatures are held to its own window exactly when no hook that anything can
      verify under has a shorter one. */
  lemma {:induction false} SpacedIffNoneShorter(cfg: Config, path: string)
    requires path in cfg
    ensures AlwaysSpaced(cfg, path) <==> NoneShorter(cfg, cfg[path])
  {
    var w := cfg[path];
    if NoneShorter(cfg, w) {
      forall s | Reachable(cfg, s)
        ensures SpacedFor(s, path, w)
      {
        ReachableKeepsInv(cfg, s, w);
        assert forall i | 0 <= i < |s.landings| :: s.landings[i] in s.landings;
      }
    } else {
      var other :| other in cfg && 0 <= cfg[other] < w;
      var s := ForgottenByAnother(cfg, path, other);
      assert !SpacedFor(s, path, w);
    }
  }

  // ---- Runs to show a promise ends where it does ------------------------------

  lemma {:induction false} ReachableNext(cfg: Config, s: State, e: Event)
    requires Reachable(cfg, s) && Enabled(cfg, s, e)
    ensures Reachable(cfg, Next(cfg, s, e))
  {
    var states, events :| Run(cfg, states, events) && s == states[|events|];
    assert Run(cfg, states + [Next(cfg, s, e)], events + [e]);
  }

  lemma {:induction false} ReachableTick(cfg: Config, s: State, to: Time) returns (t: State)
    requires Reachable(cfg, s) && s.clock <= to
    ensures Reachable(cfg, t) && t == s.(clock := to)
  {
    ReachableNext(cfg, s, Tick(to));
    t := Next(cfg, s, Tick(to));
  }

  /** A delivery is verified now, with others pending or not. */
  lemma {:induction false} ReachableVerify(cfg: Config, s: State, id: nat, key: Nonce) returns (t: State)
    requires Reachable(cfg, s) && id !in s.pending && id !in s.holders && Verifies(cfg, key, s.clock)
    ensures Reachable(cfg, t) && t == s.(pending := s.pending[id := Pending(key, s.clock)])
  {
    ReachableNext(cfg, s, Verify(id, key));
    t := Next(cfg, s, Verify(id, key));
  }

  /** A pending delivery that nothing remembers or holds is reserved now. */
  lemma {:induction false} ReachableReserve(cfg: Config, s: State, id: nat) returns (t: State)
    requires Reachable(cfg, s) && id in s.pending && id !in s.holders
    requires s.pending[id].key.Signature? && s.pending[id].key.path in cfg && s.pending[id].verified <= s.clock
    requires s.pending[id].key !in s.inFlight
    requires s.pending[id].key in s.seen ==> s.clock - s.seen[s.pending[id].key] > cfg[s.pending[id].key.path]
    ensures Reachable(cfg, t)
    ensures var p := s.pending[id];
            t == State(Pruned(s.seen, s.clock, cfg[p.key.path]), s.inFlight + {p.key}, s.clock, s.pending - {id},
                       s.holders[id := Hold(p.key, p.verified, s.clock)], s.landings)
  {
    ReachableNext(cfg, s, Reserve(id, s.clock));
    t := Next(cfg, s, Reserve(id, s.clock));
  }

  lemma {:induction false} ReachableLand(cfg: Config, s: State, id: nat) returns (t: State)
    requires Reachable(cfg, s) && id in s.holders && s.holders[id].key.Signature? && s.holders[id].reserved <= s.clock
    ensures Reachable(cfg, t)
    ensures var h := s.holders[id];
            t == State(s.seen[h.key := s.clock], s.inFlight - {h.key}, s.clock, s.pending, s.holders - {id},
                       s.landings + [Landing(h.key, h.verified, h.reserved, s.clock)])
  {
    ReachableNext(cfg, s, Land(id, s.clock));
    t := Next(cfg, s, Land(id, s.clock));
  }

  /** A first delivery, verified and reserved at v. */
  lemma {:induction false} HoldFirst(cfg: Config, k: Nonce, v: Time) returns (s: State)
    requires k.Signature? && 0 <= v && Verifies(cfg, k, v)
    ensures Reachable(cfg, s) && s == State(map[], {k}, v, map[], map[0 := Hold(k, v, v)], [])
  {
    assert Run(cfg, [START], []);
    s := ReachableTick(cfg, START, v);
    s := ReachableVerify(cfg, s, 0, k);
    s := ReachableReserve(cfg, s, 0);
    assert s.seen == map[] && s.pending == map[];
  }

  /** And landed at a. */
  lemma {:induction false} LandFirst(cfg: Config, k: Nonce, v: Time, a: Time) returns (s: State)
    requires k.Signature? && 0 <= v <= a && Verifies(cfg, k, v)
    ensures Reachable(cfg, s) && s == State(map[k := a], {}, a, map[], map[], [Landing(k, v, v, a)])
  {
    s := HoldFirst(cfg, k, v);
    s := ReachableTick(cfg, s, a);
    s := ReachableLand(cfg, s, 0);
    assert s.holders == map[] && s.inFlight == {};
  }

  /** A delivery through a hook with a shorter window forgets this one's. */
  lemma {:induction false} ForgottenByAnother(cfg: Config, path: string, other: string) returns (s: State)
    requires path in cfg && other in cfg && 0 <= cfg[other] < cfg[path]
    ensures Reachable(cfg, s) && !SpacedFor(s, path, cfg[path])
  {
    var k, t := Signature(path, 0, ""), cfg[other] + 1;
    var o := Signature(other, t, "");
    s := LandFirst(cfg, k, 0, 0);
    s := ReachableTick(cfg, s, t);
    s := ReachableVerify(cfg, s, 1, o);
    s := ReachableReserve(cfg, s, 1);
    assert s.seen == map[] && s.inFlight == {o};
    s := ReachableVerify(cfg, s, 2, k);
    s := ReachableReserve(cfg, s, 2);
    s := ReachableLand(cfg, s, 2);
    assert s.landings[0] == Landing(k, 0, 0, 0) && s.landings[1] == Landing(k, t, t, t);
  }

  // ---- A signature lands once ----------------------------------------------------

  /** Some run in which a signature lands at `a` and lands again, that copy having been
      reserved at most `gap` after it verified. */
  ghost predicate LandsAgain(cfg: Config, key: Nonce, a: Time, gap: nat) {
    exists s, i, j | Reachable(cfg, s) :: IsAgain(s, i, j, key, a, gap)
  }

  ghost predicate IsAgain(s: State, i: nat, j: nat, key: Nonce, a: Time, gap: nat) {
    && i < j < |s.landings| && s.landings[i].key == s.landings[j].key == key
    && s.landings[i].at == a && s.landings[j].reserved - s.landings[j].verified <= gap
  }

  /** It can land at `a` at all: some instant from 0 to `a` is in the window of its stamp. */
  predicate CanLandAt(cfg: Config, key: Nonce, a: Time)
    requires key.Signature? && key.path in cfg
  {
    var w := cfg[key.path];
    w >= 0 && 0 <= a && key.stamp - w <= a && 0 <= key.stamp + w
  }

  /** What a second landing says about the first, in any run. */
  lemma {:induction false} SecondLandingIsLate(cfg: Config, s: State, i: nat, j: nat)
    requires Reachable(cfg, s) && i < j < |s.landings|
    requires s.landings[i].key == s.landings[j].key && s.landings[i].key.Signature?
    requires s.landings[i].key.path in cfg && NoneShorter(cfg, cfg[s.landings[i].key.path])
    ensures s.landings[i].at < s.landings[i].key.stamp + (s.landings[j].reserved - s.landings[j].verified)
  {
    ReachableKeepsInv(cfg, s, cfg[s.landings[i].key.path]);
    assert s.landings[j] in s.landings;
  }

  /** End to end, for a hook whose window no other undercuts: a signature that landed
      is refused for as long as its stamp verifies, if it was stamped no later than it
      landed and the copy is reserved in the instant it verified. */
  lemma {:induction false} LandsAtMostOnce(cfg: Config, s: State, i: nat, j: nat)
    requires Reachable(cfg, s) && i < j < |s.landings|
    requires s.landings[i].key == s.landings[j].key && s.landings[i].key.Signature?
    requires s.landings[i].key.path in cfg && NoneShorter(cfg, cfg[s.landings[i].key.path])
    requires s.landings[j].verified == s.landings[j].reserved
    ensures s.landings[i].at < s.landings[i].key.stamp
  {
    SecondLandingIsLate(cfg, s, i, j);
  }

  /** Exactly: a signature that can land at `a` can land again, reserved at most `gap`
      after it verified, if and only if `a` is before its stamp and that gap. */
  lemma {:induction false} LandsAgainIff(cfg: Config, key: Nonce, a: Time, gap: nat)
    requires key.Signature? && key.path in cfg && NoneShorter(cfg, cfg[key.path])
    ensures LandsAgain(cfg, key, a, gap) <==> CanLandAt(cfg, key, a) && a < key.stamp + gap
  {
    if LandsAgain(cfg, key, a, gap) {
      var s, i: nat, j: nat :| Reachable(cfg, s) && IsAgain(s, i, j, key, a, gap);
      SecondLandingIsLate(cfg, s, i, j);
      ReachableKeepsInv(cfg, s, cfg[key.path]);
      var l := s.landings[i];
      assert l in s.landings;
      StartsAtZero(cfg, s, i);
      LandedInsideItsWindow(cfg, s, i);
      assert 0 <= l.verified <= a;
    }
    if CanLandAt(cfg, key, a) && a < key.stamp + gap {
      var s := LandTwice(cfg, key, a, gap);
      assert IsAgain(s, 0, 1, key, a, gap);
    }
  }

  /** The clock begins at 0, so nothing verified before it. */
  lemma {:induction false} StartsAtZero(cfg: Config, s: State, i: nat)
    requires Reachable(cfg, s) && i < |s.landings|
    ensures s.landings[i].verified >= 0
  {
    var states, events :| Run(cfg, states, events) && s == states[|events|];
    RunStartsAtZero(cfg, states, events);
    assert s.landings[i] in s.landings;
  }

  ghost predicate NotBeforeZero(s: State) {
    && s.clock >= 0
    && (forall i | i in s.pending :: s.pending[i].verified >= 0)
    && (forall i | i in s.holders :: s.holders[i].verified >= 0)
    && (forall l | l in s.landings :: l.verified >= 0)
  }

  lemma {:induction false} RunStartsAtZero(cfg: Config, states: seq<State>, events: seq<Event>)
    requires Run(cfg, states, events)
    ensures NotBeforeZero(states[|events|])
  {
    if events != [] {
      var n := |events| - 1;
      RunStartsAtZero(cfg, states[..|events|], events[..n]);
      StepNotBeforeZero(cfg, states[n], events[n]);
    }
  }

  lemma {:induction false} StepNotBeforeZero(cfg: Config, s: State, e: Event)
    requires Enabled(cfg, s, e) && NotBeforeZero(s)
    ensures NotBeforeZero(Next(cfg, s, e))
  {
  }

  /** The copy verifies in the last instant its stamp does, before or after the first
      landing, and is reserved once that landing is forgotten. */
  lemma {:induction false} LandTwice(cfg: Config, key: Nonce, a: Time, gap: nat) returns (s: State)
    requires key.Signature? && key.path in cfg && CanLandAt(cfg, key, a) && a < key.stamp + gap
    ensures Reachable(cfg, s) && IsAgain(s, 0, 1, key, a, gap)
  {
    var w := cfg[key.path];
    var v := if key.stamp - w < 0 then 0 else key.stamp - w;
    var last := key.stamp + w;
    var again := if last > a + w then last else a + w + 1;
    if last <= a {
      s := HoldFirst(cfg, key, v);
      s := ReachableTick(cfg, s, last);
      s := ReachableVerify(cfg, s, 1, key);
      s := ReachableTick(cfg, s, a);
      s := ReachableLand(cfg, s, 0);
    } else {
      s := LandFirst(cfg, key, v, a);
      s := ReachableTick(cfg, s, last);
      s := ReachableVerify(cfg, s, 1, key);
    }
    assert s.pending == map[1 := Pending(key, last)] && s.seen == map[key := a] && s.inFlight == {};
    s := ReachableTick(cfg, s, again);
    s := ReachableReserve(cfg, s, 1);
    s := ReachableLand(cfg, s, 1);
    assert s.landings == [Landing(key, v, v, a), Landing(key, last, again, again)];
  }

  /** One tick between verifying and reserving is enough: stamped and landed at 0, a copy
      verified at the end of the window and reserved a tick later lands too. */
  lemma {:induction false} SlowReserveLandsTwice(cfg: Config, path: string)
    requires path in cfg && cfg[path] >= 0 && NoneShorter(cfg, cfg[path])
    ensures LandsAgain(cfg, Signature(path, 0, ""), 0, 1) && !LandsAgain(cfg, Signature(path, 0, ""), 0, 0)
  {
    var key := Signature(path, 0, "");
    LandsAgainIff(cfg, key, 0, 1);
    LandsAgainIff(cfg, key, 0, 0);
  }

  /** The answer is what the history says it should be, and nothing the tables lost
      or kept by accident. */
  lemma {:induction false} AnswerMatchesHistory(cfg: Config, s: State, key: Nonce, now: Time)
    requires Reachable(cfg, s) && s.clock <= now
    requires key.Signature? && key.path in cfg && NoneShorter(cfg, cfg[key.path])
    ensures var w := cfg[key.path];
            var a := AnswerFor(s.seen, s.inFlight, key, now, w);
            && (a == Replayed <==> exists l | l in s.landings :: l.key == key && now - l.at <= w)
            && (a == Reserved <==> (forall l | l in s.landings :: l.key == key ==> now - l.at > w)
                                   && forall i | i in s.holders :: s.holders[i].key != key)
  {
    var w := cfg[key.path];
    ReachableKeepsInv(cfg, s, w);
    if l :| l in s.landings && l.key == key && now - l.at <= w {
      assert now - s.seen[key] <= w;
    }
    if key in s.seen {
      assert FromLanding(s.landings, key, s.seen[key]);
    }
  }

  /** What is held has been forgotten. */
  ghost predicate HeldIsNotSeen(s: State) {
    forall i | i in s.holders && s.holders[i].key != NoNonce :: s.holders[i].key !in s.seen
  }

  lemma {:induction false} StepHeldIsNotSeen(cfg: Config, s: State, e: Event)
    requires Enabled(cfg, s, e) && OneHolder(s) && HeldIsNotSeen(s)
    ensures HeldIsNotSeen(Next(cfg, s, e))
  {
  }

  lemma {:induction false} RunHeldIsNotSeen(cfg: Config, states: seq<State>, events: seq<Event>)
    requires Run(cfg, states, events)
    ensures OneHolder(states[|events|]) && HeldIsNotSeen(states[|events|])
  {
    if events != [] {
      var n := |events| - 1;
      RunHeldIsNotSeen(cfg, states[..|events|], events[..n]);
      StepOneHolder(cfg, states[n], events[n]);
      StepHeldIsNotSeen(cfg, states[n], events[n]);
    }
  }

  /** A delivery that did not land can be retried at once: whatever else ran meanwhile, and
      whatever the windows, giving the reservation back leaves the signature reservable at
      any reading of the clock. */
  lemma {:induction false} FailedDeliveryIsRetriable(cfg: Config, s: State, id: nat, now: Time, window: int)
    requires Reachable(cfg, s) && id in s.holders
    ensures var t := Next(cfg, s, Fail(id));
            AnswerFor(t.seen, t.inFlight, s.holders[id].key, now, window) == Reserved
  {
    var states, events :| Run(cfg, states, events) && s == states[|events|];
    RunHeldIsNotSeen(cfg, states, events);
  }

  /** Whatever landed was verified no more than its hook's window before or after its stamp,
      and then reserved and recorded: a delivery stamped further ahead never lands. */
  lemma {:induction false} LandedInsideItsWindow(cfg: Config, s: State, i: nat)
    requires Reachable(cfg, s) && i < |s.landings| && s.landings[i].key.Signature?
    ensures var l := s.landings[i];
            && l.key.path in cfg
            && l.key.stamp - cfg[l.key.path] <= l.verified <= l.key.stamp + cfg[l.key.path]
            && l.verified <= l.reserved <= l.at <= s.clock
  {
    var states, events :| Run(cfg, states, events) && s == states[|events|];
    RunVerified(cfg, states, events);
    assert s.landings[i] in s.landings;
  }

  lemma {:induction false} RunVerified(cfg: Config, states: seq<State>, events: seq<Event>)
    requires Run(cfg, states, events)
    ensures Verified(cfg, states[|events|])
  {
    if events != [] {
      var n := |events| - 1;
      RunVerified(cfg, states[..|events|], events[..n]);
      StepVerified(cfg, states[n], events[n]);
    }
  }

  /** And it verifies exactly there: a delivery can begin if and only if its hook exists and
      the clock is within the window of its stamp, either way; one to a token hook always. */
  lemma {:induction false} VerifiesIff(cfg: Config, s: State, id: nat, key: Nonce)
    requires id !in s.pending && id !in s.holders
    ensures Enabled(cfg, s, Verify(id, key)) <==>
            match key
            case NoNonce => true
            case Signature(path, stamp, _) => path in cfg && s.clock - stamp <= cfg[path] && stamp - s.clock <= cfg[path]
  {
  }

  /** A token delivery is never refused as a replay or as in flight, and leaves no trace. */
  lemma {:induction false} TokenIsNeverRefused(seen: map<Nonce, Time>, inFlight: set<Nonce>, now: Time, window: int)
    ensures AnswerFor(seen, inFlight, NoNonce, now, window) == Reserved
  {
  }
}
