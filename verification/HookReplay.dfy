/**
  The webhook replay protocol of internal/api/hook.go: a signature is
  reserved before its delivery is sent to the hub, recorded once the delivery
  has landed, and given back when it has not. Many deliveries run at once, and
  the call to the hub between the two steps holds no lock.

  The nonce is the hook's path and the HMAC over the timestamp and the body.
  The HMAC is taken as injective, so a nonce carries what it signs; a token
  hook has none. The clock never goes back, but a delivery reads it before each
  step that takes the lock, and others may come between.
*/
module HookReplay {

  type Time = int

  datatype Nonce =
    | NoNonce
    | Signature(path: string, stamp: Time, body: string)

  datatype Answer = Reserved | Replayed | InFlight

  /** The replay window's test in verifySignature. */
  predicate InWindow(stamp: Time, now: Time, window: int) {
    !(now - stamp > window || now - stamp < -window)
  }

  function Pruned(seen: map<Nonce, Time>, now: Time, window: int): map<Nonce, Time> {
    map k | k in seen && now - seen[k] <= window :: seen[k]
  }

  function AnswerFor(seen: map<Nonce, Time>, inFlight: set<Nonce>, key: Nonce, now: Time, window: int): Answer {
    if key == NoNonce then Reserved
    else if key in Pruned(seen, now, window) then Replayed
    else if key in inFlight then InFlight
    else Reserved
  }

  class Hooks {
    var seen: map<Nonce, Time>
    var inFlight: set<Nonce>

    constructor ()
      ensures seen == map[] && inFlight == {}
    {
      seen, inFlight := map[], {};
    }

    method Reserve(key: Nonce, now: Time, window: int) returns (a: Answer)
      modifies this
      ensures a == AnswerFor(old(seen), old(inFlight), key, now, window)
      ensures seen == if key == NoNonce then old(seen) else Pruned(old(seen), now, window)
      ensures inFlight == if a == Reserved && key != NoNonce then old(inFlight) + {key} else old(inFlight)
    {
      if key == NoNonce {
        return Reserved;
      }
      ghost var before := seen;
      var todo := seen.Keys;
      while todo != {}
        invariant todo <= before.Keys
        invariant seen == map k | k in before && (k in todo || now - before[k] <= window) :: before[k]
        invariant inFlight == old(inFlight)
      {
        var k :| k in todo;
        todo := todo - {k};
        if now - seen[k] > window {
          seen := seen - {k};
        }
      }
      assert seen == Pruned(before, now, window);
      if key in seen {
        return Replayed;
      }
      if key in inFlight {
        return InFlight;
      }
      inFlight := inFlight + {key};
      a := Reserved;
    }

    method Release(key: Nonce)
      modifies `inFlight
      ensures inFlight == old(inFlight) - {key}
    {
      inFlight := inFlight - {key};
    }

    method Landed(key: Nonce, now: Time)
      modifies this
      ensures seen == if key == NoNonce then old(seen) else old(seen)[key := now]
      ensures inFlight == if key == NoNonce then old(inFlight) else old(inFlight) - {key}
    {
      if key != NoNonce {
        seen := seen[key := now];
        inFlight := inFlight - {key};
      }
    }
  }

  // ---- Every interleaving of deliveries ---------------------------------

  /** The replay window of each hook that takes signatures. A token hook reserves nothing
      and prunes nothing, so it has none here. */
  type Config = map<string, int>

  /** A delivery whose signature verified, at that reading of the clock. */
  datatype Pending = Pending(key: Nonce, verified: Time)

  /** One that holds its reservation, made at the instant `reserved`. */
  datatype Hold = Hold(key: Nonce, verified: Time, reserved: Time)

  /** One that reached the bus, and the reading it was recorded under. */
  datatype Landing = Landing(key: Nonce, verified: Time, reserved: Time, at: Time)

  /** `landings` is everything that reached the bus, in order. */
  datatype State = State(
    seen: map<Nonce, Time>, inFlight: set<Nonce>, clock: Time,
    pending: map<nat, Pending>, holders: map<nat, Hold>, landings: seq<Landing>)

  /** `at` is the reading a delivery made on its way to the lock. */
  datatype Event =
    | Tick(to: Time)
    | Verify(id: nat, key: Nonce)
    | Reserve(id: nat, at: Time)
    | Land(id: nat, at: Time)    // the hub took it
    | Fail(id: nat)              // rate limited, refused, or panicked

  const START := State(map[], {}, 0, map[], map[], [])

  ghost predicate Enabled(cfg: Config, s: State, e: Event) {
    match e
    case Tick(to) => s.clock <= to
    case Verify(id, key) => id !in s.pending && id !in s.holders && Verifies(cfg, key, s.clock)
    case Reserve(id, at) => id in s.pending && id !in s.holders && s.pending[id].verified <= at <= s.clock
    case Land(id, at) => id in s.holders && s.holders[id].reserved <= at <= s.clock
    case Fail(id) => id in s.holders
  }

  /** A token hook has no signature to check. */
  predicate Verifies(cfg: Config, key: Nonce, now: Time) {
    key.Signature? ==> key.path in cfg && InWindow(key.stamp, now, cfg[key.path])
  }

  ghost function Next(cfg: Config, s: State, e: Event): State
    requires Enabled(cfg, s, e)
  {
    match e
    case Tick(to) => s.(clock := to)
    case Verify(id, key) => s.(pending := s.pending[id := Pending(key, s.clock)])
    case Reserve(id, at) => Reserving(cfg, s.(pending := s.pending - {id}), id, s.pending[id], at)
    case Land(id, at) =>
      var h := s.holders[id];
      var done := s.(holders := s.holders - {id},
                     landings := s.landings + [Landing(h.key, h.verified, h.reserved, at)]);
      if h.key == NoNonce then done
      else done.(seen := s.seen[h.key := at], inFlight := s.inFlight - {h.key})
    case Fail(id) =>
      var h := s.holders[id];
      s.(holders := s.holders - {id},
         inFlight := if h.key == NoNonce then s.inFlight else s.inFlight - {h.key})
  }

  ghost function Reserving(cfg: Config, s: State, id: nat, p: Pending, at: Time): State {
    var held := s.(holders := s.holders[id := Hold(p.key, p.verified, s.clock)]);
    if p.key == NoNonce then held
    else if p.key.path !in cfg then s
    else
      var window := cfg[p.key.path];
      var seen := Pruned(s.seen, at, window);
      if AnswerFor(s.seen, s.inFlight, p.key, at, window) == Reserved
      then held.(seen := seen, inFlight := s.inFlight + {p.key})
      else s.(seen := seen)
  }

  ghost predicate Run(cfg: Config, states: seq<State>, events: seq<Event>) {
    && |states| == |events| + 1
    && states[0] == START
    && (forall i | 0 <= i < |events| ::
          Enabled(cfg, states[i], events[i]) && states[i + 1] == Next(cfg, states[i], events[i]))
  }

  ghost predicate Reachable(cfg: Config, s: State) {
    exists states, events | Run(cfg, states, events) :: s == states[|events|]
  }

  // ---- What every step keeps ----------------------------------------------

  /** One holder to a signature, and `inFlight` is exactly what is held. */
  ghost predicate OneHolder(s: State) {
    && NoNonce !in s.inFlight
    && (forall i, j | i in s.holders && j in s.holders && i != j ::
          s.holders[i].key == s.holders[j].key ==> s.holders[i].key == NoNonce)
    && (forall i | i in s.holders :: s.holders[i].key != NoNonce ==> s.holders[i].key in s.inFlight)
    && (forall k | k in s.inFlight :: exists i | i in s.holders :: s.holders[i].key == k)
  }

  /** Every delivery verified, and then went on in order. */
  ghost predicate Verified(cfg: Config, s: State) {
    && (forall i | i in s.pending :: s.pending[i].verified <= s.clock && Verifies(cfg, s.pending[i].key, s.pending[i].verified))
    && (forall i | i in s.holders ::
          && s.holders[i].verified <= s.holders[i].reserved <= s.clock
          && Verifies(cfg, s.holders[i].key, s.holders[i].verified))
    && (forall l | l in s.landings ::
          l.verified <= l.reserved <= l.at <= s.clock && Verifies(cfg, l.key, l.verified))
  }

  /** What landed inside w is still remembered, and nothing else is. */
  ghost predicate Remembered(s: State, w: int) {
    && (forall l | l in s.landings && l.key != NoNonce && s.clock - l.at <= w ::
          l.key in s.seen && l.at <= s.seen[l.key])
    && (forall k | k in s.seen :: FromLanding(s.landings, k, s.seen[k]))
  }

  ghost predicate FromLanding(landings: seq<Landing>, k: Nonce, at: Time) {
    exists l | l in landings :: l.key == k && l.at == at
  }

  /** A delivery was reserved more than w after every earlier landing of its signature. */
  ghost predicate Spaced(s: State, w: int) {
    && (forall i, l | i in s.holders && l in s.landings ::
          s.holders[i].key == l.key != NoNonce ==> Apart(l.at, s.holders[i].reserved, w))
    && (forall i, j | 0 <= i < j < |s.landings| ::
          s.landings[i].key == s.landings[j].key != NoNonce ==> Apart(s.landings[i].at, s.landings[j].reserved, w))
  }

  predicate Apart(earlier: Time, later: Time, w: int) {
    earlier <= later && later - earlier > w
  }

  /** No window anything can verify under is shorter than w. */
  ghost predicate NoneShorter(cfg: Config, w: int) {
    forall h | h in cfg :: 0 <= cfg[h] ==> w <= cfg[h]
  }

  lemma {:induction false} StepOneHolder(cfg: Config, s: State, e: Event)
    requires Enabled(cfg, s, e) && OneHolder(s)
    ensures OneHolder(Next(cfg, s, e))
  {
    var t := Next(cfg, s, e);
    match e {
      case Tick(_) =>
      case Verify(_, _) =>
      case Reserve(id, _) =>
        forall k | k in t.inFlight
          ensures exists i | i in t.holders :: t.holders[i].key == k
        {
          if k in s.inFlight {
            var i :| i in s.holders && s.holders[i].key == k;
            assert i in t.holders && t.holders[i].key == k;
          } else {
            assert t.holders[id].key == k;
          }
        }
      case Land(id, _) => LeaverFreesItsOwn(s, t, id);
      case Fail(id) => LeaverFreesItsOwn(s, t, id);
    }
  }

  lemma {:induction false} LeaverFreesItsOwn(s: State, t: State, id: nat)
    requires OneHolder(s) && id in s.holders
    requires t.holders == s.holders - {id}
    requires t.inFlight == if s.holders[id].key == NoNonce then s.inFlight else s.inFlight - {s.holders[id].key}
    ensures OneHolder(t)
  {
    forall k | k in t.inFlight
      ensures exists i | i in t.holders :: t.holders[i].key == k
    {
      var i :| i in s.holders && s.holders[i].key == k;
      assert i in t.holders && t.holders[i].key == k;
    }
  }

  lemma {:induction false} StepVerified(cfg: Config, s: State, e: Event)
    requires Enabled(cfg, s, e) && Verified(cfg, s)
    ensures Verified(cfg, Next(cfg, s, e))
  {
  }

  /** Whatever a reserve prunes is out of every window that matters. */
  lemma {:induction false} PruneKeepsRemembered(cfg: Config, s: State, id: nat, at: Time, w: int)
    requires Enabled(cfg, s, Reserve(id, at)) && Verified(cfg, s) && Remembered(s, w) && NoneShorter(cfg, w)
    ensures Remembered(Next(cfg, s, Reserve(id, at)), w)
  {
    var p, t := s.pending[id], Next(cfg, s, Reserve(id, at));
    if p.key.Signature? {
      assert w <= cfg[p.key.path];
    }
    assert t.landings == s.landings && t.clock == s.clock;
    assert forall k | k in t.seen :: k in s.seen && t.seen[k] == s.seen[k];
  }

  lemma {:induction false} LandKeepsRemembered(cfg: Config, s: State, id: nat, at: Time, w: int)
    requires Enabled(cfg, s, Land(id, at)) && Remembered(s, w) && Spaced(s, w)
    ensures Remembered(Next(cfg, s, Land(id, at)), w)
  {
    var h, t := s.holders[id], Next(cfg, s, Land(id, at));
    var landed := Landing(h.key, h.verified, h.reserved, at);
    assert t.landings == s.landings + [landed];
    forall k | k in t.seen
      ensures FromLanding(t.landings, k, t.seen[k])
    {
      if k == h.key {
        assert landed in t.landings;
      } else {
        var l :| l in s.landings && l.key == k && l.at == s.seen[k];
        assert l in t.landings;
      }
    }
  }

  lemma {:induction false} StepRemembered(cfg: Config, s: State, e: Event, w: int)
    requires Enabled(cfg, s, e) && Verified(cfg, s) && Remembered(s, w) && Spaced(s, w) && NoneShorter(cfg, w)
    ensures Remembered(Next(cfg, s, e), w)
  {
    match e {
      case Tick(_) =>
      case Verify(_, _) =>
      case Reserve(id, at) => PruneKeepsRemembered(cfg, s, id, at, w);
      case Land(id, at) => LandKeepsRemembered(cfg, s, id, at, w);
      case Fail(_) =>
    }
  }

  /** A reservation is given only when every landing of its signature is out of the window. */
  lemma {:induction false} ReservedIsApart(cfg: Config, s: State, id: nat, at: Time, w: int)
    requires Enabled(cfg, s, Reserve(id, at)) && Verified(cfg, s) && Remembered(s, w) && NoneShorter(cfg, w)
    ensures var key := s.pending[id].key;
            id in Next(cfg, s, Reserve(id, at)).holders && key != NoNonce ==>
            forall l | l in s.landings && l.key == key :: Apart(l.at, s.clock, w)
  {
    var p := s.pending[id];
    if p.key.Signature? {
      assert w <= cfg[p.key.path];
    }
  }

  lemma {:induction false} StepSpaced(cfg: Config, s: State, e: Event, w: int)
    requires Enabled(cfg, s, e) && OneHolder(s) && Verified(cfg, s) && Remembered(s, w) && Spaced(s, w) && NoneShorter(cfg, w)
    ensures Spaced(Next(cfg, s, e), w)
  {
    var t := Next(cfg, s, e);
    match e {
      case Tick(_) =>
      case Verify(_, _) =>
      case Reserve(id, at) => ReservedIsApart(cfg, s, id, at, w);
      case Land(id, at) => LandKeepsSpaced(cfg, s, id, at, w);
      case Fail(_) =>
    }
  }

  lemma {:induction false} LandKeepsSpaced(cfg: Config, s: State, id: nat, at: Time, w: int)
    requires Enabled(cfg, s, Land(id, at)) && OneHolder(s) && Spaced(s, w)
    ensures Spaced(Next(cfg, s, Land(id, at)), w)
  {
    var h, t := s.holders[id], Next(cfg, s, Land(id, at));
    var landed := Landing(h.key, h.verified, h.reserved, at);
    assert t.landings == s.landings + [landed] && t.holders == s.holders - {id};
    forall i, l | i in t.holders && l in t.landings && t.holders[i].key == l.key && l.key != NoNonce
      ensures Apart(l.at, t.holders[i].reserved, w)
    {
      assert l != landed;
    }
  }

  ghost predicate Inv(cfg: Config, s: State, w: int) {
    OneHolder(s) && Verified(cfg, s) && Remembered(s, w) && Spaced(s, w)
  }

  lemma {:induction false} RunKeepsInv(cfg: Config, states: seq<State>, events: seq<Event>, w: int)
    requires Run(cfg, states, events) && NoneShorter(cfg, w)
    ensures Inv(cfg, states[|events|], w)
  {
    if events != [] {
      var n := |events| - 1;
      RunKeepsInv(cfg, states[..|events|], events[..n], w);
      var s, e := states[n], events[n];
      assert Inv(cfg, s, w) && Enabled(cfg, s, e) && states[n + 1] == Next(cfg, s, e);
      StepOneHolder(cfg, s, e);
      StepVerified(cfg, s, e);
      StepRemembered(cfg, s, e, w);
      StepSpaced(cfg, s, e, w);
    }
  }

  lemma {:induction false} ReachableKeepsInv(cfg: Config, s: State, w: int)
    requires Reachable(cfg, s) && NoneShorter(cfg, w)
    ensures Inv(cfg, s, w)
  {
    var states, events :| Run(cfg, states, events) && s == states[|events|];
    RunKeepsInv(cfg, states, events, w);
  }
}
