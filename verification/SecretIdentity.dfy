/**
  Who a cached secret may be served to
  (cmd/halite-ext-aws-secrets/secretsmanager.go, identity, and cache.go, fetch).
  The parts that decide who asks are length-prefixed and hashed, and the cache
  key is that digest with the region, the secret and the stage. Any number of
  fetches share the cache.
*/
module SecretIdentity {
  import opened Basics
  import opened Texts
  import opened SecretCache

  datatype Provider = Provider(
    accessKeyId: string, secretAccessKey: string, sessionToken: string,
    roleArn: string, roleSession: string, webIdentityTokenFile: string, partition: string)

  datatype Client = Client(endpoint: string, partition: string, provider: Option<Provider>)

  function Part(s: string): string {
    Decimal(|s|) + ":" + s + "|"
  }

  function Encode(parts: seq<string>): string {
    if parts == [] then "" else Part(parts[0]) + Encode(parts[1..])
  }

  function Parts(c: Client): seq<string> {
    [c.endpoint, c.partition] +
    match c.provider
    case None => []
    case Some(p) =>
      [p.accessKeyId, p.secretAccessKey, p.sessionToken, p.roleArn, p.roleSession, p.webIdentityTokenFile, p.partition]
  }

  /** `digest` is SHA-256 printed in hexadecimal. */
  function Identity(digest: string -> string, c: Client): string {
    digest(Encode(Parts(c)))
  }

  ghost predicate IsDigest(digest: string -> string) {
    && (forall s :: '|' !in digest(s))
    && (forall s, t :: digest(s) == digest(t) ==> s == t)
  }

  /** One secret, asked for by one client. */
  datatype Ask = Ask(client: Client, region: string, secret: string, stage: string)

  function CacheKey(digest: string -> string, a: Ask): string {
    Identity(digest, a.client) + "|" + a.region + "|" + a.secret + "|" + a.stage
  }

  lemma {:induction false} PartUnique(s: string, r: string, t: string, q: string)
    requires Part(s) + r == Part(t) + q
    ensures s == t && r == q
  {
    assert Part(s) + r == Decimal(|s|) + [':'] + (s + ("|" + r));
    assert Part(t) + q == Decimal(|t|) + [':'] + (t + ("|" + q));
    SplitAtMark(Decimal(|s|), s + ("|" + r), Decimal(|t|), t + ("|" + q), ':');
    DecimalInjective(|s|, |t|);
    SplitAtLength(s, "|" + r, t, "|" + q);
    SplitAtLength("|", r, "|", q);
  }

  /** The bytes hashed determine the tuple, whatever its length and content. */
  lemma {:induction false} EncodeInjective(a: seq<string>, b: seq<string>)
    requires Encode(a) == Encode(b)
    ensures a == b
  {
    if a != [] && b != [] {
      PartUnique(a[0], Encode(a[1..]), b[0], Encode(b[1..]));
      EncodeInjective(a[1..], b[1..]);
      assert a == [a[0]] + a[1..] && b == [b[0]] + b[1..];
    }
  }

  lemma {:induction false} IdentityDecides(digest: string -> string, c: Client, d: Client)
    requires IsDigest(digest)
    ensures Identity(digest, c) == Identity(digest, d) <==> c == d
  {
    if Identity(digest, c) == Identity(digest, d) {
      EncodeInjective(Parts(c), Parts(d));
      var p, q := Parts(c), Parts(d);
      assert p[0] == q[0] && p[1] == q[1];
      if c.provider.Some? {
        assert forall i | 2 <= i < 9 :: p[i] == q[i];
        assert p[2] == q[2] && p[3] == q[3] && p[4] == q[4] && p[5] == q[5] && p[6] == q[6] && p[7] == q[7] && p[8] == q[8];
      }
    }
  }

  /** Two asks the key does not tell apart: one client, and one text of region, secret
      and stage. */
  predicate Alike(a: Ask, b: Ask) {
    a.client == b.client && a.region + "|" + (a.secret + "|" + a.stage) == b.region + "|" + (b.secret + "|" + b.stage)
  }

  predicate NoBars(a: Ask) {
    '|' !in a.region && '|' !in a.secret
  }

  /** Exactly which asks share a cache key, for any text at all. */
  lemma {:induction false} CacheKeyDecides(digest: string -> string, a: Ask, b: Ask)
    requires IsDigest(digest)
    ensures CacheKey(digest, a) == CacheKey(digest, b) <==> Alike(a, b)
  {
    IdentityDecides(digest, a.client, b.client);
    var rest, rest' := a.region + "|" + (a.secret + "|" + a.stage), b.region + "|" + (b.secret + "|" + b.stage);
    assert CacheKey(digest, a) == Identity(digest, a.client) + "|" + rest;
    assert CacheKey(digest, b) == Identity(digest, b.client) + "|" + rest';
    if CacheKey(digest, a) == CacheKey(digest, b) {
      SplitAtMark(Identity(digest, a.client), rest, Identity(digest, b.client), rest', '|');
    }
  }

  /** Where no region and no secret holds a bar, only an ask is alike itself. */
  lemma {:induction false} AlikeWithoutBars(a: Ask, b: Ask)
    requires NoBars(a) && NoBars(b)
    ensures Alike(a, b) <==> a == b
  {
    if Alike(a, b) {
      SplitAtMark(a.region, a.secret + "|" + a.stage, b.region, b.secret + "|" + b.stage, '|');
      SplitAtMark(a.secret, a.stage, b.secret, b.stage, '|');
    }
  }

  function Bars(s: string): nat {
    if s == "" then 0 else (if s[0] == '|' then 1 else 0) + Bars(s[1..])
  }

  lemma {:induction false} BarsAdd(s: string, t: string)
    ensures Bars(s + t) == Bars(s) + Bars(t)
  {
    if s == "" {
      assert s + t == t;
    } else {
      assert (s + t)[1..] == s[1..] + t;
      BarsAdd(s[1..], t);
    }
  }

  lemma {:induction false} NoBarsIff(s: string)
    ensures Bars(s) == 0 <==> '|' !in s
  {
    if s != "" {
      NoBarsIff(s[1..]);
    }
  }

  lemma {:induction false} BarsOf(a: Ask)
    ensures Bars(a.region + "|" + (a.secret + "|" + a.stage)) == 2 + Bars(a.region) + Bars(a.secret) + Bars(a.stage)
    ensures Bars(a.region) + Bars(a.secret) + Bars(a.stage) == 0 <==> BarFree(a)
  {
    assert Bars("|") == 1;
    BarsAdd(a.region + "|", a.secret + "|" + a.stage);
    BarsAdd(a.region, "|");
    BarsAdd(a.secret + "|", a.stage);
    BarsAdd(a.secret, "|");
    NoBarsIff(a.region);
    NoBarsIff(a.secret);
    NoBarsIff(a.stage);
  }

  predicate BarFree(a: Ask) {
    '|' !in a.region && '|' !in a.secret && '|' !in a.stage
  }

  /** An ask has a key of its own if and only if there is no bar in it. */
  lemma {:induction false} OwnKeyIff(a: Ask)
    ensures (forall b :: Alike(a, b) ==> a == b) <==> BarFree(a)
  {
    if BarFree(a) {
      forall b | Alike(a, b)
        ensures a == b
      {
        BarsOf(a);
        BarsOf(b);
        AlikeWithoutBars(a, b);
      }
    } else {
      var b := OtherReading(a);
      assert Alike(a, b) && a != b;
    }
  }

  /** Another ask with the same key: one cut moved to the bar. */
  lemma {:induction false} OtherReading(a: Ask) returns (b: Ask)
    requires !BarFree(a)
    ensures Alike(a, b) && a != b
  {
    if '|' in a.region {
      var before, after := CutAtBar(a.region);
      b := a.(region := before, secret := after + "|" + a.secret);
      assert a.region + "|" + (a.secret + "|" + a.stage) == b.region + "|" + (b.secret + "|" + b.stage);
    } else if '|' in a.secret {
      var before, after := CutAtBar(a.secret);
      b := a.(secret := before, stage := after + "|" + a.stage);
      assert a.secret + "|" + a.stage == b.secret + "|" + b.stage;
    } else {
      var before, after := CutAtBar(a.stage);
      b := a.(secret := a.secret + "|" + before, stage := after);
      assert a.secret + "|" + a.stage == b.secret + "|" + b.stage;
    }
  }

  lemma {:induction false} CutAtBar(s: string) returns (before: string, after: string)
    requires '|' in s
    ensures s == before + "|" + after
  {
    var i :| 0 <= i < |s| && s[i] == '|';
    before, after := s[..i], s[i + 1..];
  }

  // ---- Who is served what ---------------------------------------------------------

  /** What callers of fetch do to the cache, interleaved in any way: a lookup, and later
      the store of what was fetched. */
  datatype Event =
    | Looked(ask: Ask, ttl: int, at: Time)
    | Stored(ask: Ask, value: string, size: nat, at: Time)

  function OpOf(digest: string -> string, e: Event): Op {
    match e
    case Looked(ask, ttl, at) => Get(CacheKey(digest, ask), ttl, at)
    case Stored(ask, value, size, at) => Put(Entry(CacheKey(digest, ask), value, at, size))
  }

  function OpsOf(digest: string -> string, events: seq<Event>): (ops: seq<Op>)
    ensures |ops| == |events|
  {
    if events == [] then []
    else OpsOf(digest, events[..|events| - 1]) + [OpOf(digest, events[|events| - 1])]
  }

  /** What the cache answers an ask after a run. */
  function Served(digest: string -> string, b: Bounds, events: seq<Event>, ask: Ask, ttl: int, now: Time): Option<string> {
    AfterGet(Held(b, OpsOf(digest, events)), CacheKey(digest, ask), ttl, now).1
  }

  /** The last store of the run for this ask, or one alike. */
  ghost predicate LastStoredAt(events: seq<Event>, ask: Ask, i: nat) {
    && i < |events| && events[i].Stored? && Alike(events[i].ask, ask)
    && (forall k | i < k < |events| && events[k].Stored? :: !Alike(events[k].ask, ask))
  }

  lemma {:induction false} LatestPutStep(digest: string -> string, events: seq<Event>, ask: Ask)
    requires IsDigest(digest) && events != []
    ensures var e, key := events[|events| - 1], CacheKey(digest, ask);
            LatestPut(OpsOf(digest, events), key) ==
            if e.Stored? && Alike(e.ask, ask) then Some(Entry(key, e.value, e.at, e.size))
            else LatestPut(OpsOf(digest, events[..|events| - 1]), key)
  {
    var n := |events| - 1;
    assert OpsOf(digest, events)[..n] == OpsOf(digest, events[..n]);
    CacheKeyDecides(digest, events[n].ask, ask);
  }

  lemma {:induction false} LatestPutIsLastStored(digest: string -> string, events: seq<Event>, ask: Ask) returns (i: nat)
    requires IsDigest(digest) && LatestPut(OpsOf(digest, events), CacheKey(digest, ask)).Some?
    ensures LastStoredAt(events, ask, i)
    ensures LatestPut(OpsOf(digest, events), CacheKey(digest, ask)) ==
            Some(Entry(CacheKey(digest, ask), events[i].value, events[i].at, events[i].size))
  {
    var n := |events| - 1;
    LatestPutStep(digest, events, ask);
    i := n;
    if !events[n].Stored? || !Alike(events[n].ask, ask) {
      i := LatestPutIsLastStored(digest, events[..n], ask);
    }
  }

  /** A hit goes only to the client that would have fetched it: it is the value of the
      last store for an ask alike, younger than the ttl, whatever else ran between. */
  lemma {:induction false} ServedWasStoredFor(digest: string -> string, b: Bounds, events: seq<Event>, ask: Ask, ttl: int, now: Time) returns (i: nat)
    requires IsDigest(digest) && b.maxBytes >= 0 && Served(digest, b, events, ask, ttl, now).Some?
    ensures LastStoredAt(events, ask, i)
    ensures Served(digest, b, events, ask, ttl, now) == Some(events[i].value) && now - events[i].at < ttl
    ensures NoBars(ask) && NoBars(events[i].ask) ==> events[i].ask == ask
  {
    HitIsTheLatestPut(b, OpsOf(digest, events), CacheKey(digest, ask), ttl, now);
    i := LatestPutIsLastStored(digest, events, ask);
    if NoBars(ask) && NoBars(events[i].ask) {
      AlikeWithoutBars(events[i].ask, ask);
    }
  }

  /** Some run that stores for one ask alone serves another. */
  ghost predicate CanBeServedFor(digest: string -> string, b: Bounds, stored: Ask, ask: Ask) {
    exists events: seq<Event>, ttl: int, now: Time ::
      (forall e | e in events && e.Stored? :: e.ask == stored) && Served(digest, b, events, ask, ttl, now).Some?
  }

  /** Exactly: what is stored for one ask is served to another if and only if they are
      alike, same client included. */
  lemma {:induction false} ServedIffAlike(digest: string -> string, b: Bounds, stored: Ask, ask: Ask)
    requires IsDigest(digest) && b.maxBytes >= 0 && b.maxEntries >= 1
    ensures CanBeServedFor(digest, b, stored, ask) <==> Alike(stored, ask)
  {
    if CanBeServedFor(digest, b, stored, ask) {
      var events: seq<Event>, ttl: int, now: Time :|
        (forall e | e in events && e.Stored? :: e.ask == stored) && Served(digest, b, events, ask, ttl, now).Some?;
      var i := ServedWasStoredFor(digest, b, events, ask, ttl, now);
      assert events[i] in events;
    }
    if Alike(stored, ask) {
      CacheKeyDecides(digest, stored, ask);
      var e := Stored(stored, "", 0, 0);
      var put := Entry(CacheKey(digest, ask), "", 0, 0);
      assert OpsOf(digest, [e]) == [Put(put)];
      assert Held(b, [Put(put)]) == [put] by {
        assert [Put(put)][..0] == [];
        assert Fits(b, [put] + []);
      }
      assert Served(digest, b, [e], ask, 1, 0).Some?;
    }
  }
}
