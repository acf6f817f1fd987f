/**
  Whether a signed job was meant for this node (cmd/halite-node/jobsignature.go,
  matchesSignedTarget and signedTargetPillar, over the matcher of
  internal/target/compound.go). Pillar is compiled only when a pillar term is
  actually evaluated, and a compilation that fails must not pass for an empty
  pillar.
*/
module SignedTarget {
  import opened Basics

  type Pillar = map<string, string>

  /** `Own` terms read the node's name, list, addresses or grains. */
  datatype Expr =
    | Own(term: string)
    | FromPillar(term: string)
    | Not(inner: Expr)
    | Any(terms: seq<Expr>)
    | All(terms: seq<Expr>)

  /** How this node's terms read, and whether its pillar compiles. */
  datatype Self = Self(own: string -> bool, inPillar: (string, Pillar) -> bool, pillar: Option<Pillar>)

  /** What an expression means of a given pillar. */
  predicate Meaning(self: Self, e: Expr, p: Pillar) {
    match e
    case Own(term) => self.own(term)
    case FromPillar(term) => self.inPillar(term, p)
    case Not(inner) => !Meaning(self, inner, p)
    case Any(terms) => exists i | 0 <= i < |terms| :: Meaning(self, terms[i], p)
    case All(terms) => forall i | 0 <= i < |terms| :: Meaning(self, terms[i], p)
  }

  /** Whether a left-to-right, short-circuiting evaluation reaches a pillar term. */
  predicate Reaches(self: Self, e: Expr, p: Pillar)
    decreases e, 0
  {
    match e
    case Own(_) => false
    case FromPillar(_) => true
    case Not(inner) => Reaches(self, inner, p)
    case Any(terms) => ReachesUntil(self, terms, p, true)
    case All(terms) => ReachesUntil(self, terms, p, false)
  }

  /** The same along a chain that stops at the first term whose value is `stop`. */
  predicate ReachesUntil(self: Self, terms: seq<Expr>, p: Pillar, stop: bool)
    decreases terms, 1
  {
    terms != [] &&
    (Reaches(self, terms[0], p) || (Meaning(self, terms[0], p) != stop && ReachesUntil(self, terms[1..], p, stop)))
  }

  /** The pillar a matcher sees: a failure reads as an empty one. */
  function Seen(self: Self): Pillar {
    if self.pillar.Some? then self.pillar.value else map[]
  }

  // ---- The lazy loader and the matcher ------------------------------------------------

  class Loader {
    const self: Self
    var loaded: bool
    var failed: bool
    var compiled: Pillar

    constructor (self: Self)
      ensures Valid() && this.self == self && !loaded
    {
      this.self := self;
      loaded, failed, compiled := false, false, map[];
    }

    ghost predicate Valid()
      reads this
    {
      && (failed <==> loaded && self.pillar.None?)
      && (loaded ==> compiled == Seen(self))
    }

    method Load() returns (p: Pillar)
      requires Valid()
      modifies `loaded, `failed, `compiled
      ensures Valid() && loaded && p == Seen(self)
    {
      if !loaded {
        loaded := true;
        if self.pillar.None? {
          failed, compiled := true, map[];
        } else {
          compiled := self.pillar.value;
        }
      }
      p := compiled;
    }

    /** The matcher's answer, and exactly when it asked for the pillar. */
    method Match(e: Expr) returns (hit: bool)
      requires Valid()
      modifies `loaded, `failed, `compiled
      ensures Valid() && hit == Meaning(self, e, Seen(self))
      ensures loaded <==> old(loaded) || Reaches(self, e, Seen(self))
      decreases e, 0
    {
      match e {
        case Own(term) => hit := self.own(term);
        case FromPillar(term) =>
          var p := Load();
          hit := self.inPillar(term, p);
        case Not(inner) =>
          var h := Match(inner);
          hit := !h;
        case Any(terms) => hit := Chain(terms, true);
        case All(terms) =>
          var stopped := Chain(terms, false);
          hit := !stopped;
      }
    }

    /** anyNode's and allNode's loop: whether some term has the value that stops it. */
    method Chain(terms: seq<Expr>, stop: bool) returns (stopped: bool)
      requires Valid()
      modifies `loaded, `failed, `compiled
      ensures Valid()
      ensures stopped <==> exists i | 0 <= i < |terms| :: Meaning(self, terms[i], Seen(self)) == stop
      ensures loaded <==> old(loaded) || ReachesUntil(self, terms, Seen(self), stop)
      decreases terms, 1
    {
      var i := 0;
      while i < |terms|
        invariant 0 <= i <= |terms| && Valid()
        invariant forall j | 0 <= j < i :: Meaning(self, terms[j], Seen(self)) != stop
        invariant (loaded || ReachesUntil(self, terms[i..], Seen(self), stop)) <==>
                  (old(loaded) || ReachesUntil(self, terms, Seen(self), stop))
      {
        assert terms[i..][0] == terms[i] && terms[i..][1..] == terms[i + 1..];
        var h := Match(terms[i]);
        if h == stop {
          return true;
        }
        i := i + 1;
      }
      stopped := false;
    }
  }

  /** matchesSignedTarget, once the target has parsed: a failure to load the pillar
      refuses, whichever way the match came out. */
  method Accepts(self: Self, e: Expr) returns (ok: bool)
    ensures ok == Accepted(self, e)
  {
    var loader := new Loader(self);
    var hit := loader.Match(e);
    ok := !loader.failed && hit;
  }

  predicate Accepted(self: Self, e: Expr) {
    Meaning(self, e, Seen(self)) && !(self.pillar.None? && Reaches(self, e, Seen(self)))
  }

  // ---- What acceptance means ---------------------------------------------------------------

  /** What was decided without looking at a pillar is true, or false, of every pillar. */
  lemma {:induction false} UnreadMeansIndependent(self: Self, e: Expr, p: Pillar, q: Pillar)
    requires !Reaches(self, e, p)
    ensures Meaning(self, e, p) == Meaning(self, e, q) && !Reaches(self, e, q)
    decreases e, 0
  {
    match e {
      case Own(_) =>
      case FromPillar(_) =>
      case Not(inner) => UnreadMeansIndependent(self, inner, p, q);
      case Any(terms) => UnreadChain(self, terms, p, q, true);
      case All(terms) => UnreadChain(self, terms, p, q, false);
    }
  }

  lemma {:induction false} UnreadChain(self: Self, terms: seq<Expr>, p: Pillar, q: Pillar, stop: bool)
    requires !ReachesUntil(self, terms, p, stop)
    ensures !ReachesUntil(self, terms, q, stop)
    ensures (exists i | 0 <= i < |terms| :: Meaning(self, terms[i], p) == stop) <==>
            (exists i | 0 <= i < |terms| :: Meaning(self, terms[i], q) == stop)
    decreases terms, 1
  {
    if terms != [] {
      UnreadMeansIndependent(self, terms[0], p, q);
      var rest := terms[1..];
      if Meaning(self, terms[0], p) != stop {
        UnreadChain(self, rest, p, q, stop);
        assert forall i | 0 < i < |terms| :: terms[i] == rest[i - 1];
        assert forall i | 0 <= i < |rest| :: rest[i] == terms[i + 1];
      }
    }
  }

  /** A node whose pillar compiles accepts exactly what is true of it. One whose pillar
      does not accepts exactly what it can decide without one, and that is true whatever
      its pillar would have been. */
  lemma {:induction false} AcceptsOnlyWhatIsTrue(self: Self, e: Expr)
    ensures self.pillar.Some? ==> (Accepted(self, e) <==> Meaning(self, e, self.pillar.value))
    ensures self.pillar.None? && Accepted(self, e) ==> forall p :: Meaning(self, e, p)
    ensures self.pillar.None? ==> (Accepted(self, e) <==> forall p :: Meaning(self, e, p) && !Reaches(self, e, p))
  {
    if self.pillar.None? {
      var none := Seen(self);
      if Reaches(self, e, none) {
        assert !(Meaning(self, e, none) && !Reaches(self, e, none));
      } else {
        forall p: Pillar
          ensures Meaning(self, e, p) == Meaning(self, e, none) && !Reaches(self, e, p)
        {
          UnreadMeansIndependent(self, e, none, p);
        }
        assert (Meaning(self, e, none) && !Reaches(self, e, none)) == Accepted(self, e);
      }
    }
  }

  /** Why the failure has to be remembered: read as an empty pillar, it makes a negated
      term true of a node it is false of. */
  lemma {:induction false} EmptyPillarWouldLie() returns (self: Self, e: Expr, actual: Pillar)
    ensures self.pillar.None? && Meaning(self, e, Seen(self)) && !Meaning(self, e, actual) && !Accepted(self, e)
  {
    self := Self((term: string) => false, (term: string, p: Pillar) => term in p, None);
    e := Not(FromPillar("role"));
    actual := map["role" := "db"];
    assert self.inPillar("role", actual);
    assert Meaning(self, FromPillar("role"), actual);
    assert !self.inPillar("role", map[]);
    assert !Meaning(self, FromPillar("role"), map[]);
  }
}
