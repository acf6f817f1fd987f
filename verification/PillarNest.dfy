/**
  Assembling one pillar from many secrets
  (cmd/halite-ext-aws-secrets/main.go, handle, and config.go, nest). Keys are
  dotted paths; `nest` builds maps for them in place. A fetched value may be a
  map itself, shared with the cache and with other pillars, so nothing may be
  written into one.
*/
module PillarNest {
  import opened Basics
  import opened Texts

  type Path = seq<string>

  /** A Go map[string]any. */
  class Node {
    var children: map<string, Item>

    constructor ()
      ensures children == map[]
    {
      children := map[];
    }
  }

  datatype Item = Leaf(text: string) | Dir(node: Node)

  /** Reading a path: what `a.b.c` names below a map. */
  ghost function Walk(n: Node, path: Path): Option<Item>
    requires path != []
    reads *
    decreases |path|
  {
    if path[0] !in n.children then None
    else
      var child := n.children[path[0]];
      if |path| == 1 then Some(child)
      else if child.Dir? then Walk(child.node, path[1..])
      else None
  }

  // ---- The tree being built -------------------------------------------------------

  /** A child of a built map is the next built map, or a value put there, or nothing. */
  ghost predicate ChildHolds(dirs: map<Path, Node>, leaves: map<Path, Item>, p: Path, c: string)
    requires p in dirs
    reads dirs.Values
  {
    var below := p + [c];
    && (c in dirs[p].children <==> below in dirs || below in leaves)
    && (below in dirs ==> dirs[p].children[c] == Dir(dirs[below]))
    && (below in leaves && below !in dirs ==> dirs[p].children[c] == leaves[below])
  }

  /** `dirs` are the maps built so far, by path, and `leaves` what has been put in them. */
  ghost predicate Built(root: Node, dirs: map<Path, Node>, leaves: map<Path, Item>)
    reads dirs.Values
  {
    && [] in dirs && dirs[[]] == root
    && dirs.Keys !! leaves.Keys
    && (forall p | (p in dirs || p in leaves) && p != [] :: Parent(p) in dirs)
    && (forall p, q | p in dirs && q in dirs && dirs[p] == dirs[q] :: p == q)
    && (forall p, c | p in dirs :: ChildHolds(dirs, leaves, p, c))
  }

  function Parent(p: Path): Path
    requires p != []
  {
    p[..|p| - 1]
  }

  /** The first n maps a path passes through, the root included. */
  ghost function Passed(path: Path, n: nat): set<Path>
    requires n <= |path|
  {
    if n == 0 then {} else Passed(path, n - 1) + {path[..n - 1]}
  }

  /** One more empty map at the end of a path already built. */
  method Grow(ghost root: Node, cur: Node, part: string,
              ghost dirs: map<Path, Node>, ghost leaves: map<Path, Item>, ghost p: Path)
    returns (next: Node, ghost grown: map<Path, Node>)
    requires Built(root, dirs, leaves) && p in dirs && dirs[p] == cur
    requires p + [part] !in leaves
    modifies dirs.Values
    ensures grown == dirs[p + [part] := next]
    ensures Built(root, grown, leaves)
    ensures p + [part] in dirs ==> grown == dirs
    ensures p + [part] !in dirs ==> fresh(next)
  {
    ghost var below := p + [part];
    assert ChildHolds(dirs, leaves, p, part);
    if part in cur.children && cur.children[part].Dir? {
      next := cur.children[part].node;
      grown := dirs;
      assert grown == dirs[below := next];
    } else {
      next := new Node();
      cur.children := cur.children[part := Dir(next)];
      grown := dirs[below := next];
      assert Parent(below) == p;
      forall q, c | q in grown
        ensures ChildHolds(grown, leaves, q, c)
      {
        if q == below {
          assert Parent(below + [c]) == below;
        } else {
          assert old(ChildHolds(dirs, leaves, q, c));
          assert q + [c] == below ==> Parent(q + [c]) == q == p;
        }
      }
    }
  }

  method PutLeaf(ghost root: Node, cur: Node, part: string, v: Item,
                 ghost dirs: map<Path, Node>, ghost leaves: map<Path, Item>, ghost p: Path)
    requires Built(root, dirs, leaves) && p in dirs && dirs[p] == cur
    requires p + [part] !in dirs
    modifies cur
    ensures Built(root, dirs, leaves[p + [part] := v])
  {
    ghost var at := p + [part];
    ghost var put := leaves[at := v];
    cur.children := cur.children[part := v];
    assert Parent(at) == p;
    forall q, c | q in dirs
      ensures ChildHolds(dirs, put, q, c)
    {
      assert old(ChildHolds(dirs, leaves, q, c));
      assert q + [c] == at ==> Parent(q + [c]) == q == p;
    }
  }

  /** The inner loop of `nest`: down a path, building what is missing. */
  method Descend(ghost root: Node, top: Node, path: Path, n: nat, ghost dirs: map<Path, Node>, ghost leaves: map<Path, Item>)
    returns (cur: Node, ghost grown: map<Path, Node>)
    requires Built(root, dirs, leaves) && top == root && n < |path|
    requires forall i | 0 <= i <= n :: path[..i] !in leaves
    modifies dirs.Values
    ensures Built(root, grown, leaves)
    ensures path[..n] in grown && grown[path[..n]] == cur
    ensures grown.Keys == dirs.Keys + Passed(path, n + 1)
    ensures forall p | p in grown :: (p in dirs && grown[p] == dirs[p]) || fresh(grown[p])
  {
    cur := top;
    grown := dirs;
    assert path[..0] == [];
    assert Passed(path, 1) == {[]};
    for i := 0 to n
      invariant Built(root, grown, leaves)
      invariant path[..i] in grown && grown[path[..i]] == cur
      invariant grown.Keys == dirs.Keys + Passed(path, i + 1)
      invariant forall p | p in grown :: (p in dirs && grown[p] == dirs[p]) || fresh(grown[p])
    {
      assert path[..i] + [path[i]] == path[..i + 1];
      cur, grown := Grow(root, cur, path[i], grown, leaves, path[..i]);
    }
  }

  // ---- Keys that fit together ------------------------------------------------------

  function KeySet(order: seq<string>): set<string> {
    set k | k in order
  }

  /** handle's overlap test, on every pair. */
  predicate FitTogether(keys: set<string>) {
    forall a, b | a in keys && b in keys :: !HasPrefix(b, a + ".")
  }

  ghost predicate NoRepeats(order: seq<string>) {
    forall i, j | 0 <= i < j < |order| :: order[i] != order[j]
  }

  /** Exactly the keys' values, by path. */
  ghost predicate AreLeaves(leaves: map<Path, Item>, flat: map<string, Item>, keys: set<string>) {
    && keys <= flat.Keys
    && (forall k | k in keys :: Split(k) in leaves && leaves[Split(k)] == flat[k])
    && (forall p | p in leaves :: exists k | k in keys :: Split(k) == p)
  }

  /** A path some key passes through. */
  ghost predicate IsDir(keys: set<string>, p: Path) {
    p == [] || exists k | k in keys :: ProperPrefix(p, Split(k))
  }

  /** Built for exactly these keys: a map where a key passes through, the key's value
      where it ends, and nothing anywhere else. */
  ghost predicate Nested(root: Node, tree: Tree, flat: map<string, Item>, keys: set<string>)
    reads tree.dirs.Values
  {
    && Built(root, tree.dirs, tree.leaves)
    && AreLeaves(tree.leaves, flat, keys)
    && (forall p :: p in tree.dirs <==> IsDir(keys, p))
  }

  /** What a nesting built, by path. */
  datatype Tree = Tree(dirs: map<Path, Node>, leaves: map<Path, Item>)

  lemma {:induction false} PassedAre(path: Path, n: nat, p: Path)
    requires n <= |path|
    ensures p in Passed(path, n) <==> |p| < n && p <= path
  {
    if n > 0 {
      PassedAre(path, n - 1, p);
      assert |p| == n - 1 && p <= path ==> p == path[..n - 1];
    }
  }

  /** A key that fits has its place free and no value in its way. */
  lemma {:induction false} PlaceIsFree(leaves: map<Path, Item>, flat: map<string, Item>, keys: set<string>, key: string)
    requires AreLeaves(leaves, flat, keys) && key !in keys && FitTogether(keys + {key})
    ensures !IsDir(keys, Split(key)) && Split(key) !in leaves
    ensures forall i | 0 <= i < |Split(key)| :: Split(key)[..i] !in leaves
  {
    var path := Split(key);
    forall k | k in keys
      ensures !ProperPrefix(path, Split(k)) && !ProperPrefix(Split(k), path) && Split(k) != path
    {
      DottedPrefixIsPathPrefix(key, k);
      DottedPrefixIsPathPrefix(k, key);
      if Split(k) == path {
        SplitInjective(k, key);
      }
    }
  }

  lemma {:induction false} LeavesGrow(leaves: map<Path, Item>, flat: map<string, Item>, keys: set<string>, key: string)
    requires AreLeaves(leaves, flat, keys) && key in flat
    ensures AreLeaves(leaves[Split(key) := flat[key]], flat, keys + {key})
  {
    var more := leaves[Split(key) := flat[key]];
    forall k | k in keys + {key}
      ensures Split(k) in more && more[Split(k)] == flat[k]
    {
      if Split(k) == Split(key) {
        SplitInjective(k, key);
      }
    }
    forall p | p in more
      ensures exists k | k in keys + {key} :: Split(k) == p
    {
      if p == Split(key) {
        assert key in keys + {key};
      } else {
        var k :| k in keys && Split(k) == p;
        assert k in keys + {key};
      }
    }
  }

  lemma {:induction false} LeavesAreUnique(a: map<Path, Item>, b: map<Path, Item>, flat: map<string, Item>, keys: set<string>)
    requires AreLeaves(a, flat, keys) && AreLeaves(b, flat, keys)
    ensures a == b
  {
    forall p
      ensures (p in a <==> p in b) && (p in a ==> a[p] == b[p])
    {
      if p in a {
        var k :| k in keys && Split(k) == p;
      }
      if p in b {
        var k :| k in keys && Split(k) == p;
      }
    }
  }

  lemma {:induction false} DirsGrow(keys: set<string>, key: string, p: Path)
    ensures IsDir(keys + {key}, p) <==> IsDir(keys, p) || p in Passed(Split(key), |Split(key)|)
  {
    var path := Split(key);
    PassedAre(path, |path|, p);
    if IsDir(keys, p) && p != [] {
      var k :| k in keys && ProperPrefix(p, Split(k));
      assert k in keys + {key};
    }
    if p in Passed(path, |path|) {
      assert key in keys + {key} && ProperPrefix(p, path);
    }
  }

  lemma {:induction false} AllDirsGrow(keys: set<string>, key: string, dirs: set<Path>, grown: set<Path>)
    requires forall p :: p in dirs <==> IsDir(keys, p)
    requires grown == dirs + Passed(Split(key), |Split(key)|)
    ensures forall p :: p in grown <==> IsDir(keys + {key}, p)
  {
    forall p
      ensures p in grown <==> IsDir(keys + {key}, p)
    {
      DirsGrow(keys, key, p);
    }
  }

  /** One turn of nest's loop, as it builds. */
  method Hang(root: Node, path: Path, v: Item, ghost dirs: map<Path, Node>, ghost leaves: map<Path, Item>)
    returns (ghost grown: map<Path, Node>)
    requires Built(root, dirs, leaves) && path != [] && path !in dirs
    requires forall i | 0 <= i < |path| :: path[..i] !in leaves
    modifies dirs.Values
    ensures Built(root, grown, leaves[path := v])
    ensures grown.Keys == dirs.Keys + Passed(path, |path|)
    ensures forall p | p in grown :: (p in dirs && grown[p] == dirs[p]) || fresh(grown[p])
  {
    var n := |path| - 1;
    var cur;
    cur, grown := Descend(root, root, path, n, dirs, leaves);
    assert path[..n] + [path[n]] == path;
    PassedAre(path, |path|, path);
    PutLeaf(root, cur, path[n], v, grown, leaves, path[..n]);
  }

  /** And what that makes of the keys so far. */
  method Place(root: Node, ghost tree: Tree, flat: map<string, Item>, ghost keys: set<string>, key: string)
    returns (ghost grown: Tree)
    requires Nested(root, tree, flat, keys)
    requires key in flat && key !in keys && FitTogether(keys + {key})
    modifies tree.dirs.Values
    ensures Nested(root, grown, flat, keys + {key})
    ensures forall p | p in grown.dirs :: (p in tree.dirs && grown.dirs[p] == tree.dirs[p]) || fresh(grown.dirs[p])
  {
    var parts := Split(key);
    PlaceIsFree(tree.leaves, flat, keys, key);
    LeavesGrow(tree.leaves, flat, keys, key);
    ghost var dirs := Hang(root, parts, flat[key], tree.dirs, tree.leaves);
    AllDirsGrow(keys, key, tree.dirs.Keys, dirs.Keys);
    grown := Tree(dirs, tree.leaves[parts := flat[key]]);
  }

  /** No `modifies` clause: whatever maps existed before, fetched values among them,
      are as they were. */
  method Nest(flat: map<string, Item>, order: seq<string>) returns (root: Node, ghost tree: Tree)
    requires KeySet(order) <= flat.Keys && NoRepeats(order) && FitTogether(KeySet(order))
    ensures Nested(root, tree, flat, KeySet(order))
    ensures forall p | p in tree.dirs :: fresh(tree.dirs[p])
    ensures forall key | key in order :: Walk(root, Split(key)) == Some(flat[key])
  {
    root := new Node();
    tree := Tree(map[[] := root], map[]);
    EmptyIsNested(root, flat);
    for i := 0 to |order|
      invariant Nested(root, tree, flat, KeySet(order[..i]))
      invariant forall p | p in tree.dirs :: fresh(tree.dirs[p])
    {
      OneKeyMore(order, i);
      tree := Place(root, tree, flat, KeySet(order[..i]), order[i]);
    }
    assert order[..|order|] == order;
    AllKeysReadBack(root, tree, flat, order);
  }

  lemma {:induction false} EmptyIsNested(root: Node, flat: map<string, Item>)
    requires root.children == map[]
    ensures Nested(root, Tree(map[[] := root], map[]), flat, KeySet([]))
  {
    var dirs: map<Path, Node> := map[[] := root];
    forall p, c | p in dirs
      ensures ChildHolds(dirs, map[], p, c)
    {
      assert p + [c] != [];
    }
    assert KeySet([]) == {};
  }

  lemma {:induction false} OneKeyMore(order: seq<string>, i: nat)
    requires i < |order| && NoRepeats(order) && FitTogether(KeySet(order))
    ensures KeySet(order[..i + 1]) == KeySet(order[..i]) + {order[i]}
    ensures order[i] !in KeySet(order[..i]) && FitTogether(KeySet(order[..i]) + {order[i]})
    ensures order[i] in KeySet(order)
  {
    assert order[..i + 1] == order[..i] + [order[i]];
    assert forall k | k in KeySet(order[..i]) + {order[i]} :: k in KeySet(order);
  }

  lemma {:induction false} AllKeysReadBack(root: Node, tree: Tree, flat: map<string, Item>, order: seq<string>)
    requires Nested(root, tree, flat, KeySet(order))
    ensures forall key | key in order :: Walk(root, Split(key)) == Some(flat[key])
  {
    forall key | key in order
      ensures Walk(root, Split(key)) == Some(flat[key])
    {
      EachKeyReadsBack(root, tree, flat, KeySet(order), key);
    }
  }

  // ---- Reading it back ----------------------------------------------------------------

  lemma {:induction false} AncestorsAreDirs(root: Node, dirs: map<Path, Node>, leaves: map<Path, Item>, p: Path, n: nat)
    requires Built(root, dirs, leaves) && (p in dirs || p in leaves) && n < |p|
    ensures p[..n] in dirs
  {
    if n < |p| - 1 {
      AncestorsAreDirs(root, dirs, leaves, Parent(p), n);
      assert Parent(p)[..n] == p[..n];
    }
  }

  /** A path that goes on goes through a built map. */
  lemma {:induction false} FirstStep(root: Node, dirs: map<Path, Node>, leaves: map<Path, Item>, p: Path, q: Path)
    requires Built(root, dirs, leaves) && p in dirs && |q| > 1 && (p + q in leaves || p + q in dirs)
    ensures p + [q[0]] in dirs && (p + [q[0]]) + q[1..] == p + q
    ensures q[0] in dirs[p].children && dirs[p].children[q[0]] == Dir(dirs[p + [q[0]]])
  {
    AncestorsAreDirs(root, dirs, leaves, p + q, |p| + 1);
    assert (p + q)[..|p| + 1] == p + [q[0]];
    assert ChildHolds(dirs, leaves, p, q[0]);
  }

  lemma {:induction false} LeafReadsBack(root: Node, dirs: map<Path, Node>, leaves: map<Path, Item>, p: Path, q: Path)
    requires Built(root, dirs, leaves) && p in dirs && q != [] && p + q in leaves
    ensures Walk(dirs[p], q) == Some(leaves[p + q])
    decreases |q|
  {
    if |q| == 1 {
      assert ChildHolds(dirs, leaves, p, q[0]);
      assert p + [q[0]] == p + q;
    } else {
      FirstStep(root, dirs, leaves, p, q);
      LeafReadsBack(root, dirs, leaves, p + [q[0]], q[1..]);
    }
  }

  /** Walking a key's own path yields exactly that key's value. */
  lemma {:induction false} EachKeyReadsBack(root: Node, tree: Tree, flat: map<string, Item>, keys: set<string>, key: string)
    requires Nested(root, tree, flat, keys) && key in keys
    ensures Walk(root, Split(key)) == Some(flat[key])
  {
    assert [] + Split(key) == Split(key);
    LeafReadsBack(root, tree.dirs, tree.leaves, [], Split(key));
  }

  lemma {:induction false} SameBelow(
    root: Node, dirs: map<Path, Node>, other: Node, others: map<Path, Node>, leaves: map<Path, Item>, p: Path, q: Path)
    requires Built(root, dirs, leaves) && Built(other, others, leaves) && dirs.Keys == others.Keys
    requires p in dirs && q != []
    ensures if p + q in dirs then Walk(dirs[p], q) == Some(Dir(dirs[p + q])) && Walk(others[p], q) == Some(Dir(others[p + q]))
            else Walk(dirs[p], q) == Walk(others[p], q)
    decreases |q|
  {
    var below := p + [q[0]];
    assert ChildHolds(dirs, leaves, p, q[0]) && ChildHolds(others, leaves, p, q[0]);
    if |q| == 1 {
      assert below == p + q;
    } else {
      assert below + q[1..] == p + q;
      assert (p + q)[..|p| + 1] == below;
      if p + q in dirs {
        AncestorsAreDirs(root, dirs, leaves, p + q, |p| + 1);
      }
      if below in dirs {
        SameBelow(root, dirs, other, others, leaves, below, q[1..]);
      }
    }
  }

  /** The order of the keys does not matter: two nestings of the same keys read the
      same at every path, the maps built on the way apart. */
  lemma {:induction false} OrderDoesNotMatter(
    root: Node, tree: Tree, other: Node, others: Tree, flat: map<string, Item>, keys: set<string>, q: Path)
    requires Nested(root, tree, flat, keys) && Nested(other, others, flat, keys) && q != []
    ensures if IsDir(keys, q)
            then Walk(root, q) == Some(Dir(tree.dirs[q])) && Walk(other, q) == Some(Dir(others.dirs[q]))
            else Walk(root, q) == Walk(other, q)
  {
    assert tree.dirs.Keys == others.dirs.Keys by {
      forall p ensures p in tree.dirs <==> p in others.dirs {
        assert p in tree.dirs <==> IsDir(keys, p);
      }
    }
    LeavesAreUnique(tree.leaves, others.leaves, flat, keys);
    assert [] + q == q;
    SameBelow(root, tree.dirs, other, others.dirs, tree.leaves, [], q);
  }

  // ---- handle ---------------------------------------------------------------------------

  /** A pillar key, what regionFor answered for its secret, and what fetching it gave. */
  datatype Secret = Secret(key: string, region: Option<string>, fetched: Option<Item>)

  datatype Outcome =
    | Nothing
    | Gathered(flat: map<string, Item>, order: seq<string>)
    | RegionRefused(at: nat)
    | NoRegion(at: nat)
    | Duplicate(at: nat)
    | Overlap(at: nat, with: nat)
    | NotFetched(at: nat)

  function Keys(secrets: seq<Secret>): seq<string> {
    seq(|secrets|, i requires 0 <= i < |secrets| => secrets[i].key)
  }

  predicate Overlaps(a: string, b: string) {
    HasPrefix(a, b + ".") || HasPrefix(b, a + ".")
  }

  predicate HasRegion(s: Secret) {
    s.region.Some? && s.region.value != ""
  }

  /** The first secrets all have a region and are fetched, under keys that fit together. */
  ghost predicate GoodUpTo(secrets: seq<Secret>, n: nat)
    requires n <= |secrets|
  {
    && (forall i | 0 <= i < n :: HasRegion(secrets[i]) && secrets[i].fetched.Some?)
    && (forall i, j | 0 <= i < j < n :: secrets[i].key != secrets[j].key && !Overlaps(secrets[i].key, secrets[j].key))
  }

  ghost predicate Holds(flat: map<string, Item>, secrets: seq<Secret>) {
    forall i | 0 <= i < |secrets| :: secrets[i].key in flat && Some(flat[secrets[i].key]) == secrets[i].fetched
  }

  ghost predicate GatheredUpTo(secrets: seq<Secret>, n: nat, flat: map<string, Item>, order: seq<string>) {
    && n <= |secrets| && GoodUpTo(secrets, n)
    && |order| == n && (forall j | 0 <= j < n :: order[j] == secrets[j].key)
    && flat.Keys == KeySet(order) && Holds(flat, secrets[..n])
  }

  lemma {:induction false} KeepOne(secrets: seq<Secret>, n: nat, flat: map<string, Item>, order: seq<string>)
    requires GatheredUpTo(secrets, n, flat, order) && n < |secrets|
    requires HasRegion(secrets[n]) && secrets[n].fetched.Some? && secrets[n].key !in flat
    requires forall k | 0 <= k < n :: !Overlaps(order[k], secrets[n].key)
    ensures GatheredUpTo(secrets, n + 1, flat[secrets[n].key := secrets[n].fetched.value], order + [secrets[n].key])
  {
    var more, longer := flat[secrets[n].key := secrets[n].fetched.value], order + [secrets[n].key];
    assert more.Keys == KeySet(longer);
    forall j | 0 <= j < n + 1
      ensures secrets[j].key in more && Some(more[secrets[j].key]) == secrets[j].fetched
    {
      if j < n {
        assert secrets[..n][j] == secrets[j] && order[j] in order;
      }
    }
  }

  /** handle's loop refuses the first secret that has no region it may use, repeats a key,
      overlaps one, or cannot be fetched, and otherwise keeps every one. */
  method Gather(secrets: seq<Secret>) returns (r: Outcome)
    ensures match r
            case Nothing => false
            case RegionRefused(at) =>
              at < |secrets| && GoodUpTo(secrets, at) && secrets[at].region.None?
            case NoRegion(at) =>
              at < |secrets| && GoodUpTo(secrets, at) && secrets[at].region == Some("")
            case Gathered(flat, order) =>
              && GoodUpTo(secrets, |secrets|) && order == Keys(secrets)
              && flat.Keys == KeySet(order)
              && Holds(flat, secrets)
            case Duplicate(at) =>
              && at < |secrets| && GoodUpTo(secrets, at) && HasRegion(secrets[at])
              && exists j | 0 <= j < at :: secrets[j].key == secrets[at].key
            case Overlap(at, with) =>
              && with < at < |secrets| && GoodUpTo(secrets, at) && HasRegion(secrets[at])
              && Overlaps(secrets[with].key, secrets[at].key)
              && forall j | 0 <= j < with :: !Overlaps(secrets[j].key, secrets[at].key)
            case NotFetched(at) =>
              at < |secrets| && GoodUpTo(secrets, at) && HasRegion(secrets[at]) && secrets[at].fetched.None?
  {
    var flat: map<string, Item> := map[];
    var order: seq<string> := [];
    for i := 0 to |secrets|
      invariant GatheredUpTo(secrets, i, flat, order)
    {
      var s := secrets[i];
      if s.region.None? {
        return RegionRefused(i);
      }
      if s.region.value == "" {
        return NoRegion(i);
      }
      if s.key in flat {
        return Duplicate(i);
      }
      var clash := FindOverlap(order, s.key);
      if clash.Some? {
        return Overlap(i, clash.value);
      }
      if s.fetched.None? {
        return NotFetched(i);
      }
      KeepOne(secrets, i, flat, order);
      flat := flat[s.key := s.fetched.value];
      order := order + [s.key];
    }
    assert secrets[..|secrets|] == secrets;
    assert order == Keys(secrets);
    r := Gathered(flat, order);
  }

  method FindOverlap(order: seq<string>, key: string) returns (r: Option<nat>)
    ensures r.Some? ==> r.value < |order| && Overlaps(order[r.value], key) && forall k | 0 <= k < r.value :: !Overlaps(order[k], key)
    ensures r.None? ==> forall k | 0 <= k < |order| :: !Overlaps(order[k], key)
  {
    for j := 0 to |order|
      invariant forall k | 0 <= k < j :: !Overlaps(order[k], key)
    {
      if HasPrefix(order[j], key + ".") || HasPrefix(key, order[j] + ".") {
        return Some(j);
      }
    }
    r := None;
  }

  /** What handle returns: every secret at its path, nothing when none is asked for, or
      the reason there is no pillar. */
  method Handle(secrets: seq<Secret>) returns (r: Outcome, pillar: Option<Node>)
    ensures r.Gathered? <==> pillar.Some?
    ensures r.Nothing? <==> secrets == []
    ensures r.Gathered? <==> secrets != [] && GoodUpTo(secrets, |secrets|)
    ensures pillar.Some? ==>
              forall i | 0 <= i < |secrets| :: Walk(pillar.value, Split(secrets[i].key)) == secrets[i].fetched
  {
    if |secrets| == 0 {
      return Nothing, None;
    }
    r := Gather(secrets);
    pillar := None;
    if r.Gathered? {
      KeysFit(secrets);
      var root, _ := Nest(r.flat, r.order);
      pillar := Some(root);
      SecretsReadBack(root, r.flat, secrets);
    }
  }

  lemma {:induction false} SecretsReadBack(root: Node, flat: map<string, Item>, secrets: seq<Secret>)
    requires Holds(flat, secrets)
    requires forall key | key in Keys(secrets) :: key in flat && Walk(root, Split(key)) == Some(flat[key])
    ensures forall i | 0 <= i < |secrets| :: Walk(root, Split(secrets[i].key)) == secrets[i].fetched
  {
    forall i | 0 <= i < |secrets|
      ensures Walk(root, Split(secrets[i].key)) == secrets[i].fetched
    {
      assert Keys(secrets)[i] in Keys(secrets);
    }
  }

  lemma {:induction false} KeysFit(secrets: seq<Secret>)
    requires GoodUpTo(secrets, |secrets|)
    ensures NoRepeats(Keys(secrets)) && FitTogether(KeySet(Keys(secrets)))
  {
    var keys := Keys(secrets);
    forall a, b | a in KeySet(keys) && b in KeySet(keys)
      ensures !HasPrefix(b, a + ".")
    {
      var i :| 0 <= i < |keys| && keys[i] == a;
      var j :| 0 <= j < |keys| && keys[j] == b;
      if i < j {
        assert !Overlaps(secrets[i].key, secrets[j].key);
      } else if j < i {
        assert !Overlaps(secrets[j].key, secrets[i].key);
      }
    }
  }
}
