/**
  Go's order on strings, and sort.Strings over the keys of a map: whatever order a
  range visits them in, one list comes out.
*/
module Sorting {

  /** Strictly before, character by character. */
  predicate Before(a: string, b: string) {
    b != "" && (a == "" || a[0] < b[0] || (a[0] == b[0] && Before(a[1..], b[1..])))
  }

  lemma {:induction false} Total(a: string, b: string)
    ensures a == b || Before(a, b) || Before(b, a)
    ensures !(Before(a, b) && Before(b, a)) && !Before(a, a)
  {
    if a != "" && b != "" {
      Total(a[1..], b[1..]);
      assert a == [a[0]] + a[1..] && b == [b[0]] + b[1..];
    }
    if a != "" {
      Total(a[1..], a[1..]);
    }
  }

  lemma {:induction false} Transitive(a: string, b: string, c: string)
    requires Before(a, b) && Before(b, c)
    ensures Before(a, c)
  {
    if a != "" && a[0] == b[0] == c[0] {
      Transitive(a[1..], b[1..], c[1..]);
    }
  }

  /** Each before the next, so no two alike. */
  predicate Sorted(s: seq<string>) {
    forall i, j | 0 <= i < j < |s| :: Before(s[i], s[j])
  }

  function Elements(s: seq<string>): (r: set<string>)
    ensures forall k :: k in r <==> k in s
  {
    set k | k in s
  }

  /** A set has one sorted list. */
  lemma {:induction false} SortedUnique(s: seq<string>, t: seq<string>)
    requires Sorted(s) && Sorted(t) && Elements(s) == Elements(t)
    ensures s == t
  {
    EmptyIff(s);
    EmptyIff(t);
    if s != [] {
      assert s[0] in Elements(s) && t[0] in Elements(t);
      SameFirst(s, t);
      FirstIsOnce(s);
      FirstIsOnce(t);
      assert Elements(s[1..]) == Elements(s) - {s[0]} && Elements(t[1..]) == Elements(t) - {t[0]};
      SortedUnique(s[1..], t[1..]);
      assert s == [s[0]] + s[1..] && t == [t[0]] + t[1..];
    }
  }

  lemma {:induction false} EmptyIff(s: seq<string>)
    ensures Elements(s) == {} <==> s == []
  {
    if s != [] {
      assert s[0] in Elements(s);
    }
  }

  lemma {:induction false} SameFirst(s: seq<string>, t: seq<string>)
    requires Sorted(s) && Sorted(t) && s != [] && t != [] && s[0] in t && t[0] in s
    ensures s[0] == t[0]
  {
    Total(s[0], t[0]);
  }

  lemma {:induction false} FirstIsOnce(s: seq<string>)
    requires Sorted(s) && s != []
    ensures forall k :: k in s[1..] <==> k in s && k != s[0]
  {
    forall k | k in s[1..]
      ensures k != s[0]
    {
      var i :| 0 <= i < |s[1..]| && s[1..][i] == k;
      assert Before(s[0], s[i + 1]);
      Total(k, k);
    }
  }

  function Insert(k: string, s: seq<string>): seq<string> {
    if s == [] then [k] else if Before(k, s[0]) then [k] + s else [s[0]] + Insert(k, s[1..])
  }

  lemma {:induction false} SortedFrom(first: string, rest: seq<string>)
    requires Sorted(rest) && forall k | k in rest :: Before(first, k)
    ensures Sorted([first] + rest) && Elements([first] + rest) == Elements(rest) + {first}
  {
  }

  lemma {:induction false} InsertSorts(k: string, s: seq<string>)
    requires Sorted(s) && k !in s
    ensures Sorted(Insert(k, s)) && Elements(Insert(k, s)) == Elements(s) + {k}
  {
    if s == [] {
      SortedFrom(k, s);
    } else if Before(k, s[0]) {
      forall x | x in s
        ensures Before(k, x)
      {
        var i :| 0 <= i < |s| && s[i] == x;
        if i > 0 {
          Transitive(k, s[0], s[i]);
        }
      }
      SortedFrom(k, s);
    } else {
      var rest := Insert(k, s[1..]);
      InsertSorts(k, s[1..]);
      Total(k, s[0]);
      forall x | x in rest
        ensures Before(s[0], x)
      {
        assert x in Elements(rest);
        if x != k {
          var i :| 0 <= i < |s[1..]| && s[1..][i] == x;
          assert Before(s[0], s[i + 1]);
        }
      }
      SortedFrom(s[0], rest);
      FirstIsOnce(s);
      assert s[0] in Elements(s);
    }
  }

  /** The one sorted list of a set. */
  ghost function SortedKeys(keys: set<string>): (s: seq<string>)
    ensures Sorted(s) && Elements(s) == keys && |s| == |keys|
  {
    if keys == {} then []
    else
      var k :| k in keys;
      InsertSorts(k, SortedKeys(keys - {k}));
      InsertLength(k, SortedKeys(keys - {k}));
      Insert(k, SortedKeys(keys - {k}))
  }

  lemma {:induction false} InsertLength(k: string, s: seq<string>)
    ensures |Insert(k, s)| == |s| + 1
  {
    if s != [] {
      InsertLength(k, s[1..]);
    }
  }

  /** A range over a map's keys in whatever order it comes, sorted as it is collected. */
  method CollectSorted(keys: set<string>) returns (sorted: seq<string>)
    ensures sorted == SortedKeys(keys)
  {
    sorted := [];
    var todo := keys;
    while todo != {}
      invariant todo <= keys && Sorted(sorted) && Elements(sorted) == keys - todo
      decreases |todo|
    {
      var k :| k in todo;
      todo := todo - {k};
      assert k !in Elements(sorted);
      InsertSorts(k, sorted);
      sorted := Insert(k, sorted);
    }
    SortedUnique(sorted, SortedKeys(keys));
  }
}
