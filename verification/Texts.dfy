/**
  Facts about texts that several encodings rest on: marks that split a text one
  way, decimal numbers, and dotted paths. A character stands for a byte.
*/
module Texts {

  /** Two texts joined by a mark neither of the first halves holds come apart one way. */
  lemma {:induction false} SplitAtMark(x: string, y: string, x': string, y': string, mark: char)
    requires mark !in x && mark !in x'
    requires x + [mark] + y == x' + [mark] + y'
    ensures x == x' && y == y'
  {
    var s := x + [mark] + y;
    assert s[|x|] == mark && s[|x'|] == mark;
    assert forall i | 0 <= i < |x| :: s[i] == x[i];
    assert forall i | 0 <= i < |x'| :: s[i] == x'[i];
    assert x == s[..|x|] == x';
    assert y == s[|x| + 1..] == y';
  }

  /** Equal texts with equally long first parts have equal parts. */
  lemma {:induction false} SplitAtLength(x: string, y: string, x': string, y': string)
    requires |x| == |x'| && x + y == x' + y'
    ensures x == x' && y == y'
  {
    assert x == (x + y)[..|x|] && x' == (x' + y')[..|x|];
    assert y == (x + y)[|x|..] && y' == (x' + y')[|x|..];
  }

  const DIGITS := "0123456789"

  function Decimal(n: nat): (s: string)
    ensures s != [] && forall c | c in s :: '0' <= c <= '9'
  {
    if n < 10 then [DIGITS[n]] else Decimal(n / 10) + [DIGITS[n % 10]]
  }

  lemma {:induction false} DecimalInjective(m: nat, n: nat)
    requires Decimal(m) == Decimal(n)
    ensures m == n
    decreases m
  {
    var s := Decimal(m);
    assert m >= 10 ==> |s| >= 2;
    assert n >= 10 ==> |s| >= 2;
    if m >= 10 {
      assert s[|s| - 1] == DIGITS[m % 10] == DIGITS[n % 10];
      assert Decimal(m / 10) == s[..|s| - 1] == Decimal(n / 10);
      DecimalInjective(m / 10, n / 10);
    }
  }

  // ---- Dotted paths -----------------------------------------------------------

  /** One character more in front of a text already split. */
  function Prepend(c: char, parts: seq<string>): seq<string>
    requires |parts| >= 1
  {
    if c == '.' then [""] + parts else [[c] + parts[0]] + parts[1..]
  }

  lemma {:induction false} PrependAppend(c: char, head: seq<string>, tail: seq<string>)
    requires |head| >= 1
    ensures Prepend(c, head + tail) == Prepend(c, head) + tail
  {
    assert (head + tail)[1..] == head[1..] + tail;
  }

  /** strings.Split(s, "."): always at least one part, none holding a dot. */
  function Split(s: string): (parts: seq<string>)
    ensures |parts| >= 1
    ensures forall i | 0 <= i < |parts| :: '.' !in parts[i]
  {
    if s == "" then [""] else Prepend(s[0], Split(s[1..]))
  }

  function Join(parts: seq<string>): string
    requires |parts| >= 1
  {
    if |parts| == 1 then parts[0] else parts[0] + "." + Join(parts[1..])
  }

  lemma {:induction false} JoinSplit(s: string)
    ensures Join(Split(s)) == s
  {
    if s != "" {
      JoinSplit(s[1..]);
      var rest := Split(s[1..]);
      if s[0] == '.' {
        assert ([""] + rest)[1..] == rest;
      } else {
        var parts := [[s[0]] + rest[0]] + rest[1..];
        assert parts[1..] == rest[1..];
        if |rest| == 1 {
          assert Join(parts) == [s[0]] + rest[0];
        } else {
          assert Join(parts) == [s[0]] + (rest[0] + "." + Join(rest[1..]));
        }
      }
    }
  }

  lemma {:induction false} SplitInjective(s: string, t: string)
    requires Split(s) == Split(t)
    ensures s == t
  {
    JoinSplit(s);
    JoinSplit(t);
  }

  lemma {:induction false} SplitDotted(a: string, b: string)
    ensures Split(a + "." + b) == Split(a) + Split(b)
  {
    var s := a + "." + b;
    if a == "" {
      assert s[1..] == b;
    } else {
      var head, tail := Split(a[1..]), Split(b);
      assert Split(s[1..]) == head + tail by {
        SplitDotted(a[1..], b);
        assert s[1..] == a[1..] + "." + b;
      }
      PrependAppend(a[0], head, tail);
    }
  }

  /** strings.HasPrefix. */
  predicate HasPrefix(s: string, prefix: string) {
    prefix <= s
  }

  predicate ProperPrefix<T(==)>(a: seq<T>, b: seq<T>) {
    |a| < |b| && a <= b
  }

  lemma {:induction false} JoinAppend(a: seq<string>, b: seq<string>)
    requires |a| >= 1 && |b| >= 1
    ensures Join(a + b) == Join(a) + "." + Join(b)
  {
    assert (a + b)[1..] == a[1..] + b;
    if |a| > 1 {
      JoinAppend(a[1..], b);
      assert Join(a + b) == a[0] + "." + (Join(a[1..]) + "." + Join(b));
    }
  }

  /** The test on `key + "."` is the test that one dotted path is inside another. */
  lemma {:induction false} DottedPrefixIsPathPrefix(key: string, other: string)
    ensures HasPrefix(other, key + ".") <==> ProperPrefix(Split(key), Split(other))
  {
    var p, q := Split(key), Split(other);
    if HasPrefix(other, key + ".") {
      var rest := other[|key| + 1..];
      assert other == key + "." + rest;
      SplitDotted(key, rest);
    }
    if ProperPrefix(p, q) {
      assert q == p + q[|p|..];
      JoinAppend(p, q[|p|..]);
      JoinSplit(key);
      JoinSplit(other);
      assert other == key + "." + Join(q[|p|..]);
    }
  }
}
