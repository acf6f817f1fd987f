/**
  The recursive-descent parser of compound targets as it runs
  (internal/target/compound.go): a cursor over the tokens and a count of the levels
  that enclose it, against the parser on values in TargetGrammar.
*/
module TargetParser {
  import opened Basics
  import opened SignedTarget
  import opened TargetGrammar
  import TargetText

  class Parser {
    const c: Compiler
    const toks: seq<string>
    var i: nat
    var depth: nat

    constructor (c: Compiler, toks: seq<string>)
      ensures this.c == c && this.toks == toks && i == 0 && depth == 0
    {
      this.c, this.toks, i, depth := c, toks, 0, 0;
    }

    ghost predicate Valid()
      reads this
    {
      i <= |toks| && depth <= MAX_DEPTH
    }

    /** What a method answers, and where it leaves off, as `p` says. */
    ghost predicate Agrees(r: Result<Expr>, p: Parsed<Tree>)
      reads this
    {
      i <= |toks| &&
      match p
      case Got(t, rest) => r == Ok(Strip(c, t)) && toks[i..] == rest
      case Refused(reason) => r == Err(reason)
    }

    method Compile() returns (r: Result<Expr>)
      requires Valid() && i == 0 && depth == 0
      modifies `i, `depth
      ensures match Parse(c, toks, MAX_DEPTH)
              case Ok(t) => r == Ok(Strip(c, t))
              case Err(reason) => r == Err(reason)
    {
      if |toks| == 0 {
        return Err(EmptyExpression);
      }
      assert toks[0..] == toks;
      r := ParseOr();
      if r.Err? {
        return;
      }
      if i < |toks| {
        return Err(if toks[i] == ")" then Unmatched else Unexpected);
      }
    }

    method ParseOr() returns (r: Result<Expr>)
      requires Valid()
      modifies `i, `depth
      ensures Valid() && Agrees(r, ParseSeries(c, toks[old(i)..], MAX_DEPTH - old(depth), true))
      ensures r.Ok? ==> depth == old(depth) && i > old(i)
      decreases |toks| - i, 3
    {
      ghost var from, left := toks[i..], MAX_DEPTH - depth;
      HalfwayStarts(c, from, left, true);
      var first := ParseAnd();
      if first.Err? {
        return first;
      }
      var terms := [first.value];
      while i < |toks| && IsOr(toks[i])
        invariant Valid() && depth == old(depth) && i > old(i) && |terms| > 0
        invariant Halfway(c, from, left, true, terms, toks[i..])
        decreases |toks| - i
      {
        HalfwayGoesOn(c, from, left, true, terms, toks[i..]);
        assert toks[i..][1..] == toks[i + 1..];
        i := i + 1;
        var right := ParseAnd();
        if right.Err? {
          return right;
        }
        terms := terms + [right.value];
      }
      HalfwayEnds(c, from, left, true, terms, toks[i..]);
      return Joined(true, terms);
    }

    method ParseAnd() returns (r: Result<Expr>)
      requires Valid()
      modifies `i, `depth
      ensures Valid() && Agrees(r, ParseSeries(c, toks[old(i)..], MAX_DEPTH - old(depth), false))
      ensures r.Ok? ==> depth == old(depth) && i > old(i)
      decreases |toks| - i, 2
    {
      ghost var from, left := toks[i..], MAX_DEPTH - depth;
      HalfwayStarts(c, from, left, false);
      var first := ParseNot();
      if first.Err? {
        return first;
      }
      var terms := [first.value];
      while i < |toks| && IsAnd(toks[i])
        invariant Valid() && depth == old(depth) && i > old(i) && |terms| > 0
        invariant Halfway(c, from, left, false, terms, toks[i..])
        decreases |toks| - i
      {
        HalfwayGoesOn(c, from, left, false, terms, toks[i..]);
        assert toks[i..][1..] == toks[i + 1..];
        i := i + 1;
        var right := ParseNot();
        if right.Err? {
          return right;
        }
        terms := terms + [right.value];
      }
      HalfwayEnds(c, from, left, false, terms, toks[i..]);
      return Joined(false, terms);
    }

    method ParseNot() returns (r: Result<Expr>)
      requires Valid()
      modifies `i, `depth
      ensures Valid() && Agrees(r, TargetGrammar.ParseNot(c, toks[old(i)..], MAX_DEPTH - old(depth)))
      ensures r.Ok? ==> depth == old(depth) && i > old(i)
      decreases |toks| - i, 1
    {
      if i < |toks| && IsNot(toks[i]) {
        if depth >= MAX_DEPTH {
          return Err(TooDeep);
        }
        assert toks[i..][1..] == toks[i + 1..];
        depth := depth + 1;
        i := i + 1;
        r := ParseNot();
        if r.Err? {
          return;
        }
        depth := depth - 1;
        return Ok(Not(r.value));
      }
      r := ParsePrimary();
    }

    method ParsePrimary() returns (r: Result<Expr>)
      requires Valid()
      modifies `i, `depth
      ensures Valid() && Agrees(r, TargetGrammar.ParsePrimary(c, toks[old(i)..], MAX_DEPTH - old(depth)))
      ensures r.Ok? ==> depth == old(depth) && i > old(i)
      decreases |toks| - i, 0
    {
      if i >= |toks| {
        return Err(EndsEarly);
      }
      var t := toks[i];
      assert toks[i..][1..] == toks[i + 1..];
      if t == "(" {
        if depth >= MAX_DEPTH {
          return Err(TooDeep);
        }
        depth := depth + 1;
        i := i + 1;
        r := ParseOr();
        if r.Err? {
          return;
        }
        depth := depth - 1;
        if i >= |toks| || toks[i] != ")" {
          return Err(NeverClosed);
        }
        i := i + 1;
        return;
      }
      if t == ")" {
        return Err(Unmatched);
      }
      if IsAnd(t) || IsOr(t) {
        return Err(NothingOnTheLeft);
      }
      i := i + 1;
      var leaf := c(t);
      r := if leaf.Some? then Ok(leaf.value) else Err(BadTerm);
    }
  }

  /** What a loop has read of the chain in `from`, with `at` still to read. */
  ghost predicate Halfway(c: Compiler, from: seq<string>, left: nat, any: bool, terms: seq<Expr>, at: seq<string>)
    requires |terms| > 0
  {
    var first := ParseOperand(c, from, left, any);
    && first.Got? && terms[0] == Strip(c, first.value)
    && Continues(c, ParseTail(c, first.rest, left, any), ParseTail(c, at, left, any), terms[1..])
  }

  ghost predicate Continues(c: Compiler, whole: Parsed<Chain>, now: Parsed<Chain>, before: seq<Expr>) {
    if now.Refused? then whole == now
    else whole.Got? && whole.rest == now.rest && StripChain(c, whole.value) == before + StripChain(c, now.value)
  }

  lemma {:induction false} HalfwayStarts(c: Compiler, from: seq<string>, left: nat, any: bool)
    ensures var p := ParseOperand(c, from, left, any);
            if p.Refused? then ParseSeries(c, from, left, any) == Refused(p.reason)
            else Halfway(c, from, left, any, [Strip(c, p.value)], p.rest)
  {
  }

  lemma {:induction false} HalfwayGoesOn(c: Compiler, from: seq<string>, left: nat, any: bool, terms: seq<Expr>, at: seq<string>)
    requires |terms| > 0 && Halfway(c, from, left, any, terms, at)
    requires at != [] && Joins(any, at[0])
    ensures var p := ParseOperand(c, at[1..], left, any);
            if p.Refused? then ParseSeries(c, from, left, any) == Refused(p.reason)
            else Halfway(c, from, left, any, terms + [Strip(c, p.value)], p.rest)
  {
    var p := ParseOperand(c, at[1..], left, any);
    if p.Got? {
      var term := Strip(c, p.value);
      assert (terms + [term])[1..] == terms[1..] + [term];
      var now := ParseTail(c, p.rest, left, any);
      if now.Got? {
        var rest := StripChain(c, now.value);
        assert terms[1..] + ([term] + rest) == terms[1..] + [term] + rest;
      }
    }
  }

  lemma {:induction false} HalfwayEnds(c: Compiler, from: seq<string>, left: nat, any: bool, terms: seq<Expr>, at: seq<string>)
    requires |terms| > 0 && Halfway(c, from, left, any, terms, at)
    requires at == [] || !Joins(any, at[0])
    ensures var p := ParseSeries(c, from, left, any);
            p.Got? && p.rest == at && Joined(any, terms) == Ok(Strip(c, p.value))
  {
    var first := ParseOperand(c, from, left, any);
    var whole := ParseTail(c, first.rest, left, any);
    assert StripChain(c, whole.value) == terms[1..];
    assert terms == [terms[0]] + terms[1..];
  }

  /** A chain of one term is that term. */
  function Joined(any: bool, terms: seq<Expr>): (r: Result<Expr>)
    requires |terms| > 0
  {
    Ok(if |terms| == 1 then terms[0] else if any then Any(terms) else All(terms))
  }

  // ---- Kinds of target, and terms ----------------------------------------------------------

  /** target.MaxExprLen. */
  const MAX_EXPR_LEN: nat := 0x10_0000

  datatype Kind = Glob | List | Regex | Grain | GrainRegex | InPillar | PillarRegex | Subnet | Nodegroup | Compound

  function KindFromFlag(flag: string): Option<Kind> {
    if flag == "" || flag == "glob" then Some(Glob)
    else if flag == "L" || flag == "list" then Some(List)
    else if flag == "E" || flag == "pcre" then Some(Regex)
    else if flag == "G" || flag == "grain" then Some(Grain)
    else if flag == "P" || flag == "grain_pcre" then Some(GrainRegex)
    else if flag == "I" || flag == "pillar" then Some(InPillar)
    else if flag == "J" || flag == "pillar_pcre" then Some(PillarRegex)
    else if flag == "S" || flag == "ipcidr" then Some(Subnet)
    else if flag == "N" || flag == "nodegroup" then Some(Nodegroup)
    else if flag == "C" || flag == "compound" then Some(Compound)
    else None
  }

  /** The sigils of typed terms. */
  function KindLetter(letter: string): Option<Kind> {
    if letter in ["G", "P", "I", "J", "L", "S", "E", "N"] then KindFromFlag(letter) else None
  }

  /** compileLeaf: what a pattern of a kind compiles to, if it does. */
  type Leaves = (Kind, string) -> Option<Expr>

  /** strings.Index of the sigil's mark, and the length of the word where there is none. */
  function MarkAt(word: string): (n: nat)
    ensures n <= |word| && (n < |word| ==> word[n] == '@') && '@' !in word[..n]
  {
    if word == "" || word[0] == '@' then 0
    else
      assert forall k | 0 <= k <= |word| - 1 :: word[..k + 1] == [word[0]] + word[1..][..k];
      1 + MarkAt(word[1..])
  }

  /** compileTerm on a node, which has no nodegroups. A mark that ends no known sigil
      belongs to a glob. */
  function TermOf(leaves: Leaves): Compiler {
    word =>
      var at := MarkAt(word);
      if at == 0 || at == |word| || KindLetter(word[..at]).None? then leaves(Glob, word)
      else
        var kind := KindLetter(word[..at]).value;
        if at + 1 == |word| || kind == Nodegroup then None else leaves(kind, word[at + 1..])
  }

  // ---- A signed target, from its text ----------------------------------------------------

  /** The one reading of a text that the grammar and the depth bound allow. */
  ghost predicate IsReading(c: Compiler, text: string, t: Tree) {
    Shaped(c, t, 3) && Nesting(t) <= MAX_DEPTH && Spell(t, []) == TargetText.Tokens(text, "", 0)
  }

  /** What a target of a kind says: a compound one is read by the grammar, a nodegroup
      means nothing to a node, and any other is one pattern. */
  ghost predicate Says(leaves: Leaves, kind: Kind, text: string, e: Expr) {
    && |text| <= MAX_EXPR_LEN
    && match kind
       case Compound => exists t :: IsReading(TermOf(leaves), text, t) && e == Strip(TermOf(leaves), t)
       case Nodegroup => false
       case _ => leaves(kind, text) == Some(e)
  }

  /** target.Compile, on a node. */
  method CompileTarget(leaves: Leaves, kind: Kind, text: string) returns (r: Option<Expr>)
    ensures forall e :: Says(leaves, kind, text, e) <==> r == Some(e)
  {
    if |text| > MAX_EXPR_LEN {
      return None;
    }
    match kind {
      case Compound =>
        var c := TermOf(leaves);
        var toks := TargetText.Tokenize(text);
        var parser := new Parser(c, toks);
        var parsed := parser.Compile();
        ghost var spec := Parse(c, TargetText.Tokens(text, "", 0), MAX_DEPTH);
        if parsed.Err? {
          NoReading(c, text, spec.reason);
          return None;
        }
        OneReading(c, text, spec.value);
        assert IsReading(c, text, spec.value);
        r := Some(parsed.value);
      case Nodegroup => r := None;
      case _ => r := leaves(kind, text);
    }
  }

  /** matchesSignedTarget: accepted exactly when the target is there, its kind is known, it
      says something, and what it says is true of this node without a pillar it could not
      compile having been asked for. */
  method MatchesSignedTarget(self: Self, leaves: Leaves, flag: string, text: string) returns (ok: bool)
    ensures ok <==> text != "" && KindFromFlag(flag).Some? &&
                    exists e :: Says(leaves, KindFromFlag(flag).value, text, e) && Accepted(self, e)
  {
    if text == "" {
      return false;
    }
    var kind := KindFromFlag(flag);
    if kind.None? {
      return false;
    }
    var e := CompileTarget(leaves, kind.value, text);
    if e.None? {
      return false;
    }
    ok := Accepts(self, e.value);
  }

  lemma {:induction false} NoReading(c: Compiler, text: string, reason: Reason)
    requires Parse(c, TargetText.Tokens(text, "", 0), MAX_DEPTH) == Err(reason)
    ensures forall t :: !IsReading(c, text, t)
  {
    forall t
      ensures !IsReading(c, text, t)
    {
      ParsesIffGrammatical(c, TargetText.Tokens(text, "", 0), MAX_DEPTH, t);
    }
  }

  lemma {:induction false} OneReading(c: Compiler, text: string, t: Tree)
    requires Parse(c, TargetText.Tokens(text, "", 0), MAX_DEPTH) == Ok(t)
    ensures forall u :: IsReading(c, text, u) <==> u == t
  {
    forall u
      ensures IsReading(c, text, u) <==> u == t
    {
      ParsesIffGrammatical(c, TargetText.Tokens(text, "", 0), MAX_DEPTH, u);
    }
  }
}
