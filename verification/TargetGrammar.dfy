/**
  The compound target grammar (internal/target/compound.go): which token lists parse,
  and to what. `not` binds tighter than `and`, and `and` tighter than `or`; a list of
  tokens has at most one reading, and nesting is bounded.
*/
module TargetGrammar {
  import opened Basics
  import opened SignedTarget

  const MAX_DEPTH: nat := 100

  datatype Reason = EmptyExpression | Unexpected | Unmatched | EndsEarly | NeverClosed | NothingOnTheLeft | TooDeep | BadTerm

  datatype Result<+T> = Ok(value: T) | Err(reason: Reason)

  /** compileTerm: what one word compiles to, if it does. A nodegroup compiles to the
      expression it expands to. */
  type Compiler = string -> Option<Expr>

  predicate IsOr(w: string) {
    |w| == 2 && (w[0] == 'o' || w[0] == 'O') && (w[1] == 'r' || w[1] == 'R')
  }

  predicate IsAnd(w: string) {
    |w| == 3 && (w[0] == 'a' || w[0] == 'A') && (w[1] == 'n' || w[1] == 'N') && (w[2] == 'd' || w[2] == 'D')
  }

  predicate IsNot(w: string) {
    |w| == 3 && (w[0] == 'n' || w[0] == 'N') && (w[1] == 'o' || w[1] == 'O') && (w[2] == 't' || w[2] == 'T')
  }

  /** The word that joins a chain. */
  predicate Joins(any: bool, w: string) {
    if any then IsOr(w) else IsAnd(w)
  }

  // ---- The grammar --------------------------------------------------------------------

  /** How an expression is written: every token of it, keywords as spelt. */
  datatype Tree =
    | Leaf(word: string)
    | Neg(mark: string, inner: Tree)
    | Group(inner: Tree)
    | Series(any: bool, first: Tree, rest: Chain)

  datatype Chain = End | Link(mark: string, term: Tree, next: Chain)

  /** The precedence a tree may stand at: 0 a primary, 1 `not`, 2 `and`, 3 `or`. */
  function Level(any: bool): nat {
    if any then 3 else 2
  }

  predicate Shaped(c: Compiler, t: Tree, level: nat)
    decreases t
  {
    match t
    case Leaf(w) => w != "(" && w != ")" && !IsAnd(w) && !IsOr(w) && !IsNot(w) && c(w).Some?
    case Neg(mark, inner) => level >= 1 && IsNot(mark) && Shaped(c, inner, 1)
    case Group(inner) => Shaped(c, inner, 3)
    case Series(any, first, rest) =>
      level >= Level(any) && rest.Link? && Shaped(c, first, Level(any) - 1) && ShapedChain(c, rest, any)
  }

  predicate ShapedChain(c: Compiler, chain: Chain, any: bool)
    decreases chain
  {
    chain.Link? ==> Joins(any, chain.mark) && Shaped(c, chain.term, Level(any) - 1) && ShapedChain(c, chain.next, any)
  }

  /** How many `(` and `not` enclose the innermost token. */
  function Nesting(t: Tree): nat {
    match t
    case Leaf(_) => 0
    case Neg(_, inner) => 1 + Nesting(inner)
    case Group(inner) => 1 + Nesting(inner)
    case Series(_, first, rest) => Max(Nesting(first), NestingChain(rest))
  }

  function NestingChain(chain: Chain): nat {
    match chain
    case End => 0
    case Link(_, term, next) => Max(Nesting(term), NestingChain(next))
  }

  /** The tokens of a tree, and then what follows it. */
  function Spell(t: Tree, after: seq<string>): seq<string> {
    match t
    case Leaf(w) => [w] + after
    case Neg(mark, inner) => [mark] + Spell(inner, after)
    case Group(inner) => ["("] + Spell(inner, [")"] + after)
    case Series(_, first, rest) => Spell(first, SpellChain(rest, after))
  }

  function SpellChain(chain: Chain, after: seq<string>): seq<string> {
    match chain
    case End => after
    case Link(mark, term, next) => [mark] + Spell(term, SpellChain(next, after))
  }

  /** What a tree means: parentheses leave no mark. (Every word of a tree that parses
      compiles.) */
  function Strip(c: Compiler, t: Tree): Expr {
    match t
    case Leaf(w) => if c(w).Some? then c(w).value else Own(w)
    case Neg(_, inner) => Not(Strip(c, inner))
    case Group(inner) => Strip(c, inner)
    case Series(any, first, rest) =>
      var terms := [Strip(c, first)] + StripChain(c, rest);
      if any then Any(terms) else All(terms)
  }

  function StripChain(c: Compiler, chain: Chain): seq<Expr> {
    if chain.End? then [] else [Strip(c, chain.term)] + StripChain(c, chain.next)
  }

  // ---- Recursive descent, on values -----------------------------------------------------

  datatype Parsed<+T> = Got(value: T, rest: seq<string>) | Refused(reason: Reason)

  /** parseOr and parseAnd. */
  function ParseSeries(c: Compiler, ts: seq<string>, left: nat, any: bool): (p: Parsed<Tree>)
    ensures p.Got? ==> |p.rest| < |ts|
    decreases |ts|, Level(any), 0
  {
    match ParseOperand(c, ts, left, any)
    case Refused(reason) => Refused(reason)
    case Got(first, rest) =>
      match ParseTail(c, rest, left, any)
      case Refused(reason) => Refused(reason)
      case Got(chain, rest') => Got(if chain.End? then first else Series(any, first, chain), rest')
  }

  function ParseOperand(c: Compiler, ts: seq<string>, left: nat, any: bool): (p: Parsed<Tree>)
    ensures p.Got? ==> |p.rest| < |ts|
    decreases |ts|, Level(any) - 1, 1
  {
    if any then ParseSeries(c, ts, left, false) else ParseNot(c, ts, left)
  }

  function ParseTail(c: Compiler, ts: seq<string>, left: nat, any: bool): (p: Parsed<Chain>)
    ensures p.Got? ==> |p.rest| <= |ts|
    decreases |ts|, 0, 0
  {
    if ts == [] || !Joins(any, ts[0]) then Got(End, ts)
    else
      match ParseOperand(c, ts[1..], left, any)
      case Refused(reason) => Refused(reason)
      case Got(term, rest) =>
        match ParseTail(c, rest, left, any)
        case Refused(reason) => Refused(reason)
        case Got(next, rest') => Got(Link(ts[0], term, next), rest')
  }

  function ParseNot(c: Compiler, ts: seq<string>, left: nat): (p: Parsed<Tree>)
    ensures p.Got? ==> |p.rest| < |ts|
    decreases |ts|, 1, 0
  {
    if ts != [] && IsNot(ts[0]) then
      if left == 0 then Refused(TooDeep)
      else
        match ParseNot(c, ts[1..], left - 1)
        case Refused(reason) => Refused(reason)
        case Got(inner, rest) => Got(Neg(ts[0], inner), rest)
    else ParsePrimary(c, ts, left)
  }

  function ParsePrimary(c: Compiler, ts: seq<string>, left: nat): (p: Parsed<Tree>)
    ensures p.Got? ==> |p.rest| < |ts|
    decreases |ts|, 0, 0
  {
    if ts == [] then Refused(EndsEarly)
    else if ts[0] == "(" then
      if left == 0 then Refused(TooDeep)
      else
        match ParseSeries(c, ts[1..], left - 1, true)
        case Refused(reason) => Refused(reason)
        case Got(inner, rest) =>
          if rest == [] || rest[0] != ")" then Refused(NeverClosed) else Got(Group(inner), rest[1..])
    else if ts[0] == ")" then Refused(Unmatched)
    else if IsAnd(ts[0]) || IsOr(ts[0]) then Refused(NothingOnTheLeft)
    else if c(ts[0]).None? then Refused(BadTerm)
    else Got(Leaf(ts[0]), ts[1..])
  }

  /** parse, with `left` more levels of nesting allowed. */
  function Parse(c: Compiler, ts: seq<string>, left: nat): (r: Result<Tree>) {
    if ts == [] then Err(EmptyExpression)
    else
      match ParseSeries(c, ts, left, true)
      case Refused(reason) => Err(reason)
      case Got(t, rest) =>
        if rest == [] then Ok(t) else Err(if rest[0] == ")" then Unmatched else Unexpected)
  }

  // ---- What parses is what the grammar says ----------------------------------------------

  /** Whether a tree at a level ends where `rest` begins. */
  predicate Stops(rest: seq<string>, level: nat) {
    rest == [] || ((level >= 2 ==> !IsAnd(rest[0])) && (level >= 3 ==> !IsOr(rest[0])))
  }

  /** `t` is a reading of the tokens of `ts` before `rest`. */
  ghost predicate Reads(c: Compiler, t: Tree, ts: seq<string>, rest: seq<string>, left: nat, level: nat) {
    Shaped(c, t, level) && Nesting(t) <= left && Spell(t, rest) == ts && Stops(rest, level)
  }

  ghost predicate ReadsChain(c: Compiler, chain: Chain, ts: seq<string>, rest: seq<string>, left: nat, any: bool) {
    ShapedChain(c, chain, any) && NestingChain(chain) <= left && SpellChain(chain, rest) == ts && Stops(rest, Level(any))
  }

  lemma {:induction false} SeriesSound(c: Compiler, ts: seq<string>, left: nat, any: bool)
    requires ParseSeries(c, ts, left, any).Got?
    ensures var p := ParseSeries(c, ts, left, any); Reads(c, p.value, ts, p.rest, left, Level(any))
    decreases |ts|, Level(any), 0
  {
    OperandSound(c, ts, left, any);
    var first := ParseOperand(c, ts, left, any);
    TailSound(c, first.rest, left, any);
  }

  lemma {:induction false} OperandSound(c: Compiler, ts: seq<string>, left: nat, any: bool)
    requires ParseOperand(c, ts, left, any).Got?
    ensures var p := ParseOperand(c, ts, left, any); Reads(c, p.value, ts, p.rest, left, Level(any) - 1)
    decreases |ts|, Level(any) - 1, 1
  {
    if any {
      SeriesSound(c, ts, left, false);
    } else {
      NotSound(c, ts, left);
    }
  }

  lemma {:induction false} TailSound(c: Compiler, ts: seq<string>, left: nat, any: bool)
    requires ParseTail(c, ts, left, any).Got? && Stops(ts, Level(any) - 1)
    ensures var p := ParseTail(c, ts, left, any); ReadsChain(c, p.value, ts, p.rest, left, any)
    decreases |ts|, 0, 0
  {
    if ts != [] && Joins(any, ts[0]) {
      OperandSound(c, ts[1..], left, any);
      TailSound(c, ParseOperand(c, ts[1..], left, any).rest, left, any);
    }
  }

  lemma {:induction false} NotSound(c: Compiler, ts: seq<string>, left: nat)
    requires ParseNot(c, ts, left).Got?
    ensures var p := ParseNot(c, ts, left); Reads(c, p.value, ts, p.rest, left, 1)
    decreases |ts|, 1, 0
  {
    if IsNot(ts[0]) {
      NotSound(c, ts[1..], left - 1);
    } else {
      PrimarySound(c, ts, left);
    }
  }

  lemma {:induction false} PrimarySound(c: Compiler, ts: seq<string>, left: nat)
    requires ParsePrimary(c, ts, left).Got? && !IsNot(ts[0])
    ensures var p := ParsePrimary(c, ts, left); Reads(c, p.value, ts, p.rest, left, 1)
    decreases |ts|, 0, 0
  {
    if ts[0] == "(" {
      SeriesSound(c, ts[1..], left - 1, true);
      var inner := ParseSeries(c, ts[1..], left - 1, true);
      assert inner.rest == [")"] + inner.rest[1..];
    }
  }

  /** Every reading of some tokens is the one the parser finds. */
  lemma {:induction false} SeriesComplete(c: Compiler, t: Tree, ts: seq<string>, rest: seq<string>, left: nat, any: bool)
    requires Reads(c, t, ts, rest, left, Level(any))
    ensures ParseSeries(c, ts, left, any) == Got(t, rest)
    decreases t, Level(any), 0
  {
    if t.Series? && t.any == any {
      var follow := SpellChain(t.rest, rest);
      ChainStops(c, t.rest, rest, any);
      OperandComplete(c, t.first, ts, follow, left, any);
      TailComplete(c, t.rest, follow, rest, left, any);
    } else {
      OperandComplete(c, t, ts, rest, left, any);
    }
  }

  lemma {:induction false} ChainStops(c: Compiler, chain: Chain, rest: seq<string>, any: bool)
    requires ShapedChain(c, chain, any) && Stops(rest, Level(any))
    ensures Stops(SpellChain(chain, rest), Level(any) - 1)
  {
  }

  lemma {:induction false} OperandComplete(c: Compiler, t: Tree, ts: seq<string>, rest: seq<string>, left: nat, any: bool)
    requires Reads(c, t, ts, rest, left, Level(any) - 1)
    ensures ParseOperand(c, ts, left, any) == Got(t, rest)
    decreases t, Level(any) - 1, 1
  {
    if any {
      SeriesComplete(c, t, ts, rest, left, false);
    } else {
      NotComplete(c, t, ts, rest, left);
    }
  }

  lemma {:induction false} TailComplete(c: Compiler, chain: Chain, ts: seq<string>, rest: seq<string>, left: nat, any: bool)
    requires ReadsChain(c, chain, ts, rest, left, any)
    ensures ParseTail(c, ts, left, any) == Got(chain, rest)
    decreases chain, 0, 0
  {
    if chain.Link? {
      var follow := SpellChain(chain.next, rest);
      ChainStops(c, chain.next, rest, any);
      assert ts[1..] == Spell(chain.term, follow);
      OperandComplete(c, chain.term, ts[1..], follow, left, any);
      TailComplete(c, chain.next, follow, rest, left, any);
    }
  }

  lemma {:induction false} NotComplete(c: Compiler, t: Tree, ts: seq<string>, rest: seq<string>, left: nat)
    requires Reads(c, t, ts, rest, left, 1)
    ensures ParseNot(c, ts, left) == Got(t, rest)
    decreases t, 1, 0
  {
    match t {
      case Leaf(w) => assert ts[1..] == rest;
      case Neg(_, inner) =>
        assert ts[1..] == Spell(inner, rest);
        NotComplete(c, inner, ts[1..], rest, left - 1);
      case Group(inner) =>
        assert ts[1..] == Spell(inner, [")"] + rest);
        SeriesComplete(c, inner, ts[1..], [")"] + rest, left - 1, true);
    }
  }

  // ---- Refused for depth ------------------------------------------------------------------

  /** An expression that is well formed and nests too deep is refused for that. */
  lemma {:induction false} SeriesTooDeep(c: Compiler, t: Tree, ts: seq<string>, rest: seq<string>, left: nat, any: bool)
    requires Reads(c, t, ts, rest, Nesting(t), Level(any)) && Nesting(t) > left
    ensures ParseSeries(c, ts, left, any) == Refused(TooDeep)
    decreases t, Level(any), 0
  {
    if t.Series? && t.any == any {
      var follow := SpellChain(t.rest, rest);
      ChainStops(c, t.rest, rest, any);
      if Nesting(t.first) > left {
        OperandTooDeep(c, t.first, ts, follow, left, any);
      } else {
        OperandComplete(c, t.first, ts, follow, left, any);
        TailTooDeep(c, t.rest, follow, rest, left, any);
      }
    } else {
      OperandTooDeep(c, t, ts, rest, left, any);
    }
  }

  lemma {:induction false} OperandTooDeep(c: Compiler, t: Tree, ts: seq<string>, rest: seq<string>, left: nat, any: bool)
    requires Reads(c, t, ts, rest, Nesting(t), Level(any) - 1) && Nesting(t) > left
    ensures ParseOperand(c, ts, left, any) == Refused(TooDeep)
    decreases t, Level(any) - 1, 1
  {
    if any {
      SeriesTooDeep(c, t, ts, rest, left, false);
    } else {
      NotTooDeep(c, t, ts, rest, left);
    }
  }

  lemma {:induction false} TailTooDeep(c: Compiler, chain: Chain, ts: seq<string>, rest: seq<string>, left: nat, any: bool)
    requires ReadsChain(c, chain, ts, rest, NestingChain(chain), any) && NestingChain(chain) > left
    ensures ParseTail(c, ts, left, any) == Refused(TooDeep)
    decreases chain, 0, 0
  {
    var follow := SpellChain(chain.next, rest);
    ChainStops(c, chain.next, rest, any);
    assert ts[1..] == Spell(chain.term, follow);
    if Nesting(chain.term) > left {
      OperandTooDeep(c, chain.term, ts[1..], follow, left, any);
    } else {
      OperandComplete(c, chain.term, ts[1..], follow, left, any);
      TailTooDeep(c, chain.next, follow, rest, left, any);
    }
  }

  lemma {:induction false} NotTooDeep(c: Compiler, t: Tree, ts: seq<string>, rest: seq<string>, left: nat)
    requires Reads(c, t, ts, rest, Nesting(t), 1) && Nesting(t) > left
    ensures ParseNot(c, ts, left) == Refused(TooDeep)
    decreases t, 1, 0
  {
    match t {
      case Neg(_, inner) =>
        assert ts[1..] == Spell(inner, rest);
        if left > 0 {
          NotTooDeep(c, inner, ts[1..], rest, left - 1);
        }
      case Group(inner) =>
        assert ts[1..] == Spell(inner, [")"] + rest);
        if left > 0 {
          SeriesTooDeep(c, inner, ts[1..], [")"] + rest, left - 1, true);
        }
    }
  }

  // ---- The theorems ------------------------------------------------------------------------

  /** The grammar exactly: a list of tokens parses to a tree if and only if the tree,
      shaped by the precedence rules and nested no deeper than allowed, spells it. */
  lemma {:induction false} ParsesIffGrammatical(c: Compiler, ts: seq<string>, left: nat, t: Tree)
    ensures Parse(c, ts, left) == Ok(t) <==> Shaped(c, t, 3) && Nesting(t) <= left && Spell(t, []) == ts
  {
    if Parse(c, ts, left) == Ok(t) {
      SeriesSound(c, ts, left, true);
    }
    if Shaped(c, t, 3) && Nesting(t) <= left && Spell(t, []) == ts {
      SeriesComplete(c, t, ts, [], left, true);
    }
  }

  /** No list of tokens has two readings, however deep. */
  lemma {:induction false} NeverAmbiguous(c: Compiler, t: Tree, u: Tree)
    requires Shaped(c, t, 3) && Shaped(c, u, 3) && Spell(t, []) == Spell(u, [])
    ensures t == u
  {
    var left := Max(Nesting(t), Nesting(u));
    ParsesIffGrammatical(c, Spell(t, []), left, t);
    ParsesIffGrammatical(c, Spell(t, []), left, u);
  }

  /** The depth bound is the only thing that refuses a well-formed expression. */
  lemma {:induction false} WellFormedRefusedOnlyForDepth(c: Compiler, t: Tree, left: nat)
    requires Shaped(c, t, 3)
    ensures Parse(c, Spell(t, []), left) == if Nesting(t) <= left then Ok(t) else Err(TooDeep)
  {
    var ts := Spell(t, []);
    if Nesting(t) <= left {
      ParsesIffGrammatical(c, ts, left, t);
    } else {
      SeriesComplete(c, t, ts, [], Nesting(t), true);
      SeriesTooDeep(c, t, ts, [], left, true);
    }
  }
}
