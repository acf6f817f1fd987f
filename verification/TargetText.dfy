/**
  From the text of a compound target to its tokens (internal/target/compound.go,
  tokenize), and from an expression to a text that means it.
*/
module TargetText {
  import opened Basics
  import opened SignedTarget
  import opened TargetGrammar

  predicate Blank(c: char) {
    c == ' ' || c == '\t'
  }

  function Flushed(word: string): (ts: seq<string>) {
    if word == "" then [] else [word]
  }

  /** What one character does: the tokens it ends, the word begun after it, and how
      many of that word's own parentheses are open. */
  datatype Scan = Scan(out: seq<string>, word: string, depth: nat)

  function Step(word: string, depth: nat, c: char): Scan {
    if Blank(c) then
      if depth > 0 then Scan([], word + [c], depth) else Scan(Flushed(word), "", 0)
    else if c == '(' then
      if word == "" then Scan(["("], "", depth) else Scan([], word + [c], depth + 1)
    else if c == ')' then
      if depth > 0 then Scan([], word + [c], depth - 1) else Scan(Flushed(word) + [")"], "", 0)
    else Scan([], word + [c], depth)
  }

  function Tokens(src: string, word: string, depth: nat): seq<string>
    decreases src
  {
    if src == "" then Flushed(word)
    else
      var s := Step(word, depth, src[0]);
      s.out + Tokens(src[1..], s.word, s.depth)
  }

  /** The word begun at `start`, if one has. */
  function WordAt(src: string, start: int, i: nat): string
    requires -1 <= start <= i <= |src|
  {
    if start < 0 then "" else src[start..i]
  }

  /** tokenize's `flush`. */
  method Flush(src: string, start: int, i: nat, toks: seq<string>) returns (r: seq<string>)
    requires -1 <= start < i <= |src| || -1 == start <= i <= |src|
    ensures r == toks + Flushed(WordAt(src, start, i))
  {
    r := if start >= 0 then toks + [src[start..i]] else toks;
  }

  /** One turn of tokenize's loop. */
  method Turn(src: string, start: int, depth: nat, i: nat) returns (out: seq<string>, start': int, depth': nat)
    requires -1 <= start < i < |src| || -1 == start <= i < |src|
    requires start < 0 ==> depth == 0
    ensures -1 <= start' <= i && (start' < 0 ==> depth' == 0)
    ensures Scan(out, WordAt(src, start', i + 1), depth') == Step(WordAt(src, start, i), depth, src[i])
  {
    var c := src[i];
    assert src[i..i + 1] == [c] && (start >= 0 ==> src[start..i + 1] == src[start..i] + [c]);
    out, start', depth' := [], start, depth;
    if Blank(c) {
      if depth == 0 {
        out := Flush(src, start, i, []);
        start' := -1;
      }
    } else if c == '(' && start < 0 {
      out := ["("];
    } else if c == '(' {
      depth' := depth + 1;
    } else if c == ')' && depth > 0 {
      depth' := depth - 1;
    } else if c == ')' {
      out := Flush(src, start, i, []);
      start' := -1;
      out := out + [")"];
    } else if start < 0 {
      start' := i;
    }
  }

  /** tokenize: one pass, keeping where the word begun starts. */
  method Tokenize(src: string) returns (toks: seq<string>)
    ensures toks == Tokens(src, "", 0)
  {
    toks := [];
    var start, depth, i := -1, 0, 0;
    while i < |src|
      invariant 0 <= i <= |src| && (-1 <= start < i || start == -1)
      invariant start < 0 ==> depth == 0
      invariant toks + Tokens(src[i..], WordAt(src, start, i), depth) == Tokens(src, "", 0)
    {
      TokensStep(src, i, WordAt(src, start, i), depth, toks);
      var out;
      out, start, depth := Turn(src, start, depth, i);
      toks := toks + out;
      i := i + 1;
    }
    toks := Flush(src, start, i, toks);
  }

  lemma {:induction false} TokensStep(src: string, i: nat, word: string, depth: nat, toks: seq<string>)
    requires i < |src|
    ensures var s := Step(word, depth, src[i]);
            toks + Tokens(src[i..], word, depth) == toks + s.out + Tokens(src[i + 1..], s.word, s.depth)
  {
    assert src[i..][1..] == src[i + 1..];
  }

  // ---- What a token can be --------------------------------------------------------------

  /** How many parentheses are open after `w`, read inside a word; `None` where the word
      would have ended. */
  function Open(w: string, depth: nat): Option<nat> {
    if w == "" then Some(depth)
    else if Blank(w[0]) && depth == 0 then None
    else if w[0] == '(' then Open(w[1..], depth + 1)
    else if w[0] == ')' then if depth == 0 then None else Open(w[1..], depth - 1)
    else Open(w[1..], depth)
  }

  predicate IsWord(w: string) {
    w != "" && !Blank(w[0]) && w[0] != '(' && w[0] != ')' && Open(w, 0).Some?
  }

  /** A word whose parentheses are all closed. */
  predicate IsClosed(w: string) {
    IsWord(w) && Open(w, 0) == Some(0)
  }

  /** Tokens a text can have: only the last may leave a parenthesis open. */
  predicate Tokenlike(ts: seq<string>) {
    ts == [] ||
    ((ts[0] == "(" || ts[0] == ")" || (if |ts| == 1 then IsWord(ts[0]) else IsClosed(ts[0]))) && Tokenlike(ts[1..]))
  }

  /** The tokens with a blank between each two. */
  function Spaced(ts: seq<string>): string
    decreases ts, 0
  {
    if ts == [] then "" else ts[0] + Trailing(ts[1..])
  }

  function Trailing(ts: seq<string>): string
    decreases ts, 1
  {
    if ts == [] then "" else [' '] + Spaced(ts)
  }

  lemma {:induction false} OpenSnoc(w: string, depth: nat, c: char)
    requires Open(w, depth).Some?
    ensures Open(w + [c], depth) == Open([c], Open(w, depth).value)
  {
    if w != "" {
      assert (w + [c])[1..] == w[1..] + [c];
      OpenSnoc(w[1..], if w[0] == '(' then depth + 1 else if w[0] == ')' then depth - 1 else depth, c);
    } else {
      assert w + [c] == [c];
    }
  }

  /** Inside a word the scan only adds to it. */
  lemma {:induction false} WordScan(w: string, rest: string, word: string, depth: nat)
    requires Open(w, depth).Some? && word != ""
    ensures Tokens(w + rest, word, depth) == Tokens(rest, word + w, Open(w, depth).value)
    decreases w
  {
    if w == "" {
      assert w + rest == rest && word + w == word;
    } else {
      var s := Step(word, depth, w[0]);
      assert (w + rest)[1..] == w[1..] + rest && s.word + w[1..] == word + w;
      WordScan(w[1..], rest, s.word, s.depth);
      assert s.out == [];
    }
  }

  lemma {:induction false} FirstWordScan(w: string, rest: string)
    requires IsWord(w)
    ensures Tokens(w + rest, "", 0) == Tokens(rest, w, Open(w, 0).value)
  {
    assert (w + rest)[1..] == w[1..] + rest && [w[0]] + w[1..] == w && "" + [w[0]] == [w[0]];
    WordScan(w[1..], rest, [w[0]], 0);
  }

  /** A token, then a text that begins with a blank or is over. */
  lemma {:induction false} TokenThenMore(w: string, more: string, ts: seq<string>)
    requires w == "(" || w == ")" || (if more == "" then IsWord(w) else IsClosed(w))
    requires more == "" || Blank(more[0])
    requires Tokens(more, "", 0) == ts
    ensures Tokens(w + more, "", 0) == [w] + ts
  {
    if w == "(" || w == ")" {
      assert (w + more)[1..] == more;
    } else {
      FirstWordScan(w, more);
      if more != "" {
        assert Step(w, 0, more[0]) == Scan([w], "", 0) && Step("", 0, more[0]) == Scan([], "", 0);
      }
    }
  }

  /** Any tokens a text can have are read back from their own spelling. */
  lemma {:induction false} SpacedReadsBack(ts: seq<string>)
    requires Tokenlike(ts)
    ensures Tokens(Spaced(ts), "", 0) == ts
    decreases ts, 0
  {
    if ts != [] {
      TrailingReadsBack(ts[1..]);
      TokenThenMore(ts[0], Trailing(ts[1..]), ts[1..]);
      assert ts == [ts[0]] + ts[1..];
    }
  }

  lemma {:induction false} TrailingReadsBack(ts: seq<string>)
    requires Tokenlike(ts)
    ensures Tokens(Trailing(ts), "", 0) == ts
    decreases ts, 1
  {
    if ts != [] {
      SpacedReadsBack(ts);
      BlankThen(Spaced(ts));
    }
  }

  lemma {:induction false} BlankThen(src: string)
    ensures Tokens([' '] + src, "", 0) == Tokens(src, "", 0)
  {
    assert ([' '] + src)[1..] == src && Step("", 0, ' ') == Scan([], "", 0);
  }

  /** What holds of the word begun: it is a word, with `depth` parentheses open. */
  predicate Begun(word: string, depth: nat) {
    if word == "" then depth == 0 else IsWord(word) && Open(word, 0) == Some(depth)
  }

  lemma {:induction false} StepIsTokenlike(word: string, depth: nat, c: char, later: seq<string>)
    requires Begun(word, depth) && Tokenlike(later)
    ensures Tokenlike(Step(word, depth, c).out + later)
  {
    StepKeepsBegun(word, depth, c);
    var s := Step(word, depth, c);
    if s.out == [] {
      assert s.out + later == later;
    } else if s.out == Flushed(word) + [")"] {
      TokenlikeFront(")", later);
      TokenlikeFront(word, [")"] + later);
      assert s.out + later == Flushed(word) + ([")"] + later);
    } else {
      TokenlikeFront(s.out[0], later);
    }
  }

  lemma {:induction false} TokenlikeFront(w: string, later: seq<string>)
    requires Tokenlike(later) && (w == "" || w == "(" || w == ")" || IsClosed(w))
    ensures Tokenlike(Flushed(w) + later)
  {
    if w == "" {
      assert Flushed(w) + later == later;
    } else {
      assert (Flushed(w) + later)[1..] == later;
    }
  }

  lemma {:induction false} StepKeepsBegun(word: string, depth: nat, c: char)
    requires Begun(word, depth)
    ensures var s := Step(word, depth, c); Begun(s.word, s.depth)
  {
    if word != "" {
      OpenSnoc(word, 0, c);
    } else {
      assert word + [c] == [c];
    }
  }

  /** Whatever the text, its tokens are such tokens. */
  lemma {:induction false} TokensAreTokenlike(src: string, word: string, depth: nat)
    requires Begun(word, depth)
    ensures Tokenlike(Tokens(src, word, depth))
    decreases src
  {
    if src != "" {
      var s := Step(word, depth, src[0]);
      StepKeepsBegun(word, depth, src[0]);
      TokensAreTokenlike(src[1..], s.word, s.depth);
      StepIsTokenlike(word, depth, src[0], Tokens(src[1..], s.word, s.depth));
    }
  }

  /** Writing the tokens out again and reading them changes nothing. */
  lemma {:induction false} TokensAreStable(src: string)
    ensures Tokens(Spaced(Tokens(src, "", 0)), "", 0) == Tokens(src, "", 0)
  {
    TokensAreTokenlike(src, "", 0);
    SpacedReadsBack(Tokens(src, "", 0));
  }

  /** A text is one token exactly when it is a parenthesis by itself or a word: blanks, and
      keywords among them, only inside parentheses of its own that are still open. */
  lemma {:induction false} OneTokenIff(text: string)
    ensures Tokens(text, "", 0) == [text] <==> text == "(" || text == ")" || IsWord(text)
  {
    if Tokens(text, "", 0) == [text] {
      TokensAreTokenlike(text, "", 0);
    }
    if IsWord(text) {
      FirstWordScan(text, "");
      assert text + "" == text;
    }
  }

  lemma {:induction false} OpenAppend(w: string, rest: string, depth: nat)
    requires Open(w, depth).Some?
    ensures Open(w + rest, depth) == Open(rest, Open(w, depth).value)
  {
    if w == "" {
      assert w + rest == rest;
    } else {
      assert (w + rest)[1..] == w[1..] + rest;
      OpenAppend(w[1..], rest, if w[0] == '(' then depth + 1 else if w[0] == ')' then depth - 1 else depth);
    }
  }

  /** So a word takes in all that follows it exactly when its own parentheses stay open to
      each blank and close no further than they opened. */
  lemma {:induction false} WordTakesInIff(w: string, rest: string)
    requires IsWord(w)
    ensures Tokens(w + rest, "", 0) == [w + rest] <==> Open(rest, Open(w, 0).value).Some?
  {
    OneTokenIff(w + rest);
    OpenAppend(w, rest, 0);
    assert (w + rest)[0] == w[0];
  }

  // ---- Nothing is lost --------------------------------------------------------------------

  function NoBlanks(s: string): string {
    if s == "" then "" else (if Blank(s[0]) then "" else [s[0]]) + NoBlanks(s[1..])
  }

  function Concat(ts: seq<string>): string {
    if ts == [] then "" else ts[0] + Concat(ts[1..])
  }

  lemma {:induction false} NoBlanksAppend(a: string, b: string)
    ensures NoBlanks(a + b) == NoBlanks(a) + NoBlanks(b)
  {
    if a == "" {
      assert a + b == b;
    } else {
      assert (a + b)[1..] == a[1..] + b;
      NoBlanksAppend(a[1..], b);
    }
  }

  lemma {:induction false} ConcatAppend(a: seq<string>, b: seq<string>)
    ensures Concat(a + b) == Concat(a) + Concat(b)
  {
    if a == [] {
      assert a + b == b;
    } else {
      assert (a + b)[1..] == a[1..] + b;
      ConcatAppend(a[1..], b);
    }
  }

  lemma {:induction false} StepLosesNothing(word: string, depth: nat, c: char)
    ensures var s := Step(word, depth, c); NoBlanks(Concat(s.out)) + NoBlanks(s.word) == NoBlanks(word) + NoBlanks([c])
  {
    var s := Step(word, depth, c);
    if s.out == [] && s.word == word + [c] {
      NoBlanksAppend(word, [c]);
    } else {
      StepEndsWord(word, depth, c);
      NoBlanksAppend(word, if Blank(c) then "" else [c]);
      assert NoBlanks([c]) == if Blank(c) then "" else [c];
    }
  }

  lemma {:induction false} StepEndsWord(word: string, depth: nat, c: char)
    requires var s := Step(word, depth, c); s.out != [] || s.word != word + [c]
    ensures var s := Step(word, depth, c); s.word == "" && Concat(s.out) == word + if Blank(c) then "" else [c]
  {
    ConcatAppend(Flushed(word), [[c]]);
    assert Concat([[c]]) == [c] && Concat(Flushed(word)) == word;
    assert word == "" ==> word + [c] == [c];
  }

  lemma {:induction false} Between(a: string, b: string, c: string, d: string, e: string)
    requires a + b == c + d
    ensures a + (b + e) == c + (d + e)
  {
    assert a + (b + e) == (a + b) + e && c + (d + e) == (c + d) + e;
  }

  /** Every character of the text but blanks is in its tokens, in order. */
  lemma {:induction false} NothingIsLost(src: string, word: string, depth: nat)
    ensures NoBlanks(Concat(Tokens(src, word, depth))) == NoBlanks(word) + NoBlanks(src)
    decreases src
  {
    if src == "" {
      assert Concat(Flushed(word)) == word;
    } else {
      var c, rest := [src[0]], src[1..];
      var s := Step(word, depth, src[0]);
      var later := Tokens(rest, s.word, s.depth);
      ConcatAppend(s.out, later);
      NoBlanksAppend(Concat(s.out), Concat(later));
      NothingIsLost(rest, s.word, s.depth);
      StepLosesNothing(word, depth, src[0]);
      Between(NoBlanks(Concat(s.out)), NoBlanks(s.word), NoBlanks(word), NoBlanks(c), NoBlanks(rest));
      assert src == c + rest;
      NoBlanksAppend(c, rest);
    }
  }

  // ---- Every expression can be written ------------------------------------------------------

  /** Expressions the parser can build: a chain joins at least two. */
  predicate Writable(e: Expr) {
    match e
    case Own(_) => true
    case FromPillar(_) => true
    case Not(inner) => Writable(inner)
    case Any(terms) => |terms| >= 2 && forall i | 0 <= i < |terms| :: Writable(terms[i])
    case All(terms) => |terms| >= 2 && forall i | 0 <= i < |terms| :: Writable(terms[i])
  }

  /** How the terms of an expression are spelt: each as a closed word that compiles to it. */
  predicate Spells(c: Compiler, spell: Expr -> string, e: Expr) {
    match e
    case Own(_) => SpellsOne(c, spell(e), e)
    case FromPillar(_) => SpellsOne(c, spell(e), e)
    case Not(inner) => Spells(c, spell, inner)
    case Any(terms) => forall i | 0 <= i < |terms| :: Spells(c, spell, terms[i])
    case All(terms) => forall i | 0 <= i < |terms| :: Spells(c, spell, terms[i])
  }

  predicate SpellsOne(c: Compiler, w: string, e: Expr) {
    IsClosed(w) && !IsAnd(w) && !IsOr(w) && !IsNot(w) && c(w) == Some(e)
  }

  /** The tree of an expression, with parentheses only where precedence needs them. */
  function Dress(spell: Expr -> string, e: Expr, level: nat): Tree
    requires Writable(e)
    decreases e, 1
  {
    match e
    case Own(_) => Leaf(spell(e))
    case FromPillar(_) => Leaf(spell(e))
    case Not(inner) => Neg("not", Dress(spell, inner, 1))
    case Any(terms) => Grouped(DressSeries(spell, terms, true), level < 3)
    case All(terms) => Grouped(DressSeries(spell, terms, false), level < 2)
  }

  function Grouped(t: Tree, yes: bool): Tree {
    if yes then Group(t) else t
  }

  function DressSeries(spell: Expr -> string, terms: seq<Expr>, any: bool): Tree
    requires |terms| >= 2 && forall i | 0 <= i < |terms| :: Writable(terms[i])
    decreases terms, 1
  {
    Series(any, Dress(spell, terms[0], Level(any) - 1), DressChain(spell, terms[1..], any))
  }

  function DressChain(spell: Expr -> string, terms: seq<Expr>, any: bool): Chain
    requires forall i | 0 <= i < |terms| :: Writable(terms[i])
    decreases terms, 0
  {
    if terms == [] then End
    else Link(if any then "or" else "and", Dress(spell, terms[0], Level(any) - 1), DressChain(spell, terms[1..], any))
  }

  /** The dressed tree obeys the grammar, and means the expression it dresses. */
  lemma {:induction false} DressMeans(c: Compiler, spell: Expr -> string, e: Expr, level: nat)
    requires Writable(e) && Spells(c, spell, e) && 1 <= level <= 3
    ensures var t := Dress(spell, e, level); Shaped(c, t, level) && Strip(c, t) == e && ClosedWords(t)
    decreases e, 1
  {
    match e {
      case Own(_) =>
      case FromPillar(_) =>
      case Not(inner) => DressMeans(c, spell, inner, 1);
      case Any(terms) => DressSeriesMeans(c, spell, terms, true);
      case All(terms) => DressSeriesMeans(c, spell, terms, false);
    }
  }

  lemma {:induction false} DressSeriesMeans(c: Compiler, spell: Expr -> string, terms: seq<Expr>, any: bool)
    requires |terms| >= 2 && forall i | 0 <= i < |terms| :: Writable(terms[i]) && Spells(c, spell, terms[i])
    ensures var t := DressSeries(spell, terms, any);
            Shaped(c, t, Level(any)) && Strip(c, t) == (if any then Any(terms) else All(terms)) && ClosedWords(t)
    decreases terms, 1
  {
    DressMeans(c, spell, terms[0], Level(any) - 1);
    DressChainMeans(c, spell, terms[1..], any);
    assert terms == [terms[0]] + terms[1..];
  }

  lemma {:induction false} DressChainMeans(c: Compiler, spell: Expr -> string, terms: seq<Expr>, any: bool)
    requires forall i | 0 <= i < |terms| :: Writable(terms[i]) && Spells(c, spell, terms[i])
    ensures var chain := DressChain(spell, terms, any);
            && ShapedChain(c, chain, any) && StripChain(c, chain) == terms && ClosedChain(chain)
            && (chain.End? <==> terms == [])
    decreases terms, 0
  {
    if terms != [] {
      DressMeans(c, spell, terms[0], Level(any) - 1);
      DressChainMeans(c, spell, terms[1..], any);
      assert terms == [terms[0]] + terms[1..];
    }
  }

  /** No leaf of a tree leaves a parenthesis open. */
  predicate ClosedWords(t: Tree) {
    match t
    case Leaf(w) => IsClosed(w)
    case Neg(_, inner) => ClosedWords(inner)
    case Group(inner) => ClosedWords(inner)
    case Series(_, first, rest) => ClosedWords(first) && ClosedChain(rest)
  }

  predicate ClosedChain(chain: Chain) {
    chain.Link? ==> ClosedWords(chain.term) && ClosedChain(chain.next)
  }

  lemma {:induction false} KeywordClosed(w: string)
    requires IsOr(w) || IsAnd(w) || IsNot(w)
    ensures IsClosed(w)
  {
    assert |w[2..]| <= 1 && w[1..][1..] == w[2..];
    assert Open(w[2..], 0) == Some(0) by {
      if |w| == 3 {
        assert w[2..][1..] == "";
      } else {
        assert w[2..] == "";
      }
    }
    assert Open(w[1..], 0) == Some(0);
  }

  predicate ClosedTokens(ts: seq<string>) {
    ts == [] || ((ts[0] == "(" || ts[0] == ")" || IsClosed(ts[0])) && ClosedTokens(ts[1..]))
  }

  lemma {:induction false} ClosedIsTokenlike(ts: seq<string>)
    requires ClosedTokens(ts)
    ensures Tokenlike(ts)
  {
    if ts != [] {
      ClosedIsTokenlike(ts[1..]);
    }
  }

  lemma {:induction false} SpellClosed(c: Compiler, t: Tree, level: nat, after: seq<string>)
    requires Shaped(c, t, level) && ClosedWords(t) && ClosedTokens(after)
    ensures ClosedTokens(Spell(t, after))
    decreases t
  {
    match t {
      case Leaf(w) => assert ([w] + after)[1..] == after;
      case Neg(mark, inner) =>
        SpellClosed(c, inner, 1, after);
        KeywordClosed(mark);
        assert Spell(t, after)[1..] == Spell(inner, after);
      case Group(inner) =>
        assert ([")"] + after)[1..] == after;
        SpellClosed(c, inner, 3, [")"] + after);
        assert Spell(t, after)[1..] == Spell(inner, [")"] + after);
      case Series(any, first, rest) =>
        SpellChainClosed(c, rest, any, after);
        SpellClosed(c, first, Level(any) - 1, SpellChain(rest, after));
    }
  }

  lemma {:induction false} SpellChainClosed(c: Compiler, chain: Chain, any: bool, after: seq<string>)
    requires ShapedChain(c, chain, any) && ClosedChain(chain) && ClosedTokens(after)
    ensures ClosedTokens(SpellChain(chain, after))
    decreases chain
  {
    if chain.Link? {
      SpellChainClosed(c, chain.next, any, after);
      SpellClosed(c, chain.term, Level(any) - 1, SpellChain(chain.next, after));
      KeywordClosed(chain.mark);
      assert SpellChain(chain, after)[1..] == Spell(chain.term, SpellChain(chain.next, after));
    }
  }

  /** From text to tree and back: any tree of the grammar, written out with blanks, is
      read as itself, or refused for its depth. */
  lemma {:induction false} TreeReadsBack(c: Compiler, t: Tree, left: nat)
    requires Shaped(c, t, 3) && ClosedWords(t)
    ensures Parse(c, Tokens(Spaced(Spell(t, [])), "", 0), left) == if Nesting(t) <= left then Ok(t) else Err(TooDeep)
  {
    SpellClosed(c, t, 3, []);
    ClosedIsTokenlike(Spell(t, []));
    SpacedReadsBack(Spell(t, []));
    WellFormedRefusedOnlyForDepth(c, t, left);
  }

  /** Every expression has a text, with parentheses only where precedence needs them, that
      is read as that expression, or refused for its depth and nothing else. */
  lemma {:induction false} ExpressionReadsBack(c: Compiler, spell: Expr -> string, e: Expr, left: nat)
    requires Writable(e) && Spells(c, spell, e)
    ensures var t := Dress(spell, e, 3);
            var r := Parse(c, Tokens(Spaced(Spell(t, [])), "", 0), left);
            if Nesting(t) <= left then r.Ok? && Strip(c, r.value) == e else r == Err(TooDeep)
  {
    DressMeans(c, spell, e, 3);
    TreeReadsBack(c, Dress(spell, e, 3), left);
  }
}
