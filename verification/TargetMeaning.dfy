/**
  What a compound target says, read off its written form: `or`, `and`, `not` and
  parentheses as words mean them, the keywords in any case, and the sigils of typed
  terms (internal/target/compound.go, internal/target/target.go).
*/
module TargetMeaning {
  import opened Basics
  import opened SignedTarget
  import opened TargetGrammar
  import opened TargetParser

  /** Whether a written expression is true of a node with a pillar. */
  predicate Truth(self: Self, c: Compiler, t: Tree, p: Pillar) {
    match t
    case Leaf(word) => c(word).Some? && Meaning(self, c(word).value, p)
    case Neg(_, inner) => !Truth(self, c, inner, p)
    case Group(inner) => Truth(self, c, inner, p)
    case Series(any, first, rest) =>
      if any then Truth(self, c, first, p) || SomeTrue(self, c, rest, p)
      else Truth(self, c, first, p) && EachTrue(self, c, rest, p)
  }

  predicate SomeTrue(self: Self, c: Compiler, chain: Chain, p: Pillar) {
    chain.Link? && (Truth(self, c, chain.term, p) || SomeTrue(self, c, chain.next, p))
  }

  predicate EachTrue(self: Self, c: Compiler, chain: Chain, p: Pillar) {
    chain.Link? ==> Truth(self, c, chain.term, p) && EachTrue(self, c, chain.next, p)
  }

  /** The expression the parser builds is true exactly where the words are. */
  lemma {:induction false} MeansWhatItSays(self: Self, c: Compiler, t: Tree, level: nat, p: Pillar)
    requires Shaped(c, t, level)
    ensures Meaning(self, Strip(c, t), p) <==> Truth(self, c, t, p)
    decreases t
  {
    match t {
      case Leaf(_) =>
      case Neg(_, inner) => MeansWhatItSays(self, c, inner, 1, p);
      case Group(inner) => MeansWhatItSays(self, c, inner, 3, p);
      case Series(any, first, rest) =>
        MeansWhatItSays(self, c, first, Level(any) - 1, p);
        ChainMeans(self, c, rest, any, p);
        var terms := [Strip(c, first)] + StripChain(c, rest);
        assert forall i | 0 < i < |terms| :: terms[i] == StripChain(c, rest)[i - 1];
        assert forall i | 0 <= i < |StripChain(c, rest)| :: StripChain(c, rest)[i] == terms[i + 1];
        assert terms[0] == Strip(c, first);
    }
  }

  lemma {:induction false} ChainMeans(self: Self, c: Compiler, chain: Chain, any: bool, p: Pillar)
    requires ShapedChain(c, chain, any)
    ensures var terms := StripChain(c, chain);
            && (SomeTrue(self, c, chain, p) <==> exists i | 0 <= i < |terms| :: Meaning(self, terms[i], p))
            && (EachTrue(self, c, chain, p) <==> forall i | 0 <= i < |terms| :: Meaning(self, terms[i], p))
    decreases chain
  {
    if chain.Link? {
      MeansWhatItSays(self, c, chain.term, Level(any) - 1, p);
      ChainMeans(self, c, chain.next, any, p);
      var terms, rest := StripChain(c, chain), StripChain(c, chain.next);
      assert terms == [Strip(c, chain.term)] + rest;
      assert forall i | 0 < i < |terms| :: terms[i] == rest[i - 1];
      assert forall i | 0 <= i < |rest| :: rest[i] == terms[i + 1];
      assert terms[0] == Strip(c, chain.term);
    }
  }

  /** From the text of a signed compound target: a node whose pillar compiles accepts it if
      and only if it has a reading and the reading, as its words say, is true of the node. */
  lemma {:induction false} AcceptedIffTrue(self: Self, leaves: Leaves, text: string, t: Tree)
    requires self.pillar.Some? && IsReading(TermOf(leaves), text, t)
    ensures Accepted(self, Strip(TermOf(leaves), t)) <==> Truth(self, TermOf(leaves), t, self.pillar.value)
  {
    AcceptsOnlyWhatIsTrue(self, Strip(TermOf(leaves), t));
    MeansWhatItSays(self, TermOf(leaves), t, 3, self.pillar.value);
  }

  // ---- Keywords ---------------------------------------------------------------------------

  function Lower(c: char): char {
    if 'A' <= c <= 'Z' then c - 'A' + 'a' else c
  }

  function Lowered(w: string): string {
    seq(|w|, i requires 0 <= i < |w| => Lower(w[i]))
  }

  /** Keywords are three words, in any case, and nothing else. */
  lemma {:induction false} KeywordsFoldCase(w: string)
    ensures IsOr(w) <==> Lowered(w) == "or"
    ensures IsAnd(w) <==> Lowered(w) == "and"
    ensures IsNot(w) <==> Lowered(w) == "not"
  {
    var l := Lowered(w);
    if |w| == 2 {
      assert l == [Lower(w[0]), Lower(w[1])];
    } else if |w| == 3 {
      assert l == [Lower(w[0]), Lower(w[1]), Lower(w[2])];
    }
  }

  /** Nesting is refused from the hundred and first level on. */
  lemma {:induction false} AHundredLevels(c: Compiler, t: Tree)
    requires Shaped(c, t, 3)
    ensures Parse(c, Spell(t, []), MAX_DEPTH) == if Nesting(t) <= 100 then Ok(t) else Err(TooDeep)
  {
    WellFormedRefusedOnlyForDepth(c, t, MAX_DEPTH);
  }

  // ---- Terms -----------------------------------------------------------------------------------

  lemma {:induction false} MarkFound(before: string, after: string)
    requires '@' !in before
    ensures MarkAt(before + "@" + after) == |before|
  {
    if before == "" {
      assert before + "@" + after == "@" + after;
    } else {
      assert (before + "@" + after)[1..] == before[1..] + "@" + after;
      MarkFound(before[1..], after);
    }
  }

  /** The sigils, and the kinds of term they make. */
  predicate IsSigil(letter: char, kind: Kind) {
    || (letter == 'G' && kind == Grain) || (letter == 'P' && kind == GrainRegex)
    || (letter == 'I' && kind == InPillar) || (letter == 'J' && kind == PillarRegex)
    || (letter == 'L' && kind == List) || (letter == 'S' && kind == Subnet) || (letter == 'E' && kind == Regex)
  }

  /** A sigil and what follows it compile, on a node, as that kind of term, and not at all if
      nothing follows; a nodegroup never does. */
  lemma {:induction false} TypedTerm(leaves: Leaves, letter: char, kind: Kind, after: string)
    requires IsSigil(letter, kind)
    ensures TermOf(leaves)([letter] + "@" + after) == if after == "" then None else leaves(kind, after)
    ensures TermOf(leaves)(['N'] + "@" + after) == None
  {
    SigilRead(letter, after);
    SigilRead('N', after);
    LetterIs(letter, kind);
  }

  lemma {:induction false} LetterIs(letter: char, kind: Kind)
    requires IsSigil(letter, kind)
    ensures KindLetter([letter]) == Some(kind) && KindLetter(['N']) == Some(Nodegroup) && kind != Nodegroup
  {
  }

  lemma {:induction false} SigilRead(letter: char, after: string)
    requires letter != '@'
    ensures var word := [letter] + "@" + after; MarkAt(word) == 1 && word[..1] == [letter] && word[2..] == after && |word| == 2 + |after|
  {
    MarkFound([letter], after);
  }

  /** A word with no mark, or with one in front, is a glob. */
  lemma {:induction false} BareWordsAreGlobs(leaves: Leaves, word: string)
    requires '@' !in word || word[0] == '@'
    ensures TermOf(leaves)(word) == leaves(Glob, word)
  {
    var at := MarkAt(word);
    if '@' !in word {
      assert at == |word|;
    }
  }

  /** The kinds a signed job can name, by letter; no kind named is a glob. */
  lemma {:induction false} FlagLetters()
    ensures KindFromFlag("") == Some(Glob)
    ensures KindFromFlag("L") == Some(List)
    ensures KindFromFlag("E") == Some(Regex)
    ensures KindFromFlag("G") == Some(Grain)
    ensures KindFromFlag("P") == Some(GrainRegex)
  {
  }

  lemma {:induction false} FlagLettersToo()
    ensures KindFromFlag("I") == Some(InPillar)
    ensures KindFromFlag("J") == Some(PillarRegex)
    ensures KindFromFlag("S") == Some(Subnet)
    ensures KindFromFlag("N") == Some(Nodegroup)
    ensures KindFromFlag("C") == Some(Compound)
  {
  }

  /** And by word. */
  lemma {:induction false} FlagWords()
    ensures KindFromFlag("glob") == Some(Glob)
    ensures KindFromFlag("list") == Some(List)
    ensures KindFromFlag("pcre") == Some(Regex)
  {
  }

  lemma {:induction false} FlagWordsToo()
    ensures KindFromFlag("grain") == Some(Grain)
    ensures KindFromFlag("grain_pcre") == Some(GrainRegex)
    ensures KindFromFlag("pillar") == Some(InPillar)
  {
  }

  lemma {:induction false} FlagWordsLast()
    ensures KindFromFlag("pillar_pcre") == Some(PillarRegex)
    ensures KindFromFlag("ipcidr") == Some(Subnet)
    ensures KindFromFlag("nodegroup") == Some(Nodegroup)
    ensures KindFromFlag("compound") == Some(Compound)
  {
  }
}
