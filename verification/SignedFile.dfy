/**
  The file the record of signed jobs lives in (internal/job/signedreplay.go): one line
  per accepted job, appended and synced. A write that fails may leave any part of its
  line behind, and later lines then follow that part. Loading such a file must not lose
  a job that was accepted.
*/
module SignedFile {
  import opened Basics

  type Time = int

  type Jids = map<string, Option<Time>>

  /** Whether fourteen digits are a moment, and RFC 3339 with nanoseconds. */
  datatype Calendar = Calendar(isMoment: string -> bool, parse: string -> Option<Time>, format: Time -> string)

  predicate ReadsBack(z: Calendar, t: Time) {
    z.parse(z.format(t)) == Some(t)
  }

  /** What an identifier is made of, and so what can follow a torn line in the file before
      the next blank. */
  predicate Stem(x: string) {
    forall i | 0 <= i < |x| :: '0' <= x[i] <= '9' || x[i] == 'T'
  }

  /** Part of a time, whatever of an identifier follows it, is no time: it lacks the zone. */
  predicate TornIsNoTime(z: Calendar, t: Time, n: nat, x: string) {
    n <= |z.format(t)| && Stem(x) && z.parse(z.format(t)[..n] + x).Some? ==> n == |z.format(t)| && x == ""
  }

  ghost predicate RoundTrips(z: Calendar) {
    && (forall t :: ReadsBack(z, t))
    && (forall t, n, x :: TornIsNoTime(z, t, n, x))
    && (forall s | z.parse(s).Some? :: ' ' !in s && '\n' !in s && s != "" && '0' <= s[0] <= '9')
  }

  predicate Digits(s: string) {
    s == "" || ('0' <= s[0] <= '9' && Digits(s[1..]))
  }

  /** ID.Valid. */
  predicate ValidJid(z: Calendar, s: string) {
    |s| == 21 && s[8] == 'T' && Digits(s[..8]) && Digits(s[9..]) && z.isMoment(s)
  }

  lemma {:induction false} DigitsAre(s: string)
    requires Digits(s)
    ensures forall i | 0 <= i < |s| :: '0' <= s[i] <= '9'
  {
    if s != "" {
      DigitsAre(s[1..]);
      assert forall i | 0 < i < |s| :: s[i] == s[1..][i - 1];
    }
  }

  lemma {:induction false} JidIsStem(z: Calendar, s: string)
    requires ValidJid(z, s)
    ensures Stem(s) && ' ' !in s && '\n' !in s
  {
    DigitsAre(s[..8]);
    DigitsAre(s[9..]);
    assert forall i | 0 <= i < 8 :: s[i] == s[..8][i];
    assert forall i | 9 <= i < 21 :: s[i] == s[9..][i - 9];
  }

  /** A record as it is written, without its newline. */
  function Line(z: Calendar, jid: string, expires: Option<Time>): string {
    jid + [' '] + (if expires.None? then "never" else z.format(expires.value))
  }

  /** Where a character first stands, or the length of the text. */
  function Find(c: char, s: string): (n: nat)
    ensures n <= |s| && c !in s[..n] && (n < |s| ==> s[n] == c)
  {
    if s == "" || s[0] == c then 0
    else
      assert forall k | 0 <= k <= |s| - 1 :: s[..k + 1] == [s[0]] + s[1..][..k];
      1 + Find(c, s[1..])
  }

  lemma {:induction false} FindAfter(c: char, before: string, after: string)
    requires c !in before
    ensures Find(c, before + [c] + after) == |before|
  {
    if before == "" {
      assert before + [c] + after == [c] + after;
    } else {
      assert (before + [c] + after)[1..] == before[1..] + [c] + after;
      FindAfter(c, before[1..], after);
    }
  }

  lemma {:induction false} FindAtMost(c: char, s: string, i: nat)
    requires i < |s| && s[i] == c
    ensures Find(c, s) <= i
  {
    if s[0] != c {
      FindAtMost(c, s[1..], i - 1);
    }
  }

  /** parseSignedReplayLine. */
  function ParseLine(z: Calendar, line: string): Option<(string, Option<Time>)> {
    var n := Find(' ', line);
    if n == |line| || !ValidJid(z, line[..n]) then None
    else
      var at := line[n + 1..];
      if at == "never" then Some((line[..n], None))
      else
        var t := z.parse(at);
        if t.None? then None else Some((line[..n], t))
  }

  type LineReader = string -> Option<(string, Option<Time>)>

  /** parseSignedReplayLine, as load is given it. */
  function ReaderOf(z: Calendar): LineReader {
    line => ParseLine(z, line)
  }

  /** strings.Split at newlines: the last piece is what follows the last one. */
  function SplitLines(text: string): (pieces: seq<string>)
    ensures |pieces| >= 1
    decreases |text|
  {
    var n := Find('\n', text);
    if n == |text| then [text] else [text[..n]] + SplitLines(text[n + 1..])
  }

  /** load's loop: the records, and how many lines they were on. An unreadable line is an
      error unless it is empty, or the last and without a newline. */
  function LoadLines(read: LineReader, pieces: seq<string>, seen: Jids, count: nat): Option<(Jids, nat)>
    requires |pieces| >= 1
  {
    var record := read(pieces[0]);
    var more := if record.Some? then seen[record.value.0 := record.value.1] else seen;
    var counted := if record.Some? then count + 1 else count;
    if |pieces| == 1 then Some((more, counted))
    else if record.None? && pieces[0] != "" then None
    else LoadLines(read, pieces[1..], more, counted)
  }

  method LoadText(read: LineReader, text: string) returns (r: Option<(Jids, nat)>)
    requires read("").None?
    ensures r == LoadLines(read, SplitLines(text), map[], 0)
  {
    var pieces := SplitLines(text);
    var seen: Jids := map[];
    var lines := 0;
    for i := 0 to |pieces| - 1
      invariant LoadLines(read, pieces[i..], seen, lines) == LoadLines(read, pieces, map[], 0)
    {
      assert pieces[i..][1..] == pieces[i + 1..];
      if pieces[i] != "" {
        var record := read(pieces[i]);
        if record.None? {
          return None;
        }
        seen := seen[record.value.0 := record.value.1];
        lines := lines + 1;
      }
    }
    var last := read(pieces[|pieces| - 1]);
    assert pieces[|pieces| - 1..] == [pieces[|pieces| - 1]];
    if last.Some? {
      seen := seen[last.value.0 := last.value.1];
      lines := lines + 1;
    }
    r := Some((seen, lines));
  }

  // ---- What appends leave ------------------------------------------------------------

  /** How much of its line a write that failed left behind. */
  datatype Left = Nothing | Part | AllButNewline

  /** An append whose line is there, or one that failed after `n` characters of it. */
  datatype Append =
    | Full(jid: string, expires: Option<Time>)
    | Torn(jid: string, expires: Option<Time>, left: Left, n: nat)

  predicate CanAppend(z: Calendar, a: Append) {
    && ValidJid(z, a.jid)
    && (a.Torn? ==>
          && a.n <= |Line(z, a.jid, a.expires)|
          && a.left == if a.n == 0 then Nothing else if a.n == |Line(z, a.jid, a.expires)| then AllButNewline else Part)
  }

  function Written(z: Calendar, a: Append): string
    requires CanAppend(z, a)
  {
    match a
    case Full(jid, expires) => Line(z, jid, expires) + ['\n']
    case Torn(jid, expires, _, n) => Line(z, jid, expires)[..n]
  }

  ghost predicate AllCan(z: Calendar, appends: seq<Append>) {
    forall i | 0 <= i < |appends| :: CanAppend(z, appends[i])
  }

  ghost function Text(z: Calendar, appends: seq<Append>): string
    requires AllCan(z, appends)
  {
    if appends == [] then "" else Written(z, appends[0]) + Text(z, appends[1..])
  }

  // ---- What the file means -------------------------------------------------------------

  /** What follows the last newline: nothing, something that is no record, or a record that
      lacks only its newline. */
  datatype Tail = Empty | Broken | Whole(jid: string, expires: Option<Time>)

  /** A file by its meaning: its lines, how many, whether one of them is glued to part of
      another, and what follows. */
  datatype File = File(lines: Jids, count: nat, glued: bool, tail: Tail)

  function Appended(f: File, jid: string, expires: Option<Time>): File {
    File(f.lines[jid := expires], f.count + 1, f.glued || f.tail != Empty, Empty)
  }

  function TornBy(f: File, jid: string, expires: Option<Time>, left: Left): File {
    if left.Nothing? then f
    else f.(tail := if f.tail.Empty? && left.AllButNewline? then Whole(jid, expires) else Broken)
  }

  /** What a load of it gives. */
  function Meaning(f: File): Option<(Jids, nat)> {
    if f.glued then None
    else if f.tail.Whole? then Some((f.lines[f.tail.jid := f.tail.expires], f.count + 1))
    else Some((f.lines, f.count))
  }

  function FileOf(f: File, appends: seq<Append>): File
    decreases appends
  {
    if appends == [] then f
    else
      var a := appends[0];
      FileOf(if a.Full? then Appended(f, a.jid, a.expires) else TornBy(f, a.jid, a.expires, a.left), appends[1..])
  }

  predicate AnyFull(appends: seq<Append>) {
    appends != [] && (appends[0].Full? || AnyFull(appends[1..]))
  }

  // ---- The text against its meaning ------------------------------------------------------

  lemma {:induction false} LineParses(z: Calendar, jid: string, expires: Option<Time>)
    requires RoundTrips(z) && ValidJid(z, jid)
    ensures ParseLine(z, Line(z, jid, expires)) == Some((jid, expires))
    ensures '\n' !in Line(z, jid, expires) && Line(z, jid, expires) != ""
  {
    JidIsStem(z, jid);
    var at := if expires.None? then "never" else z.format(expires.value);
    if expires.Some? {
      assert ReadsBack(z, expires.value);
    }
    assert ' ' !in at && '\n' !in at;
    FindAfter(' ', jid, at);
    var line := Line(z, jid, expires);
    assert line[..21] == jid && line[22..] == at;
  }

  /** A whole line after anything is no record: its name is too long, or there are two
      blanks in it. */
  lemma {:induction false} GluedLineFails(z: Calendar, before: string, jid: string, expires: Option<Time>)
    requires RoundTrips(z) && ValidJid(z, jid) && before != ""
    ensures ParseLine(z, before + Line(z, jid, expires)) == None
  {
    var at := if expires.None? then "never" else z.format(expires.value);
    JidIsStem(z, jid);
    TwoPartsFail(z, before, jid, at);
    assert before + Line(z, jid, expires) == before + jid + [' '] + at;
  }

  /** So is an identifier and a blank after anything, whatever follows. */
  lemma {:induction false} TwoPartsFail(z: Calendar, before: string, jid: string, after: string)
    requires RoundTrips(z) && |jid| == 21 && ' ' !in jid && before != ""
    ensures ParseLine(z, before + jid + [' '] + after) == None
  {
    var line := before + jid + [' '] + after;
    var n := Find(' ', line);
    if ' ' !in before {
      FindAfter(' ', before + jid, after);
      assert |line[..n]| > 21;
    } else {
      var i :| 0 <= i < |before| && before[i] == ' ';
      FindAtMost(' ', line, i);
      var rest := line[n + 1..];
      assert rest == before[n + 1..] + jid + [' '] + after;
      assert rest[|before[n + 1..]| + 21] == ' ';
    }
  }

  /** A torn part never holds a newline. */
  lemma {:induction false} TornHasNoNewline(z: Calendar, a: Append)
    requires RoundTrips(z) && CanAppend(z, a) && a.Torn?
    ensures '\n' !in Written(z, a)
  {
    LineParses(z, a.jid, a.expires);
  }

  // ---- The last line, torn ---------------------------------------------------------------

  lemma {:induction false} FindBeyond(c: char, a: string, b: string)
    requires c !in a
    ensures Find(c, a + b) == |a| + Find(c, b)
  {
    if a == "" {
      assert a + b == b;
    } else {
      assert (a + b)[1..] == a[1..] + b;
      FindBeyond(c, a[1..], b);
    }
  }

  /** What torn parts look like together: before the first blank nothing but the stuff of
      identifiers, and at least one of them. */
  predicate TornShape(x: string) {
    Stem(x[..Find(' ', x)]) && (Find(' ', x) < |x| ==> Find(' ', x) >= 21)
  }

  lemma {:induction false} TornKeepsShape(z: Calendar, a: Append, rest: string)
    requires CanAppend(z, a) && a.Torn? && TornShape(rest)
    ensures TornShape(Written(z, a) + rest)
  {
    JidIsStem(z, a.jid);
    var part := Written(z, a);
    var line := Line(z, a.jid, a.expires);
    if a.n <= 21 {
      assert part == a.jid[..a.n] && ' ' !in part;
      FindBeyond(' ', part, rest);
      assert (part + rest)[..|part| + Find(' ', rest)] == part + rest[..Find(' ', rest)];
    } else {
      assert part + rest == a.jid + [' '] + (line[22..a.n] + rest);
      FindAfter(' ', a.jid, line[22..a.n] + rest);
      assert (part + rest)[..21] == a.jid;
    }
  }

  /** Part of a line with more torn parts after it is a record only if all but the newline
      was written and nothing follows. */
  lemma {:induction false} TornParses(z: Calendar, a: Append, rest: string)
    requires RoundTrips(z) && CanAppend(z, a) && a.Torn? && a.n > 0 && TornShape(rest)
    ensures ParseLine(z, Written(z, a) + rest) == if a.left.AllButNewline? && rest == "" then Some((a.jid, a.expires)) else None
  {
    JidIsStem(z, a.jid);
    if a.n <= 21 {
      ShortPartFails(z, a.jid[..a.n], rest);
      assert Written(z, a) == a.jid[..a.n];
    } else if a.left.AllButNewline? && rest == "" {
      assert Written(z, a) + rest == Line(z, a.jid, a.expires);
      LineParses(z, a.jid, a.expires);
    } else {
      LongPartFails(z, a, rest);
    }
  }

  lemma {:induction false} ShortPartFails(z: Calendar, part: string, rest: string)
    requires 0 < |part| <= 21 && ' ' !in part && TornShape(rest)
    ensures ParseLine(z, part + rest) == None
  {
    FindBeyond(' ', part, rest);
  }

  lemma {:induction false} LongPartFails(z: Calendar, a: Append, rest: string)
    requires RoundTrips(z) && CanAppend(z, a) && a.Torn? && a.n > 21 && TornShape(rest)
    requires !(a.left.AllButNewline? && rest == "")
    ensures ParseLine(z, Written(z, a) + rest) == None
  {
    var text := if a.expires.None? then "never" else z.format(a.expires.value);
    var line := Line(z, a.jid, a.expires);
    assert line[22..a.n] == text[..a.n - 22] && |line| == 22 + |text|;
    var at := text[..a.n - 22] + rest;
    assert Written(z, a) + rest == a.jid + [' '] + at;
    TornExpiryFails(z, a.expires, a.n - 22, rest);
    JidThen(z, a.jid, at);
  }

  lemma {:induction false} JidThen(z: Calendar, jid: string, at: string)
    requires ValidJid(z, jid) && z.parse(at).None? && at != "never"
    ensures ParseLine(z, jid + [' '] + at) == None
  {
    JidIsStem(z, jid);
    var line := jid + [' '] + at;
    FindAfter(' ', jid, at);
    assert line[..21] == jid && line[22..] == at;
  }

  lemma {:induction false} TornExpiryFails(z: Calendar, expires: Option<Time>, n: nat, rest: string)
    requires RoundTrips(z) && TornShape(rest)
    requires var text := if expires.None? then "never" else z.format(expires.value);
             n <= |text| && !(n == |text| && rest == "")
    ensures var text := if expires.None? then "never" else z.format(expires.value);
            z.parse(text[..n] + rest).None? && text[..n] + rest != "never"
  {
    var text := if expires.None? then "never" else z.format(expires.value);
    var at := text[..n] + rest;
    if ' ' in rest {
      var i :| 0 <= i < |rest| && rest[i] == ' ';
      assert at[n + i] == ' ';
    } else {
      assert rest[..|rest|] == rest && Stem(rest);
      var t := if expires.Some? then expires.value else 0;
      assert ReadsBack(z, t);
      if expires.Some? {
        assert TornIsNoTime(z, t, n, rest);
        assert if n > 0 then at[0] == text[0] else at == rest;
      } else {
        assert z.format(t)[..0] + rest == rest && TornIsNoTime(z, t, 0, rest);
        NeverTorn(n, rest);
      }
    }
  }

  lemma {:induction false} NeverTorn(n: nat, rest: string)
    requires n <= 5 && Stem(rest) && !(n == 5 && rest == "")
    ensures "never"[..n] + rest != "never" && (n > 0 ==> ("never"[..n] + rest)[0] == 'n') && (n == 0 ==> "never"[..n] + rest == rest)
  {
    var at := "never"[..n] + rest;
    assert rest != "" ==> at[|at| - 1] == rest[|rest| - 1];
  }

  // ---- What a load needs of the reading of lines ------------------------------------------

  predicate ReadsLine(z: Calendar, read: LineReader, jid: string, expires: Option<Time>) {
    read(Line(z, jid, expires)) == Some((jid, expires))
  }

  predicate RefusesGlued(z: Calendar, read: LineReader, before: string, jid: string, expires: Option<Time>) {
    before != "" ==> read(before + Line(z, jid, expires)) == None
  }

  predicate ReadsTorn(z: Calendar, read: LineReader, a: Append, rest: string)
    requires CanAppend(z, a) && a.Torn?
  {
    read(Written(z, a) + rest) == if a.left.AllButNewline? && rest == "" then Some((a.jid, a.expires)) else None
  }

  /** Whole lines are read, glued ones refused, and a torn one read only if it lacks its
      newline alone. */
  ghost predicate ReadsRight(z: Calendar, read: LineReader) {
    && read("") == None
    && (forall jid, expires {:trigger ReadsLine(z, read, jid, expires)} | ValidJid(z, jid) :: ReadsLine(z, read, jid, expires))
    && (forall before, jid, expires {:trigger RefusesGlued(z, read, before, jid, expires)} | ValidJid(z, jid) ::
          RefusesGlued(z, read, before, jid, expires))
    && (forall a: Append, rest {:trigger ReadsTorn(z, read, a, rest)} |
          CanAppend(z, a) && a.Torn? && a.n > 0 && TornShape(rest) :: ReadsTorn(z, read, a, rest))
  }

  lemma {:induction false} ParserReadsRight(z: Calendar)
    requires RoundTrips(z)
    ensures ReadsRight(z, ReaderOf(z))
  {
    var read := ReaderOf(z);
    forall jid, expires | ValidJid(z, jid)
      ensures ReadsLine(z, read, jid, expires)
    {
      LineParses(z, jid, expires);
    }
    forall before, jid, expires | ValidJid(z, jid)
      ensures RefusesGlued(z, read, before, jid, expires)
    {
      if before != "" {
        GluedLineFails(z, before, jid, expires);
      }
    }
    forall a: Append, rest | CanAppend(z, a) && a.Torn? && a.n > 0 && TornShape(rest)
      ensures ReadsTorn(z, read, a, rest)
    {
      TornParses(z, a, rest);
    }
  }

  // ---- The text as pieces -------------------------------------------------------------------

  lemma {:induction false} LineHasNoNewline(z: Calendar, jid: string, expires: Option<Time>)
    requires RoundTrips(z) && ValidJid(z, jid)
    ensures '\n' !in Line(z, jid, expires) && Line(z, jid, expires) != ""
  {
    LineParses(z, jid, expires);
  }

  /** What lies between the newlines, with `before` already on the first line. */
  ghost function Pieces(z: Calendar, before: string, appends: seq<Append>): (r: seq<string>)
    requires AllCan(z, appends)
    ensures |r| >= 1
    decreases |appends|
  {
    if appends == [] then [before]
    else
      var a, rest := appends[0], appends[1..];
      if a.Full? then [before + Line(z, a.jid, a.expires)] + Pieces(z, "", rest)
      else Pieces(z, before + Written(z, a), rest)
  }

  lemma {:induction false} SplitLast(text: string)
    requires '\n' !in text
    ensures SplitLines(text) == [text]
  {
    var n := Find('\n', text);
    assert n == |text|;
  }

  lemma {:induction false} SplitFirst(line: string, rest: string)
    requires '\n' !in line
    ensures SplitLines(line + ['\n'] + rest) == [line] + SplitLines(rest)
  {
    FindAfter('\n', line, rest);
    var text := line + ['\n'] + rest;
    assert text[..|line|] == line && text[|line| + 1..] == rest;
  }

  lemma {:induction false} TextInPieces(z: Calendar, before: string, appends: seq<Append>)
    requires RoundTrips(z) && AllCan(z, appends) && '\n' !in before
    ensures SplitLines(before + Text(z, appends)) == Pieces(z, before, appends)
    decreases |appends|
  {
    if appends == [] {
      assert before + "" == before;
      SplitLast(before);
    } else {
      var a, rest := appends[0], appends[1..];
      Assoc(before, Written(z, a), Text(z, rest));
      if a.Full? {
        var line := Line(z, a.jid, a.expires);
        LineHasNoNewline(z, a.jid, a.expires);
        Assoc(before, line, ['\n']);
        SplitFirst(before + line, Text(z, rest));
        TextInPieces(z, "", rest);
        assert "" + Text(z, rest) == Text(z, rest);
      } else {
        TornHasNoNewline(z, a);
        TextInPieces(z, before + Written(z, a), rest);
      }
    }
  }

  lemma {:induction false} Assoc(a: string, b: string, c: string)
    ensures a + (b + c) == a + b + c
  {
  }

  // ---- The pieces against the meaning ----------------------------------------------------------

  lemma {:induction false} GluedStays(f: File, appends: seq<Append>)
    requires f.glued || (f.tail != Empty && AnyFull(appends))
    ensures FileOf(f, appends).glued
    decreases appends
  {
    if appends != [] {
      var a := appends[0];
      GluedStays(if a.Full? then Appended(f, a.jid, a.expires) else TornBy(f, a.jid, a.expires, a.left), appends[1..]);
    }
  }

  lemma {:induction false} ShapesJoin(x: string, y: string)
    requires TornShape(x) && TornShape(y)
    ensures TornShape(x + y)
  {
    if ' ' in x {
      var i :| 0 <= i < |x| && x[i] == ' ';
      FindAtMost(' ', x, i);
      var n := Find(' ', x);
      assert x + y == x[..n] + [' '] + (x[n + 1..] + y);
      FindAfter(' ', x[..n], x[n + 1..] + y);
      assert (x + y)[..n] == x[..n];
    } else {
      FindBeyond(' ', x, y);
      assert x[..|x|] == x && (x + y)[..|x| + Find(' ', y)] == x + y[..Find(' ', y)];
    }
  }

  lemma {:induction false} PartHasShape(z: Calendar, a: Append)
    requires CanAppend(z, a) && a.Torn?
    ensures TornShape(Written(z, a))
  {
    TornKeepsShape(z, a, "");
    assert Written(z, a) + "" == Written(z, a);
  }

  function TailOf(a: Append, rest: string): Tail
    requires a.Torn?
  {
    if a.left.AllButNewline? && rest == "" then Whole(a.jid, a.expires) else Broken
  }

  /** After a first torn part and whatever torn parts have followed it. */
  lemma {:induction false} TornMeans(
    z: Calendar, read: LineReader, a: Append, rest: string, appends: seq<Append>, seen: Jids, count: nat)
    requires ReadsRight(z, read) && AllCan(z, appends)
    requires CanAppend(z, a) && a.Torn? && a.n > 0 && TornShape(rest)
    ensures LoadLines(read, Pieces(z, Written(z, a) + rest, appends), seen, count) ==
            Meaning(FileOf(File(seen, count, false, TailOf(a, rest)), appends))
    decreases |appends|
  {
    var before := Written(z, a) + rest;
    if appends == [] {
      assert ReadsTorn(z, read, a, rest);
    } else {
      var b, more := appends[0], appends[1..];
      if b.Full? {
        assert RefusesGlued(z, read, before, b.jid, b.expires);
        GluedStays(File(seen, count, false, TailOf(a, rest)), appends);
      } else if b.n == 0 {
        assert before + Written(z, b) == before;
        TornMeans(z, read, a, rest, more, seen, count);
      } else {
        PartHasShape(z, b);
        ShapesJoin(rest, Written(z, b));
        Assoc(Written(z, a), rest, Written(z, b));
        TornMeans(z, read, a, rest + Written(z, b), more, seen, count);
      }
    }
  }

  lemma {:induction false} CleanMeans(z: Calendar, read: LineReader, appends: seq<Append>, seen: Jids, count: nat)
    requires ReadsRight(z, read) && AllCan(z, appends)
    ensures LoadLines(read, Pieces(z, "", appends), seen, count) == Meaning(FileOf(File(seen, count, false, Empty), appends))
    decreases |appends|
  {
    if appends != [] {
      var a, rest := appends[0], appends[1..];
      PiecesFirst(z, appends);
      if a.Full? {
        CleanMeans(z, read, rest, seen[a.jid := a.expires], count + 1);
        assert ReadsLine(z, read, a.jid, a.expires);
        LoadFirst(read, Line(z, a.jid, a.expires), Pieces(z, "", rest), seen, count);
      } else if a.n == 0 {
        CleanMeans(z, read, rest, seen, count);
      } else {
        TornMeans(z, read, a, "", rest, seen, count);
      }
    }
  }

  lemma {:induction false} PiecesFirst(z: Calendar, appends: seq<Append>)
    requires AllCan(z, appends) && appends != []
    ensures var a, rest := appends[0], appends[1..];
            Pieces(z, "", appends) ==
            if a.Full? then [Line(z, a.jid, a.expires)] + Pieces(z, "", rest)
            else if a.n == 0 then Pieces(z, "", rest)
            else Pieces(z, Written(z, a) + "", rest)
  {
    var a := appends[0];
    assert "" + Written(z, a) == Written(z, a) && Written(z, a) + "" == Written(z, a);
    assert "" + Line(z, a.jid, a.expires) == Line(z, a.jid, a.expires);
  }

  lemma {:induction false} LoadFirst(read: LineReader, line: string, pieces: seq<string>, seen: Jids, count: nat)
    requires |pieces| >= 1 && read(line).Some?
    ensures LoadLines(read, [line] + pieces, seen, count) ==
            LoadLines(read, pieces, seen[read(line).value.0 := read(line).value.1], count + 1)
  {
    assert ([line] + pieces)[1..] == pieces;
  }

  /** Whatever was appended and however it was torn, loading the text gives exactly what the
      file means: an error if a whole line follows part of one; otherwise every line, and the
      last one too if it lacks only its newline. */
  lemma {:induction false} FileLoadsAsItMeans(z: Calendar, appends: seq<Append>)
    requires RoundTrips(z) && AllCan(z, appends)
    ensures LoadLines(ReaderOf(z), SplitLines(Text(z, appends)), map[], 0) ==
            Meaning(FileOf(File(map[], 0, false, Empty), appends))
  {
    ParserReadsRight(z);
    CleanMeans(z, ReaderOf(z), appends, map[], 0);
    TextInPieces(z, "", appends);
    assert "" + Text(z, appends) == Text(z, appends);
  }

  /** What the node accepted: a job is accepted only once its line is there. */
  function Accepted(seen: Jids, appends: seq<Append>): Jids
    decreases appends
  {
    if appends == [] then seen
    else Accepted(if appends[0].Full? then seen[appends[0].jid := appends[0].expires] else seen, appends[1..])
  }

  /** Part of a line was left behind, and a whole line written after it. */
  predicate Glued(appends: seq<Append>) {
    appends != [] && ((appends[0].Torn? && !appends[0].left.Nothing? && AnyFull(appends[1..])) || Glued(appends[1..]))
  }

  /** In terms of what was appended: the lines are the accepted jobs, and the file is
      unreadable exactly when a whole line was written after part of one. */
  lemma {:induction false} MeaningOfAppends(f: File, appends: seq<Append>)
    ensures FileOf(f, appends).lines == Accepted(f.lines, appends)
    ensures FileOf(f, appends).glued <==> f.glued || (f.tail != Empty && AnyFull(appends)) || Glued(appends)
    decreases appends
  {
    if appends != [] {
      var a := appends[0];
      MeaningOfAppends(if a.Full? then Appended(f, a.jid, a.expires) else TornBy(f, a.jid, a.expires, a.left), appends[1..]);
    }
  }

  // ---- A rewrite ----------------------------------------------------------------------------

  function Lines(records: Jids, order: seq<string>): seq<Append>
    requires forall k | k in order :: k in records
  {
    if order == [] then [] else [Full(order[0], records[order[0]])] + Lines(records, order[1..])
  }

  /** rewrite writes the records in whatever order a range gives them, and the file then
      means those records. */
  lemma {:induction false} RewriteMeans(f: File, records: Jids, order: seq<string>)
    requires !f.glued && f.tail == Empty && forall k | k in order :: k in records
    ensures var g := FileOf(f, Lines(records, order));
            && !g.glued && g.tail == Empty && g.count == f.count + |order|
            && g.lines == f.lines + (map k | k in order :: records[k])
    decreases order
  {
    if order != [] {
      var k, more := order[0], order[1..];
      assert Lines(records, order)[1..] == Lines(records, more);
      RewriteMeans(Appended(f, k, records[k]), records, more);
      OneRecordMore(f.lines, records, order);
    }
  }

  lemma {:induction false} OneRecordMore(lines: Jids, records: Jids, order: seq<string>)
    requires order != [] && forall k | k in order :: k in records
    ensures lines[order[0] := records[order[0]]] + (map x | x in order[1..] :: records[x]) ==
            lines + (map x | x in order :: records[x])
  {
    assert forall x :: x in order <==> x == order[0] || x in order[1..];
  }
}
