/**
  The node's evidence chain (internal/nodeevidence/evidence.go and verify.go):
  each record carries its predecessor's hash and a hash of its own that covers
  everything else in it. The hash is a parameter, taken as injective and never
  empty.
*/
module Evidence {

  type Hash = string

  const SCHEMA := "halite.evidence/1"

  datatype Detail =
    | Plain(kind: string, text: string)
    | Receipt(anchoredSeq: nat, anchoredHash: Hash)

  /** Everything a record's hash covers. */
  datatype Payload = Payload(schema: string, number: nat, detail: Detail, lost: nat, prev: Hash)
  datatype Record = Record(payload: Payload, hash: Hash)

  type Hasher = Payload -> Hash

  ghost predicate IsHash(h: Hasher) {
    && (forall p :: h(p) != "")
    && (forall p, q :: h(p) == h(q) ==> p == q)
  }

  /** Log.Head: 0 and the empty hash for a chain with no records. */
  function HeadHash(chain: seq<Record>): Hash {
    if chain == [] then "" else chain[|chain| - 1].hash
  }

  function Append(h: Hasher, chain: seq<Record>, detail: Detail, lost: nat): seq<Record> {
    var p := Payload(SCHEMA, |chain| + 1, detail, lost, HeadHash(chain));
    chain + [Record(p, h(p))]
  }

  ghost predicate LinkHolds(h: Hasher, chain: seq<Record>, i: nat)
    requires i < |chain|
  {
    && chain[i].payload.schema == SCHEMA
    && chain[i].hash == h(chain[i].payload)
    && chain[i].payload.number == i + 1
    && chain[i].payload.prev == if i == 0 then "" else chain[i - 1].hash
  }

  /** A chain nobody has touched: hashes recompute, links hold, numbers count up from one. */
  ghost predicate Holds(h: Hasher, chain: seq<Record>) {
    forall i | 0 <= i < |chain| :: LinkHolds(h, chain, i)
  }

  lemma {:induction false} HoldsSnoc(h: Hasher, chain: seq<Record>, r: Record)
    ensures Holds(h, chain + [r]) <==>
            && Holds(h, chain)
            && r.payload.schema == SCHEMA && r.hash == h(r.payload)
            && r.payload.number == |chain| + 1 && r.payload.prev == HeadHash(chain)
  {
    var all := chain + [r];
    assert forall i | 0 <= i < |chain| :: LinkHolds(h, all, i) <==> LinkHolds(h, chain, i);
    assert LinkHolds(h, all, |chain|) <==>
           && r.payload.schema == SCHEMA && r.hash == h(r.payload)
           && r.payload.number == |chain| + 1 && r.payload.prev == HeadHash(chain);
  }

  lemma {:induction false} AppendHolds(h: Hasher, chain: seq<Record>, detail: Detail, lost: nat)
    requires Holds(h, chain)
    ensures Holds(h, Append(h, chain, detail, lost))
    ensures var t := Append(h, chain, detail, lost);
            && |t| == |chain| + 1 && t[..|chain|] == chain
            && t[|chain|].payload.detail == detail && t[|chain|].payload.lost == lost && t[|chain|].payload.number == |chain| + 1
  {
    var p := Payload(SCHEMA, |chain| + 1, detail, lost, HeadHash(chain));
    HoldsSnoc(h, chain, Record(p, h(p)));
  }

  // ---- What an anchored head proves -----------------------------------------

  /** One hash in common and everything up to it is the same, record for record. */
  lemma {:induction false} HashFixesPrefix(h: Hasher, a: seq<Record>, b: seq<Record>, i: nat, j: nat)
    requires IsHash(h) && Holds(h, a) && Holds(h, b)
    requires i < |a| && j < |b| && a[i].hash == b[j].hash
    ensures i == j && a[..i + 1] == b[..j + 1]
  {
    assert LinkHolds(h, a, i) && LinkHolds(h, b, j);
    assert a[i] == b[j];
    if i > 0 {
      HashFixesPrefix(h, a, b, i - 1, j - 1);
      assert a[..i + 1] == a[..i] + [a[i]];
      assert b[..j + 1] == b[..j] + [b[j]];
    }
  }

  /** The chain by itself proves less: cut short anywhere it still holds. */
  lemma {:induction false} TruncationHolds(h: Hasher, chain: seq<Record>, n: nat)
    requires Holds(h, chain) && n <= |chain|
    ensures Holds(h, chain[..n])
  {
    assert forall i | 0 <= i < n :: LinkHolds(h, chain, i) ==> LinkHolds(h, chain[..n], i);
  }

  // ---- verify-evidence --------------------------------------------------------

  datatype Line = Unreadable | Readable(record: Record)

  /** A segment file: its lines, and whether bytes of an incomplete one follow them. */
  datatype Segment = Segment(lines: seq<Line>, partial: bool)

  datatype Reason = NotARecord | Altered | StartsLate | WrongLink | WrongNumber | CutShort
  datatype Break = Break(segment: nat, line: nat, reason: Reason)

  /** What a verification has found so far; `prev` is the last readable record, if any. */
  datatype Walk = Walk(prev: seq<Record>, breaks: seq<Break>, unverified: nat, records: nat, lost: nat)

  function Contents(h: Hasher, r: Record, at: (nat, nat)): seq<Break> {
    if r.payload.schema == SCHEMA && h(r.payload) != r.hash then [Break(at.0, at.1, Altered)] else []
  }

  function Links(prev: seq<Record>, r: Record, at: (nat, nat)): seq<Break> {
    if prev == [] then (if r.payload.prev != "" || r.payload.number != 1 then [Break(at.0, at.1, StartsLate)] else [])
    else
      var last := prev[|prev| - 1];
      (if r.payload.prev != last.hash then [Break(at.0, at.1, WrongLink)] else []) +
      (if r.payload.number != last.payload.number + 1 then [Break(at.0, at.1, WrongNumber)] else [])
  }

  function Check(h: Hasher, w: Walk, line: Line, at: (nat, nat)): Walk {
    match line
    case Unreadable => w.(breaks := w.breaks + [Break(at.0, at.1, NotARecord)])
    case Readable(r) =>
      Walk([r], w.breaks + Contents(h, r, at) + Links(w.prev, r, at),
           w.unverified + (if r.payload.schema == SCHEMA then 0 else 1), w.records + 1, w.lost + r.payload.lost)
  }

  function CheckLines(h: Hasher, w: Walk, segment: nat, lines: seq<Line>): Walk {
    if lines == [] then w
    else Check(h, CheckLines(h, w, segment, lines[..|lines| - 1]), lines[|lines| - 1], (segment, |lines|))
  }

  function CheckSegment(h: Hasher, w: Walk, n: nat, segment: Segment): Walk {
    var done := CheckLines(h, w, n, segment.lines);
    if segment.partial then done.(breaks := done.breaks + [Break(n, 0, CutShort)]) else done
  }

  function CheckAll(h: Hasher, segments: seq<Segment>): Walk {
    if segments == [] then Walk([], [], 0, 0, 0)
    else
      var n := |segments| - 1;
      CheckSegment(h, CheckAll(h, segments[..n]), n, segments[n])
  }

  method Verify(h: Hasher, segments: seq<Segment>) returns (w: Walk)
    ensures w == CheckAll(h, segments)
  {
    w := Walk([], [], 0, 0, 0);
    for n := 0 to |segments|
      invariant w == CheckAll(h, segments[..n])
    {
      assert segments[..n + 1][..n] == segments[..n];
      w := Scan(h, w, n, segments[n].lines);
      if segments[n].partial {
        w := w.(breaks := w.breaks + [Break(n, 0, CutShort)]);
      }
    }
    assert segments[..|segments|] == segments;
  }

  /** The walk over one segment's complete lines. */
  method Scan(h: Hasher, from: Walk, segment: nat, lines: seq<Line>) returns (w: Walk)
    ensures w == CheckLines(h, from, segment, lines)
  {
    w := from;
    for i := 0 to |lines|
      invariant w == CheckLines(h, from, segment, lines[..i])
    {
      assert lines[..i + 1][..i] == lines[..i];
      if lines[i].Unreadable? {
        w := w.(breaks := w.breaks + [Break(segment, i + 1, NotARecord)]);
      } else {
        var r := lines[i].record;
        var breaks := w.breaks + Contents(h, r, (segment, i + 1)) + Links(w.prev, r, (segment, i + 1));
        var unknown := if r.payload.schema == SCHEMA then 0 else 1;
        w := Walk([r], breaks, w.unverified + unknown, w.records + 1, w.lost + r.payload.lost);
      }
    }
    assert lines[..|lines|] == lines;
  }

  // ---- What a verification's answer means ---------------------------------------------

  function LineRecords(lines: seq<Line>): seq<Record> {
    if lines == [] then []
    else
      var last := lines[|lines| - 1];
      LineRecords(lines[..|lines| - 1]) + if last.Readable? then [last.record] else []
  }

  /** Every record that can be read, across segments. */
  function RecordsOf(segments: seq<Segment>): seq<Record> {
    if segments == [] then []
    else RecordsOf(segments[..|segments| - 1]) + LineRecords(segments[|segments| - 1].lines)
  }

  predicate AllReadable(lines: seq<Line>) {
    forall i | 0 <= i < |lines| :: lines[i].Readable?
  }

  predicate Whole(segments: seq<Segment>) {
    forall n | 0 <= n < |segments| :: AllReadable(segments[n].lines) && !segments[n].partial
  }

  /** A record in its place, and as it was hashed if this build knows how it was hashed. */
  ghost predicate Fits(h: Hasher, chain: seq<Record>, i: nat)
    requires i < |chain|
  {
    && (chain[i].payload.schema == SCHEMA ==> chain[i].hash == h(chain[i].payload))
    && chain[i].payload.number == i + 1
    && chain[i].payload.prev == if i == 0 then "" else chain[i - 1].hash
  }

  ghost predicate AllFit(h: Hasher, chain: seq<Record>) {
    forall i | 0 <= i < |chain| :: Fits(h, chain, i)
  }

  function UnknownIn(chain: seq<Record>): nat {
    if chain == [] then 0
    else UnknownIn(chain[..|chain| - 1]) + if chain[|chain| - 1].payload.schema == SCHEMA then 0 else 1
  }

  function LostIn(chain: seq<Record>): nat {
    if chain == [] then 0 else LostIn(chain[..|chain| - 1]) + chain[|chain| - 1].payload.lost
  }

  /** What a walk says of the records it has passed; `whole` until something was not one. */
  ghost predicate Tells(h: Hasher, w: Walk, whole: bool, chain: seq<Record>) {
    && (w.breaks == [] <==> whole && AllFit(h, chain))
    && w.prev == (if chain == [] then [] else [chain[|chain| - 1]])
    && w.unverified == UnknownIn(chain) && w.records == |chain| && w.lost == LostIn(chain)
  }

  lemma {:induction false} AllFitSnoc(h: Hasher, chain: seq<Record>, r: Record, at: (nat, nat))
    ensures AllFit(h, chain + [r]) <==>
              AllFit(h, chain) && Contents(h, r, at) == [] && Links(if chain == [] then [] else [chain[|chain| - 1]], r, at) == []
  {
    var all, n := chain + [r], |chain|;
    assert forall i | 0 <= i < n :: Fits(h, all, i) <==> Fits(h, chain, i);
    assert AllFit(h, all) <==> AllFit(h, chain) && Fits(h, all, n);
    assert n > 0 && AllFit(h, chain) ==> Fits(h, chain, n - 1);
  }

  lemma {:induction false} LineTells(h: Hasher, w: Walk, whole: bool, chain: seq<Record>, line: Line, at: (nat, nat))
    requires Tells(h, w, whole, chain)
    ensures Tells(h, Check(h, w, line, at), whole && line.Readable?, chain + if line.Readable? then [line.record] else [])
  {
    if line.Readable? {
      AllFitSnoc(h, chain, line.record, at);
      assert (chain + [line.record])[..|chain|] == chain;
    } else {
      assert chain + [] == chain;
    }
  }

  lemma {:induction false} LinesLast(chain: seq<Record>, lines: seq<Line>)
    requires lines != []
    ensures var n := |lines| - 1;
            var was, last := lines[..n], if lines[n].Readable? then [lines[n].record] else [];
            && (AllReadable(lines) <==> AllReadable(was) && lines[n].Readable?)
            && chain + LineRecords(lines) == chain + LineRecords(was) + last
  {
  }

  lemma {:induction false} LinesTell(h: Hasher, w: Walk, whole: bool, chain: seq<Record>, segment: nat, lines: seq<Line>)
    requires Tells(h, w, whole, chain)
    ensures Tells(h, CheckLines(h, w, segment, lines), whole && AllReadable(lines), chain + LineRecords(lines))
  {
    if lines == [] {
      assert chain + [] == chain;
    } else {
      var n := |lines| - 1;
      var was := lines[..n];
      LinesTell(h, w, whole, chain, segment, was);
      LinesLast(chain, lines);
      var mid, seen := CheckLines(h, w, segment, was), chain + LineRecords(was);
      LineTells(h, mid, whole && AllReadable(was), seen, lines[n], (segment, |lines|));
      assert CheckLines(h, w, segment, lines) == Check(h, mid, lines[n], (segment, |lines|));
    }
  }

  /** What OK and its counts mean: no break exactly when every line of every segment reads
      and every record that can be checked fits; and how many cannot be. */
  lemma {:induction false} OkIffAllFit(h: Hasher, segments: seq<Segment>)
    ensures Tells(h, CheckAll(h, segments), Whole(segments), RecordsOf(segments))
  {
    if segments != [] {
      var n := |segments| - 1;
      var was := segments[..n];
      OkIffAllFit(h, was);
      assert Whole(segments) <==> Whole(was) && AllReadable(segments[n].lines) && !segments[n].partial;
      LinesTell(h, CheckAll(h, was), Whole(was), RecordsOf(was), n, segments[n].lines);
    }
  }

  lemma {:induction false} NoneUnknownIff(chain: seq<Record>)
    ensures UnknownIn(chain) == 0 <==> forall i | 0 <= i < |chain| :: chain[i].payload.schema == SCHEMA
  {
    if chain != [] {
      var n := |chain| - 1;
      NoneUnknownIff(chain[..n]);
      assert forall i | 0 <= i < n :: chain[..n][i] == chain[i];
    }
  }

  lemma {:induction false} HoldsIffFitsKnown(h: Hasher, chain: seq<Record>)
    ensures Holds(h, chain) <==> AllFit(h, chain) && UnknownIn(chain) == 0
  {
    NoneUnknownIff(chain);
    assert forall i | 0 <= i < |chain| :: LinkHolds(h, chain, i) <==> Fits(h, chain, i) && chain[i].payload.schema == SCHEMA;
  }

  /** Verify finds nothing wrong exactly when there is nothing wrong: no false alarm,
      nothing missed. */
  lemma {:induction false} VerifiedIffHolds(h: Hasher, segments: seq<Segment>)
    ensures var w := CheckAll(h, segments);
            (w.breaks == [] && w.unverified == 0) <==> (Whole(segments) && Holds(h, RecordsOf(segments)))
  {
    OkIffAllFit(h, segments);
    HoldsIffFitsKnown(h, RecordsOf(segments));
  }

  // ---- Which breaks, and where ---------------------------------------------------------------

  function LastOf(chain: seq<Record>): seq<Record> {
    if chain == [] then [] else [chain[|chain| - 1]]
  }

  /** What is wrong with a line after the records before it, by the reason given. */
  predicate IsWrong(h: Hasher, before: seq<Record>, line: Line, reason: Reason) {
    match reason
    case NotARecord => line.Unreadable?
    case Altered => line.Readable? && line.record.payload.schema == SCHEMA && line.record.hash != h(line.record.payload)
    case StartsLate => line.Readable? && before == [] && !(line.record.payload.prev == "" && line.record.payload.number == 1)
    case WrongLink => line.Readable? && before != [] && line.record.payload.prev != before[|before| - 1].hash
    case WrongNumber =>
      line.Readable? && before != [] && line.record.payload.number != before[|before| - 1].payload.number + 1
    case CutShort => false
  }

  ghost predicate WrongLine(h: Hasher, before: seq<Record>, segment: nat, lines: seq<Line>, b: Break) {
    && b.segment == segment && 1 <= b.line <= |lines|
    && IsWrong(h, before + LineRecords(lines[..b.line - 1]), lines[b.line - 1], b.reason)
  }

  ghost predicate WrongIn(h: Hasher, segments: seq<Segment>, b: Break) {
    && b.segment < |segments|
    && var before, s := RecordsOf(segments[..b.segment]), segments[b.segment];
       (b.reason == CutShort && b.line == 0 && s.partial) || WrongLine(h, before, b.segment, s.lines, b)
  }

  lemma {:induction false} LineBreaks(h: Hasher, w: Walk, before: seq<Record>, line: Line, at: (nat, nat))
    requires w.prev == LastOf(before)
    ensures var t := Check(h, w, line, at);
            && t.prev == LastOf(before + if line.Readable? then [line.record] else [])
            && forall b :: b in t.breaks <==>
                 b in w.breaks || (b.segment == at.0 && b.line == at.1 && IsWrong(h, before, line, b.reason))
  {
    if line.Unreadable? {
      assert before + [] == before;
    }
  }

  lemma {:induction false} LinesBreaks(h: Hasher, w: Walk, before: seq<Record>, segment: nat, lines: seq<Line>)
    requires w.prev == LastOf(before)
    ensures var t := CheckLines(h, w, segment, lines);
            && t.prev == LastOf(before + LineRecords(lines))
            && forall b :: b in t.breaks <==> b in w.breaks || WrongLine(h, before, segment, lines, b)
  {
    if lines == [] {
      assert before + [] == before;
    } else {
      var n := |lines| - 1;
      var was := lines[..n];
      LinesBreaks(h, w, before, segment, was);
      LineBreaks(h, CheckLines(h, w, segment, was), before + LineRecords(was), lines[n], (segment, |lines|));
      var last := if lines[n].Readable? then [lines[n].record] else [];
      assert before + LineRecords(was) + last == before + (LineRecords(was) + last);
      forall b
        ensures WrongLine(h, before, segment, lines, b) <==>
                WrongLine(h, before, segment, was, b)
                || (b.segment == segment && b.line == |lines| && IsWrong(h, before + LineRecords(was), lines[n], b.reason))
      {
        if 1 <= b.line <= n {
          assert was[..b.line - 1] == lines[..b.line - 1] && was[b.line - 1] == lines[b.line - 1];
        }
      }
    }
  }

  /** A verification reports exactly what is wrong, by segment, line and reason: nothing is
      reported that is not so, and nothing that is so goes unreported. */
  lemma {:induction false} BreaksAreExact(h: Hasher, segments: seq<Segment>)
    ensures var w := CheckAll(h, segments);
            && w.prev == LastOf(RecordsOf(segments))
            && forall b :: b in w.breaks <==> WrongIn(h, segments, b)
  {
    if segments != [] {
      var n := |segments| - 1;
      var was := segments[..n];
      BreaksAreExact(h, was);
      LinesBreaks(h, CheckAll(h, was), RecordsOf(was), n, segments[n].lines);
      forall b
        ensures WrongIn(h, segments, b) <==>
                WrongIn(h, was, b) || WrongLine(h, RecordsOf(was), n, segments[n].lines, b)
                || (b == Break(n, 0, CutShort) && segments[n].partial)
      {
        if b.segment < n {
          assert was[..b.segment] == segments[..b.segment] && was[b.segment] == segments[b.segment];
        }
      }
    }
  }

  // ---- A record replaced -----------------------------------------------------------------

  lemma {:induction false} ReplacedChangesOneCount(h: Hasher, chain: seq<Record>, i: nat, r: Record)
    requires Holds(h, chain) && i < |chain|
    ensures UnknownIn(chain[i := r]) == if r.payload.schema == SCHEMA then 0 else 1
  {
    var n := |chain| - 1;
    TruncationHolds(h, chain, n);
    HoldsIffFitsKnown(h, chain);
    HoldsIffFitsKnown(h, chain[..n]);
    assert LinkHolds(h, chain, n);
    if i == n {
      assert chain[i := r][..n] == chain[..n];
    } else {
      ReplacedChangesOneCount(h, chain[..n], i, r);
      assert chain[i := r][..n] == chain[..n][i := r];
    }
  }

  /** A record that can stand where another does: in the same place, under the hash the next
      one names, and hashed right if this build can tell. */
  predicate StandsFor(h: Hasher, chain: seq<Record>, i: nat, r: Record)
    requires i < |chain|
  {
    && r.payload.number == chain[i].payload.number && r.payload.prev == chain[i].payload.prev
    && (i + 1 < |chain| ==> r.hash == chain[i].hash)
    && (r.payload.schema == SCHEMA ==> r.hash == h(r.payload))
  }

  lemma {:induction false} ReplacedFits(h: Hasher, chain: seq<Record>, i: nat, r: Record)
    requires Holds(h, chain) && i < |chain|
    ensures AllFit(h, chain[i := r]) <==> StandsFor(h, chain, i, r)
  {
    var edited := chain[i := r];
    assert LinkHolds(h, chain, i);
    assert Fits(h, edited, i) <==>
      r.payload.number == chain[i].payload.number && r.payload.prev == chain[i].payload.prev
      && (r.payload.schema == SCHEMA ==> r.hash == h(r.payload));
    forall j | 0 <= j < |chain| && j != i && j != i + 1
      ensures Fits(h, edited, j)
    {
      assert LinkHolds(h, chain, j);
    }
    if i + 1 < |chain| {
      assert LinkHolds(h, chain, i + 1);
      assert Fits(h, edited, i + 1) <==> r.hash == chain[i].hash;
    }
    assert AllFit(h, edited) <==> Fits(h, edited, i) && (i + 1 < |chain| ==> Fits(h, edited, i + 1));
  }

  /** Exactly which records can replace any one of a chain that holds, however it is cut
      into segments, without a break; and that an unknown schema is counted. */
  lemma {:induction false} ReplacedUnnoticedIff(h: Hasher, chain: seq<Record>, i: nat, r: Record, segments: seq<Segment>)
    requires Holds(h, chain) && i < |chain|
    requires Whole(segments) && RecordsOf(segments) == chain[i := r]
    ensures var w := CheckAll(h, segments);
            && (w.breaks == [] <==> StandsFor(h, chain, i, r))
            && w.unverified == if r.payload.schema == SCHEMA then 0 else 1
  {
    OkIffAllFit(h, segments);
    ReplacedChangesOneCount(h, chain, i, r);
    ReplacedFits(h, chain, i, r);
  }

  /** So before the last record, a known schema passes only for the record itself. */
  lemma {:induction false} KnownIsNoticedBeforeTheLast(h: Hasher, chain: seq<Record>, i: nat, r: Record)
    requires IsHash(h) && Holds(h, chain) && i + 1 < |chain| && r.payload.schema == SCHEMA
    ensures StandsFor(h, chain, i, r) <==> r == chain[i]
  {
    assert LinkHolds(h, chain, i);
  }

  /** The last one can be rewritten and hashed again, and the chain still holds: only a
      receipt for it can tell. */
  lemma {:induction false} LastCanBeRewritten(h: Hasher, chain: seq<Record>, detail: Detail, lost: nat)
    requires Holds(h, chain) && chain != []
    ensures var n := |chain| - 1;
            var rewritten := Append(h, chain[..n], detail, lost);
            Holds(h, rewritten) && StandsFor(h, chain, n, rewritten[n]) && rewritten == chain[n := rewritten[n]]
  {
    var n := |chain| - 1;
    TruncationHolds(h, chain, n);
    AppendHolds(h, chain[..n], detail, lost);
    assert LinkHolds(h, chain, n);
  }
}
