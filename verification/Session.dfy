/**
  An extension's side of the protocol (ext/extension.go, serve and answer): a
  handshake, then one answer to each call, whatever the handler does.
*/
module Session {
  import opened Basics
  import opened Frames

  const PROTOCOL_VERSION: int := 1

  datatype Emission =
    | Log(level: string, message: string)
    | Progress(text: string)
    | Event(tag: string, data: Option<string>)   // None: it would not encode, and is dropped

  datatype Ending =
    | Returned(value: string)
    | NotEncodable(why: string)
    | Failed(why: string)
    | Panicked(why: string)

  /** What running a handler on one call does. */
  datatype Behaviour = Behaviour(emits: seq<Emission>, ending: Ending)

  /** `handler` sees the number of the call too, so it may keep state. */
  datatype Extension = Extension(
    name: string, kind: string, hello: string, handler: Option<(nat, Frame) -> Behaviour>)

  const BLANK := Frame("", "", 0, "", "", false, "", "", "")

  function HelloOk(e: Extension): Frame {
    BLANK.(kind := "hello_ok", rest := e.hello)
  }

  function Emitted(id: string, x: Emission): Option<Frame> {
    match x
    case Log(level, message) => Some(BLANK.(kind := "log", id := id, rest := level + ":" + message))
    case Progress(text) => Some(BLANK.(kind := "progress", id := id, rest := text))
    case Event(tag, data) => if data.None? then None else Some(BLANK.(kind := "event", id := id, rest := tag + ":" + data.value))
  }

  function ResultOf(call: Frame, ending: Ending): Frame {
    var result := BLANK.(kind := "result", id := call.id);
    match ending
    case Returned(value) => result.(ok := true, value := value)
    case NotEncodable(why) => result.(error := "the result could not be encoded: " + why)
    case Failed(why) => result.(error := why)
    case Panicked(why) => result.(error := call.called + " panicked: " + why)
  }

  function BehaviourOn(e: Extension, n: nat, call: Frame): Behaviour {
    if e.handler.None? then Behaviour([], Failed("this extension provides no functions"))
    else e.handler.value(n, call)
  }

  function StreamFrames(id: string, emits: seq<Emission>): seq<Frame> {
    if emits == [] then []
    else
      var f := Emitted(id, emits[0]);
      (if f.Some? then [f.value] else []) + StreamFrames(id, emits[1..])
  }

  /** What answering one call puts in the stream. */
  function AnswerFrames(e: Extension, n: nat, call: Frame): seq<Frame> {
    var b := BehaviourOn(e, n, call);
    StreamFrames(call.id, b.emits) + [ResultOf(call, b.ending)]
  }

  predicate HelloAccepted(e: Extension, hello: Frame) {
    && hello.kind == "hello"
    && hello.protocol == PROTOCOL_VERSION
    && !(e.kind != "" && hello.ext != "" && hello.ext != e.kind)
  }

  /** The loop after the handshake, on the bytes that are left. */
  function CallLoop(c: Codec, e: Extension, n: nat, input: Bytes): (seq<Frame>, bool)
    decreases |input|
  {
    var (r, rest) := ReadFrom(c, input);
    match r
    case Got(f) =>
      if f.kind == "shutdown" then ([], true)
      else if f.kind == "call" then
        var (more, ok) := CallLoop(c, e, n + 1, rest);
        (AnswerFrames(e, n, f) + more, ok)
      else ([], false)
    case EndOfInput => ([], true)
    case _ => ([], false)
  }

  /** Everything `serve` tries to write, and whether it ends without an error. */
  function Served(c: Codec, e: Extension, input: Bytes): (seq<Frame>, bool) {
    var (r, rest) := ReadFrom(c, input);
    if !r.Got? || !HelloAccepted(e, r.frame) then ([], false)
    else if Wire(c, HelloOk(e)).None? then ([], false)
    else
      var (frames, ok) := CallLoop(c, e, 0, rest);
      ([HelloOk(e)] + frames, ok)
  }

  lemma {:induction false} WireAppend(c: Codec, a: seq<Frame>, b: seq<Frame>)
    ensures WireAll(c, a + b) == WireAll(c, a) + WireAll(c, b)
  {
    if a == [] {
      assert a + b == b;
    } else {
      assert (a + b)[1..] == a[1..] + b;
      WireAppend(c, a[1..], b);
    }
  }

  lemma {:induction false} WireOne(c: Codec, f: Frame)
    ensures WireAll(c, [f]) == if Wire(c, f).Some? then Wire(c, f).value else []
  {
  }

  lemma {:induction false} Assoc(a: Bytes, b: Bytes, c: Bytes)
    ensures (a + b) + c == a + (b + c)
  {
  }

  /** What is still to come after the first emission. */
  lemma {:induction false} StreamStep(c: Codec, id: string, emits: seq<Emission>)
    requires emits != []
    ensures var f := Emitted(id, emits[0]);
            WireAll(c, StreamFrames(id, emits)) ==
            (if f.Some? then WireAll(c, [f.value]) else []) + WireAll(c, StreamFrames(id, emits[1..]))
  {
    var f, rest := Emitted(id, emits[0]), StreamFrames(id, emits[1..]);
    if f.Some? {
      WireAppend(c, [f.value], rest);
    } else {
      assert [] + rest == rest;
    }
  }

  method Send(c: Codec, f: Frame, w: Writer) returns (ok: bool)
    modifies w
    ensures w.out == old(w.out) + WireAll(c, [f]) && ok == Wire(c, f).Some?
  {
    WireOne(c, f);
    ok := w.WriteFrame(c, f);
  }

  /** The streaming frames a handler emits, as they come. */
  method Stream(c: Codec, id: string, emits: seq<Emission>, w: Writer)
    modifies w
    ensures w.out == old(w.out) + WireAll(c, StreamFrames(id, emits))
  {
    for i := 0 to |emits|
      invariant w.out + WireAll(c, StreamFrames(id, emits[i..])) == old(w.out) + WireAll(c, StreamFrames(id, emits))
    {
      StreamStep(c, id, emits[i..]);
      assert emits[i..][1..] == emits[i + 1..];
      var f := Emitted(id, emits[i]);
      if f.Some? {
        Assoc(w.out, WireAll(c, [f.value]), WireAll(c, StreamFrames(id, emits[i + 1..])));
        var _ := Send(c, f.value, w);
      }
    }
  }

  /** answer: the handler's streaming frames, then one result, panic or not. */
  method Answer(c: Codec, e: Extension, n: nat, call: Frame, w: Writer)
    modifies w
    ensures w.out == old(w.out) + WireAll(c, AnswerFrames(e, n, call))
  {
    var b := BehaviourOn(e, n, call);
    var result := ResultOf(call, b.ending);
    WireAppend(c, StreamFrames(call.id, b.emits), [result]);
    Assoc(w.out, WireAll(c, StreamFrames(call.id, b.emits)), WireAll(c, [result]));
    Stream(c, call.id, b.emits, w);
    var _ := Send(c, result, w);
  }

  method Serve(c: Codec, e: Extension, r: Reader, w: Writer) returns (ok: bool)
    modifies r, w
    ensures ok == Served(c, e, old(r.left)).1
    ensures w.out == old(w.out) + WireAll(c, Served(c, e, old(r.left)).0)
  {
    var hello := r.ReadFrame(c);
    if !hello.Got? || !HelloAccepted(e, hello.frame) {
      return false;
    }
    var sent := Send(c, HelloOk(e), w);
    if !sent {
      return false;
    }
    ghost var frames := CallLoop(c, e, 0, r.left).0;
    WireAppend(c, [HelloOk(e)], frames);
    Assoc(old(w.out), WireAll(c, [HelloOk(e)]), WireAll(c, frames));
    ok := Calls(c, e, r, w);
  }

  /** What a call adds to the loop's output. */
  lemma {:induction false} LoopStep(c: Codec, e: Extension, n: nat, input: Bytes)
    requires ReadFrom(c, input).0.Got? && ReadFrom(c, input).0.frame.kind == "call"
    ensures var (r, rest) := ReadFrom(c, input);
            && CallLoop(c, e, n, input).1 == CallLoop(c, e, n + 1, rest).1
            && WireAll(c, CallLoop(c, e, n, input).0) ==
               WireAll(c, AnswerFrames(e, n, r.frame)) + WireAll(c, CallLoop(c, e, n + 1, rest).0)
            && |rest| < |input|
  {
    var (r, rest) := ReadFrom(c, input);
    WireAppend(c, AnswerFrames(e, n, r.frame), CallLoop(c, e, n + 1, rest).0);
  }

  method Calls(c: Codec, e: Extension, r: Reader, w: Writer) returns (ok: bool)
    modifies r, w
    ensures ok == CallLoop(c, e, 0, old(r.left)).1
    ensures w.out == old(w.out) + WireAll(c, CallLoop(c, e, 0, old(r.left)).0)
  {
    ghost var (all, end) := CallLoop(c, e, 0, r.left);
    var n := 0;
    while true
      invariant CallLoop(c, e, n, r.left).1 == end
      invariant w.out + WireAll(c, CallLoop(c, e, n, r.left).0) == old(w.out) + WireAll(c, all)
      decreases |r.left|
    {
      ghost var input := r.left;
      var f := r.ReadFrame(c);
      if f.Got? && f.frame.kind == "call" {
        LoopStep(c, e, n, input);
        Assoc(w.out, WireAll(c, AnswerFrames(e, n, f.frame)), WireAll(c, CallLoop(c, e, n + 1, r.left).0));
        Answer(c, e, n, f.frame, w);
      } else {
        assert CallLoop(c, e, n, input).0 == [];
        assert w.out + [] == w.out;
        return f == EndOfInput || (f.Got? && f.frame.kind == "shutdown");
      }
      n := n + 1;
    }
  }

  // ---- What the host reads -------------------------------------------------------------

  /** The answers to a list of calls, in order. */
  function AllAnswers(e: Extension, n: nat, calls: seq<Frame>): seq<Frame>
    decreases |calls|
  {
    if calls == [] then [] else AnswerFrames(e, n, calls[0]) + AllAnswers(e, n + 1, calls[1..])
  }

  lemma {:induction false} LoopAnswersEachCall(c: Codec, e: Extension, n: nat, calls: seq<Frame>, tail: Bytes)
    requires RoundTrips(c) && forall f | f in calls :: Sendable(c, f) && f.kind == "call"
    requires Ends(c, tail)
    ensures CallLoop(c, e, n, WireAll(c, calls) + tail) == (AllAnswers(e, n, calls), true)
    decreases |calls|
  {
    if calls == [] {
      assert WireAll(c, calls) + tail == tail;
    } else {
      var f, more := calls[0], calls[1..];
      assert Sendable(c, f) && f.kind == "call" && forall g | g in more :: g in calls;
      var rest := WireAll(c, more) + tail;
      assert WireAll(c, calls) + tail == Wire(c, f).value + rest;
      OneFrameReadsBack(c, f, rest);
      LoopAnswersEachCall(c, e, n + 1, more, tail);
    }
  }

  /** How a session may end: the host hangs up, or asks it to shut down. */
  ghost predicate Ends(c: Codec, tail: Bytes) {
    var r := ReadFrom(c, tail).0;
    r == EndOfInput || (r.Got? && r.frame.kind == "shutdown")
  }

  lemma {:induction false} ServedSession(c: Codec, e: Extension, hello: Frame, calls: seq<Frame>, tail: Bytes)
    requires RoundTrips(c) && Sendable(c, hello) && HelloAccepted(e, hello) && Wire(c, HelloOk(e)).Some?
    requires (forall f | f in calls :: Sendable(c, f) && f.kind == "call") && Ends(c, tail)
    ensures Served(c, e, WireAll(c, [hello] + calls) + tail) == ([HelloOk(e)] + AllAnswers(e, 0, calls), true)
  {
    WireAppend(c, [hello], calls);
    WireOne(c, hello);
    Assoc(Wire(c, hello).value, WireAll(c, calls), tail);
    OneFrameReadsBack(c, hello, WireAll(c, calls) + tail);
    LoopAnswersEachCall(c, e, 0, calls, tail);
  }

  /** The frames WriteFrame does not refuse. */
  function Fitting(c: Codec, frames: seq<Frame>): seq<Frame> {
    if frames == [] then []
    else (if Wire(c, frames[0]).Some? then [frames[0]] else []) + Fitting(c, frames[1..])
  }

  lemma {:induction false} FittingIsWritten(c: Codec, frames: seq<Frame>)
    ensures WireAll(c, Fitting(c, frames)) == WireAll(c, frames)
  {
    if frames != [] {
      FittingIsWritten(c, frames[1..]);
      var rest := Fitting(c, frames[1..]);
      if Wire(c, frames[0]).Some? {
        assert ([frames[0]] + rest)[1..] == rest;
      } else {
        assert [] + rest == rest;
      }
    }
  }

  lemma {:induction false} FittingAre(c: Codec, frames: seq<Frame>)
    ensures forall f | f in Fitting(c, frames) :: f in frames && Wire(c, f).Some?
    ensures (forall f | f in frames :: Wire(c, f).Some?) ==> Fitting(c, frames) == frames
  {
    if frames != [] {
      FittingAre(c, frames[1..]);
      assert frames == [frames[0]] + frames[1..];
      assert forall f | f in frames[1..] :: f in frames;
    }
  }

  /** Whatever was to be written, the host reads exactly what fits a frame. */
  lemma {:induction false} HostReadsWhatFits(c: Codec, frames: seq<Frame>)
    requires RoundTrips(c) && forall f | f in frames :: f.kind != ""
    ensures ReadAll(c, WireAll(c, frames)) == (Fitting(c, frames), EndOfInput)
  {
    FittingIsWritten(c, frames);
    FittingAre(c, frames);
    FramesReadBack(c, Fitting(c, frames));
  }

  /** The calls before the first frame that is not one. */
  function LeadingCalls(frames: seq<Frame>): seq<Frame> {
    if frames == [] || frames[0].kind != "call" then [] else [frames[0]] + LeadingCalls(frames[1..])
  }

  lemma {:induction false} LoopAnswersLeadingCalls(c: Codec, e: Extension, n: nat, input: Bytes)
    ensures CallLoop(c, e, n, input).0 == AllAnswers(e, n, LeadingCalls(ReadAll(c, input).0))
    decreases |input|
  {
    var (r, rest) := ReadFrom(c, input);
    if r.Got? {
      var more := ReadAll(c, rest).0;
      assert ([r.frame] + more)[1..] == more;
      if r.frame.kind == "call" {
        LoopAnswersLeadingCalls(c, e, n + 1, rest);
        var calls := LeadingCalls(more);
        assert ([r.frame] + calls)[1..] == calls;
      }
    }
  }

  /** A hello of protocol 1 that does not ask for another kind of extension. */
  predicate GoodHello(e: Extension, f: Frame) {
    f.kind == "hello" && f.protocol == 1 && (f.ext == "" || e.kind == "" || f.ext == e.kind)
  }

  /** What the host reads back of a session, for any input at all: nothing if the hello is
      not accepted or its answer does not fit; otherwise hello_ok and then, for each call up
      to the first frame that is none or cannot be read, those of its streaming frames and
      of its one result that fit. */
  lemma {:induction false} AnyInputIsAnswered(c: Codec, e: Extension, input: Bytes)
    requires RoundTrips(c)
    ensures var sent := ReadAll(c, input).0;
            ReadAll(c, WireAll(c, Served(c, e, input).0)) ==
            (if sent == [] || !GoodHello(e, sent[0]) || Wire(c, HelloOk(e)).None? then []
             else [HelloOk(e)] + Fitting(c, AllAnswers(e, 0, LeadingCalls(sent[1..]))),
             EndOfInput)
  {
    var (r, rest) := ReadFrom(c, input);
    var frames := Served(c, e, input).0;
    if r.Got? && HelloAccepted(e, r.frame) && Wire(c, HelloOk(e)).Some? {
      var more := ReadAll(c, rest).0;
      assert ([r.frame] + more)[1..] == more;
      LoopAnswersLeadingCalls(c, e, 0, rest);
      var answers := AllAnswers(e, 0, LeadingCalls(more));
      AnswersHaveKinds(e, 0, LeadingCalls(more));
      HostReadsWhatFits(c, [HelloOk(e)] + answers);
      assert ([HelloOk(e)] + answers)[1..] == answers;
    } else {
      HostReadsWhatFits(c, frames);
    }
  }

  /** For every session of calls, closed or shut down, and every handler, panicking ones
      and ones that emit too much included: the host reads hello_ok and then, per call and
      in order, those of that call's streaming frames and of its one result that fit. */
  lemma {:induction false} SessionAnswersEachCall(c: Codec, e: Extension, hello: Frame, calls: seq<Frame>, tail: Bytes)
    requires RoundTrips(c) && Sendable(c, hello) && HelloAccepted(e, hello) && Wire(c, HelloOk(e)).Some?
    requires (forall f | f in calls :: Sendable(c, f) && f.kind == "call") && Ends(c, tail)
    ensures var (frames, ok) := Served(c, e, WireAll(c, [hello] + calls) + tail);
            && ok
            && ReadAll(c, WireAll(c, frames)) == ([HelloOk(e)] + Fitting(c, AllAnswers(e, 0, calls)), EndOfInput)
    ensures (forall f | f in AllAnswers(e, 0, calls) :: Wire(c, f).Some?) ==>
              Fitting(c, AllAnswers(e, 0, calls)) == AllAnswers(e, 0, calls)
  {
    ServedSession(c, e, hello, calls, tail);
    var answers := AllAnswers(e, 0, calls);
    AnswersHaveKinds(e, 0, calls);
    HostReadsWhatFits(c, [HelloOk(e)] + answers);
    assert ([HelloOk(e)] + answers)[1..] == answers;
    FittingAre(c, answers);
  }

  lemma {:induction false} AnswersHaveKinds(e: Extension, n: nat, calls: seq<Frame>)
    ensures forall f | f in AllAnswers(e, n, calls) :: f.kind != ""
    decreases |calls|
  {
    if calls != [] {
      OneResultPerCall(e, n, calls[0]);
      StreamFramesAreThisCalls(calls[0].id, BehaviourOn(e, n, calls[0]).emits);
      AnswersHaveKinds(e, n + 1, calls[1..]);
    }
  }

  /** One call's block: streaming frames under its id, then one result, last. */
  lemma {:induction false} StreamFramesAreThisCalls(id: string, emits: seq<Emission>)
    ensures forall f | f in StreamFrames(id, emits) :: f.id == id && f.kind in {"log", "progress", "event"}
  {
    if emits != [] {
      StreamFramesAreThisCalls(id, emits[1..]);
    }
  }

  lemma {:induction false} OneResultPerCall(e: Extension, n: nat, call: Frame)
    ensures var fs := AnswerFrames(e, n, call);
            && |fs| >= 1 && fs[|fs| - 1].kind == "result"
            && (forall i | 0 <= i < |fs| :: fs[i].id == call.id)
            && (forall i | 0 <= i < |fs| - 1 :: fs[i].kind != "result")
  {
    StreamFramesAreThisCalls(call.id, BehaviourOn(e, n, call).emits);
  }

  /** The one way a call goes unanswered: a result past the frame limit is refused by
      WriteFrame and `answer` drops the refusal. Whatever else the handler emits, the host
      reads a result for the call if and only if the call's own result fits, and then that
      one, last. */
  lemma {:induction false} ResultReachesHostIff(c: Codec, e: Extension, n: nat, call: Frame)
    requires RoundTrips(c)
    ensures var result := ResultOf(call, BehaviourOn(e, n, call).ending);
            var read := ReadAll(c, WireAll(c, AnswerFrames(e, n, call))).0;
            && ((exists f | f in read :: f.kind == "result") <==> Wire(c, result).Some?)
            && (Wire(c, result).Some? ==> |read| > 0 && read[|read| - 1] == result)
  {
    var stream := StreamFrames(call.id, BehaviourOn(e, n, call).emits);
    var result := ResultOf(call, BehaviourOn(e, n, call).ending);
    StreamFramesAreThisCalls(call.id, BehaviourOn(e, n, call).emits);
    HostReadsWhatFits(c, stream + [result]);
    OneResultFits(c, stream, result);
  }

  lemma {:induction false} OneResultFits(c: Codec, stream: seq<Frame>, result: Frame)
    requires result.kind == "result" && forall f | f in stream :: f.kind != "result"
    ensures var read := Fitting(c, stream + [result]);
            && ((exists f | f in read :: f.kind == "result") <==> Wire(c, result).Some?)
            && (Wire(c, result).Some? ==> |read| > 0 && read[|read| - 1] == result)
  {
    FittingAre(c, stream + [result]);
    if Wire(c, result).Some? {
      FittingEndsWith(c, stream, result);
      assert (Fitting(c, stream) + [result])[|Fitting(c, stream)|] == result;
    } else {
      forall f | f in Fitting(c, stream + [result])
        ensures f.kind != "result"
      {
        assert f in stream;
      }
    }
  }

  lemma {:induction false} FittingEndsWith(c: Codec, frames: seq<Frame>, last: Frame)
    requires Wire(c, last).Some?
    ensures Fitting(c, frames + [last]) == Fitting(c, frames) + [last]
  {
    if frames == [] {
      assert frames + [last] == [last] && [last][1..] == [];
    } else {
      assert (frames + [last])[1..] == frames[1..] + [last] && (frames + [last])[0] == frames[0];
      FittingEndsWith(c, frames[1..], last);
    }
  }

  /** So a result past the limit is lost, with any codec and any handler. */
  lemma {:induction false} OversizeResultIsLost(c: Codec, e: Extension, n: nat, call: Frame)
    requires RoundTrips(c)
    requires var body := c.encode(ResultOf(call, BehaviourOn(e, n, call).ending)); body.Some? && |body.value| > MAX_FRAME_SIZE
    ensures forall f | f in ReadAll(c, WireAll(c, AnswerFrames(e, n, call))).0 :: f.kind != "result"
  {
    ResultReachesHostIff(c, e, n, call);
  }

  /** And there is such a call. */
  lemma {:induction false} OversizeResultExists(call: Frame) returns (c: Codec, e: Extension)
    ensures RoundTrips(c)
    ensures var body := c.encode(ResultOf(call, BehaviourOn(e, 0, call).ending)); body.Some? && |body.value| > MAX_FRAME_SIZE
  {
    var handler: (nat, Frame) -> Behaviour := (n: nat, f: Frame) => Behaviour([], Returned("value"));
    e := Extension("", "", "", Some(handler));
    var result := ResultOf(call, Returned("value"));
    var body: Bytes := seq(MAX_FRAME_SIZE + 1, _ => 0);
    c := Codec((f: Frame) => if f == result then Some(body) else None, (b: Bytes) => if b == body then Some(result) else None);
    assert |body| == MAX_FRAME_SIZE + 1;
  }

  // ---- Handlers that go on after they return ---------------------------------------------

  /** Frames written by goroutines a handler left behind, among those of the session. */
  ghost predicate Merges(all: seq<Frame>, session: seq<Frame>, late: seq<Frame>) {
    if all == [] then session == [] && late == []
    else
      || (session != [] && all[0] == session[0] && Merges(all[1..], session[1..], late))
      || (late != [] && all[0] == late[0] && Merges(all[1..], session, late[1..]))
  }

  function Results(frames: seq<Frame>): seq<Frame> {
    if frames == [] then []
    else (if frames[0].kind == "result" then [frames[0]] else []) + Results(frames[1..])
  }

  lemma {:induction false} LateFittingChangesNoResult(c: Codec, all: seq<Frame>, session: seq<Frame>, late: seq<Frame>)
    requires Merges(all, session, late) && forall f | f in late :: f.kind != "result"
    ensures Results(Fitting(c, all)) == Results(Fitting(c, session))
    decreases |all|
  {
    if all != [] {
      var rest := Fitting(c, all[1..]);
      assert ([all[0]] + rest)[1..] == rest && [] + rest == rest;
      if session != [] && all[0] == session[0] && Merges(all[1..], session[1..], late) {
        LateFittingChangesNoResult(c, all[1..], session[1..], late);
        var other := Fitting(c, session[1..]);
        assert ([session[0]] + other)[1..] == other && [] + other == other;
      } else {
        LateFittingChangesNoResult(c, all[1..], session, late[1..]);
        assert all[0] in late;
        assert [] + Results(rest) == Results(rest);
      }
    }
  }

  /** Wherever they fall, the host reads the same results in the same order. */
  lemma {:induction false} LateFramesChangeNoResult(c: Codec, all: seq<Frame>, session: seq<Frame>, late: seq<Frame>)
    requires RoundTrips(c) && Merges(all, session, late)
    requires (forall f | f in late :: f.kind in {"log", "progress", "event"}) && forall f | f in all :: f.kind != ""
    ensures Results(ReadAll(c, WireAll(c, all)).0) == Results(Fitting(c, session))
  {
    HostReadsWhatFits(c, all);
    LateFittingChangesNoResult(c, all, session, late);
  }

  // ---- What a result says -------------------------------------------------------------------

  /** If the host reads a result for a call, it is the last frame of the call's block, and it
      says what happened: `ok` exactly when the handler returned a value that encodes, and
      then that value and no error; otherwise no value, and as its error what the handler
      said, why the value did not encode, the name of the function that panicked and why, or
      that there is no handler. */
  lemma {:induction false} ResultSaysWhatHappened(c: Codec, e: Extension, n: nat, call: Frame)
    requires RoundTrips(c)
    requires exists f | f in ReadAll(c, WireAll(c, AnswerFrames(e, n, call))).0 :: f.kind == "result"
    ensures var read := ReadAll(c, WireAll(c, AnswerFrames(e, n, call))).0;
            && |read| > 0
            && var last := read[|read| - 1];
               && last.kind == "result" && last.id == call.id
               && (e.handler.None? ==> !last.ok && last.value == "" && last.error == "this extension provides no functions")
               && (e.handler.Some? ==>
                     match e.handler.value(n, call).ending
                     case Returned(value) => last.ok && last.value == value && last.error == ""
                     case NotEncodable(why) => !last.ok && last.value == "" && last.error == "the result could not be encoded: " + why
                     case Failed(why) => !last.ok && last.value == "" && last.error == why
                     case Panicked(why) => !last.ok && last.value == "" && last.error == call.called + " panicked: " + why)
  {
    ResultReachesHostIff(c, e, n, call);
  }

  /** A streaming frame that carries what was emitted. */
  predicate Carries(f: Frame, id: string, x: Emission) {
    && f.id == id
    && match x
       case Log(level, message) => f.kind == "log" && f.rest == level + ":" + message
       case Progress(text) => f.kind == "progress" && f.rest == text
       case Event(tag, data) => f.kind == "event" && data.Some? && f.rest == tag + ":" + data.value
  }

  /** Frame for frame, in order, what was emitted, but for events that would not encode. */
  predicate CarryAll(frames: seq<Frame>, id: string, emits: seq<Emission>)
    decreases |emits|
  {
    if emits == [] then frames == []
    else if emits[0].Event? && emits[0].data.None? then CarryAll(frames, id, emits[1..])
    else frames != [] && Carries(frames[0], id, emits[0]) && CarryAll(frames[1..], id, emits[1..])
  }

  /** What a handler emits is what its call's block carries before the result. */
  lemma {:induction false} BlockCarriesEmissions(e: Extension, n: nat, call: Frame)
    requires e.handler.Some?
    ensures var block := AnswerFrames(e, n, call);
            |block| > 0 && CarryAll(block[..|block| - 1], call.id, e.handler.value(n, call).emits)
  {
    StreamCarries(call.id, e.handler.value(n, call).emits);
    var stream := StreamFrames(call.id, e.handler.value(n, call).emits);
    assert AnswerFrames(e, n, call)[..|stream|] == stream;
  }

  lemma {:induction false} StreamCarries(id: string, emits: seq<Emission>)
    ensures CarryAll(StreamFrames(id, emits), id, emits)
  {
    if emits != [] {
      var rest := StreamFrames(id, emits[1..]);
      StreamCarries(id, emits[1..]);
      assert [] + rest == rest;
      assert Emitted(id, emits[0]).Some? ==> ([Emitted(id, emits[0]).value] + rest)[1..] == rest;
    }
  }

  // ---- How a session ends ---------------------------------------------------------------------

  /** What comes after the leading calls. */
  function AfterCalls(frames: seq<Frame>): seq<Frame> {
    if frames == [] || frames[0].kind != "call" then frames else AfterCalls(frames[1..])
  }

  /** serve ends without an error exactly when the hello was good and answered, and after
      the calls the host asked for a shutdown or simply stopped. */
  lemma {:induction false} SessionEndsWellIff(c: Codec, e: Extension, input: Bytes)
    ensures var (sent, end) := ReadAll(c, input);
            Served(c, e, input).1 <==>
            && sent != [] && GoodHello(e, sent[0]) && Wire(c, HelloOk(e)).Some?
            && (if AfterCalls(sent[1..]) == [] then end == EndOfInput else AfterCalls(sent[1..])[0].kind == "shutdown")
  {
    var (r, rest) := ReadFrom(c, input);
    if r.Got? {
      var more := ReadAll(c, rest).0;
      assert ([r.frame] + more)[1..] == more;
      LoopEndsWellIff(c, e, 0, rest);
    }
  }

  lemma {:induction false} LoopEndsWellIff(c: Codec, e: Extension, n: nat, input: Bytes)
    ensures var (sent, end) := ReadAll(c, input);
            CallLoop(c, e, n, input).1 <==>
            (if AfterCalls(sent) == [] then end == EndOfInput else AfterCalls(sent)[0].kind == "shutdown")
    decreases |input|
  {
    var (r, rest) := ReadFrom(c, input);
    if r.Got? {
      var more := ReadAll(c, rest).0;
      assert ([r.frame] + more)[1..] == more;
      if r.frame.kind == "call" {
        LoopEndsWellIff(c, e, n + 1, rest);
      }
    }
  }
}
