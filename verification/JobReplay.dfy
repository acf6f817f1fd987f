/**
  Admission of jobs on a node: the in-memory replay guard (internal/job/guard.go),
  the on-disk record of signed jobs (internal/job/signedreplay.go), and the order
  in which the executor's Offer consults and writes them
  (cmd/halite-node/execute.go).

  Clock readings, what the disk does and the signature check's verdict are inputs
  of each step. The signed record's file is taken by its meaning, which SignedFile
  proves to be what loading its text gives; `None` is a job with no expiry.
*/
module JobReplay {
  import opened Basics
  import opened SignedFile
  import opened Sorting

  datatype TestFlag = Absent | Flag(on: bool) | NotBoolean

  datatype Job = Job(
    jid: string, jidValid: bool, nonce: string, expires: Option<Time>, signature: string, test: TestFlag)

  datatype Reason = Malformed | Expired | Replayed | NotAuthorised | NotRecorded | QueueFull

  const RETENTION: int := 24 * 3600 * 1_000_000_000

  /** Job.Expired. */
  predicate HasExpired(expires: Option<Time>, now: Time) {
    expires.Some? && now > expires.value
  }

  // ---- The guard -----------------------------------------------------------

  function JidKey(j: Job): string { "jid:" + j.jid }
  function NonceKey(j: Job): string { "nonce:" + j.nonce }

  /** `order` is the guard's list, oldest first; its map is the list's contents. */
  function GuardCheck(order: seq<string>, j: Job, now: Time): Option<Reason> {
    if j.jid == "" || !j.jidValid || j.nonce == "" then Some(Malformed)
    else if HasExpired(j.expires, now) then Some(Expired)
    else if JidKey(j) in order || NonceKey(j) in order then Some(Replayed)
    else None
  }

  function Newest(order: seq<string>, n: nat): seq<string> {
    if |order| > n then order[|order| - n..] else order
  }

  // ---- The signed record ---------------------------------------------------

  /** signedReplayCompactAt. */
  const COMPACT_AT: nat := 1024

  const NO_FILE := File(map[], 0, false, Empty)

  /** The file, the lines it is believed to hold, and what is in memory. */
  datatype Signed = Signed(file: File, lines: nat, seen: Jids, loaded: bool, broken: bool)

  function Unloaded(file: File): Signed {
    Signed(file, 0, map[], false, false)
  }

  function Pruned(seen: Jids, now: Time): Jids {
    map k | k in seen && !(seen[k].Some? && seen[k].value < now - RETENTION) :: seen[k]
  }

  /** rewrite replaces the file whole; one that fails may have replaced it or not. */
  datatype Rewrite = Done | Failed(replaced: bool)

  function Rewritten(records: Jids): File {
    File(records, |records|, false, Empty)
  }

  function AfterRewrite(file: File, records: Jids, rewrite: Rewrite): File {
    if rewrite.Done? || rewrite.replaced then Rewritten(records) else file
  }

  /** What loading the file meets: the clock, whether it can be read at all, and how a
      rewrite without its dead lines goes, if one is needed. */
  datatype LoadIo = LoadIo(at: Time, readable: bool, rewrite: Rewrite)

  function Loaded(s: Signed, io: LoadIo): Signed {
    if s.loaded then s
    else if !io.readable || Meaning(s.file).None? then Signed(s.file, 0, map[], true, true)
    else
      var (records, lines) := Meaning(s.file).value;
      var live := Pruned(records, io.at);
      if lines > |live| || s.file.tail != Empty
      then Signed(AfterRewrite(s.file, live, io.rewrite), if io.rewrite.Done? then |live| else lines, live, true, io.rewrite.Failed?)
      else Signed(s.file, lines, live, true, false)
  }

  /** How writing one line goes: it returns, it fails with part of the line written, or it
      fails with all of it written. */
  datatype Write = Wrote | Tore(left: Left) | NotSynced

  /** What one Admit meets: a compaction first, if one is due, the write, and the clock at
      the prune. */
  datatype AdmitIo = AdmitIo(at: Time, compact: Rewrite, write: Write)

  predicate CompactionDue(s: Signed) {
    s.lines > |s.seen| + COMPACT_AT
  }

  function Compacted(s: Signed, compact: Rewrite): Signed {
    if !CompactionDue(s) then s
    else s.(file := AfterRewrite(s.file, s.seen, compact), lines := if compact.Done? then |s.seen| else s.lines)
  }

  function SignedAdmit(s: Signed, j: Job, io: AdmitIo): (Signed, Option<Reason>) {
    if s.broken then (s, Some(NotRecorded))
    else if j.jid in s.seen then (s, Some(Replayed))
    else
      var c := Compacted(s, io.compact);
      if CompactionDue(s) && io.compact.Failed? then (c, Some(NotRecorded))
      else
        match io.write
        case Tore(left) => (c.(file := TornBy(c.file, j.jid, j.expires, left)), Some(NotRecorded))
        case NotSynced => (c.(file := Appended(c.file, j.jid, j.expires)), Some(NotRecorded))
        case Wrote =>
          (c.(file := Appended(c.file, j.jid, j.expires), lines := c.lines + 1,
              seen := Pruned(c.seen[j.jid := j.expires], io.at)), None)
  }

  // ---- Offer ---------------------------------------------------------------

  /** checkJobSignature's answer: nothing required, a trusted key, or a refusal. */
  datatype Verdict = NotRequired | SignedBy(key: string) | Refused

  datatype Record = Accepted(job: Job, signer: Option<string>) | Declined(job: Job, reason: Reason) | Result(job: Job)

  datatype Node = Node(order: seq<string>, signed: Signed, queue: seq<Job>, log: seq<Record>)

  /** Everything outside the node that one offer depends on. */
  datatype World = World(checked: Time, load: LoadIo, verdict: Verdict, admit: AdmitIo, guarded: Time)

  datatype Stage = AtGuard | AtSeen | AtSignature | AtRecord | AtGuardAgain | AtTest | AtQueue | Queued

  datatype Limits = Limits(guardSize: nat, queueDepth: nat)

  function WithGuard(lim: Limits, n: Node, j: Job): Node {
    n.(order := Newest(Newest(n.order + [JidKey(j)], 2 * lim.guardSize) + [NonceKey(j)], 2 * lim.guardSize))
  }

  /** The tail of Offer, once both replay records have let the job through. */
  function Enqueue(lim: Limits, n: Node, j: Job, signer: Option<string>): (Node, Stage, Option<Reason>) {
    var held := WithGuard(lim, n, j);
    if j.test.NotBoolean? then (held, AtTest, Some(Malformed))
    else
      var recorded := held.(log := held.log + [Accepted(j, signer)]);
      if |recorded.queue| < lim.queueDepth then (recorded.(queue := recorded.queue + [j]), Queued, None)
      else (recorded, AtQueue, Some(QueueFull))
  }

  function Offer(lim: Limits, n: Node, j: Job, w: World): (Node, Stage, Option<Reason>) {
    var first := GuardCheck(n.order, j, w.checked);
    if first.Some? then (n, AtGuard, first)
    else
      var n1 := if j.signature != "" || w.verdict.SignedBy? then n.(signed := Loaded(n.signed, w.load)) else n;
      if j.signature != "" && !n1.signed.broken && j.jid in n1.signed.seen then (n1, AtSeen, Some(Replayed))
      else if w.verdict.Refused? then (n1, AtSignature, Some(NotAuthorised))
      else
        var (signed, refusal) := if w.verdict.SignedBy? then SignedAdmit(n1.signed, j, w.admit) else (n1.signed, None);
        var n2 := n1.(signed := signed);
        if refusal.Some? then (n2, AtRecord, refusal)
        else
          var again := GuardCheck(n2.order, j, w.guarded);
          if again.Some? then (n2, AtGuardAgain, again)
          else Enqueue(lim, n2, j, if w.verdict.SignedBy? then Some(w.verdict.key) else None)
  }

  class Executor {
    const lim: Limits
    var order: seq<string>
    var signed: Signed
    var queue: seq<Job>
    var log: seq<Record>

    constructor (lim: Limits, file: File)
      ensures this.lim == lim && View() == Node([], Unloaded(file), [], [])
    {
      this.lim := lim;
      order, signed, queue, log := [], Unloaded(file), [], [];
    }

    ghost function View(): Node
      reads this
    {
      Node(order, signed, queue, log)
    }

    method Check(j: Job, now: Time) returns (r: Option<Reason>)
      ensures r == GuardCheck(order, j, now)
    {
      if j.jid == "" || !j.jidValid || j.nonce == "" {
        return Some(Malformed);
      }
      if HasExpired(j.expires, now) {
        return Some(Expired);
      }
      var keys := [JidKey(j), NonceKey(j)];
      for i := 0 to 2
        invariant forall k | 0 <= k < i :: keys[k] !in order
      {
        if keys[i] in order {
          return Some(Replayed);
        }
      }
      assert keys[0] !in order && keys[1] !in order;
      r := None;
    }

    method RecordKey(key: string)
      modifies `order
      ensures order == Newest(old(order) + [key], 2 * lim.guardSize)
    {
      order := order + [key];
      ghost var all := order;
      while |order| > 2 * lim.guardSize
        invariant |order| <= |all| && order == all[|all| - |order|..]
        invariant |order| >= 2 * lim.guardSize || order == all
      {
        order := order[1..];
      }
    }

    method LoadRecord(io: LoadIo)
      modifies `signed
      ensures signed == Loaded(old(signed), io)
    {
      if signed.loaded {
        return;
      }
      var read := if io.readable then Meaning(signed.file) else None;
      if read.None? {
        signed := Signed(signed.file, 0, map[], true, true);
        return;
      }
      var (records, lines) := read.value;
      var live := Pruned(records, io.at);
      signed := Signed(signed.file, lines, live, true, false);
      if lines > |live| || signed.file.tail != Empty {
        signed := signed.(file := AfterRewrite(signed.file, live, io.rewrite));
        if io.rewrite.Failed? {
          signed := signed.(broken := true);
        } else {
          signed := signed.(lines := |live|);
        }
      }
    }

    method AdmitSigned(j: Job, io: AdmitIo) returns (r: Option<Reason>)
      modifies `signed
      ensures (signed, r) == SignedAdmit(old(signed), j, io)
    {
      if signed.broken {
        return Some(NotRecorded);
      }
      if j.jid in signed.seen {
        return Some(Replayed);
      }
      if signed.lines > |signed.seen| + COMPACT_AT {
        signed := signed.(file := AfterRewrite(signed.file, signed.seen, io.compact));
        if io.compact.Failed? {
          return Some(NotRecorded);
        }
        signed := signed.(lines := |signed.seen|);
      }
      match io.write {
        case Tore(left) =>
          signed := signed.(file := TornBy(signed.file, j.jid, j.expires, left));
          return Some(NotRecorded);
        case NotSynced =>
          signed := signed.(file := Appended(signed.file, j.jid, j.expires));
          return Some(NotRecorded);
        case Wrote =>
          signed := signed.(file := Appended(signed.file, j.jid, j.expires), lines := signed.lines + 1);
      }
      signed := signed.(seen := signed.seen[j.jid := j.expires]);
      signed := signed.(seen := Pruned(signed.seen, io.at));
      r := None;
    }

    method OfferJob(j: Job, w: World) returns (stage: Stage, r: Option<Reason>)
      modifies this
      ensures (View(), stage, r) == Offer(lim, old(View()), j, w)
    {
      r := Check(j, w.checked);
      if r.Some? {
        return AtGuard, r;
      }
      if j.signature != "" || w.verdict.SignedBy? {
        LoadRecord(w.load);
      }
      if j.signature != "" && !signed.broken && j.jid in signed.seen {
        return AtSeen, Some(Replayed);
      }
      if w.verdict.Refused? {
        return AtSignature, Some(NotAuthorised);
      }
      if w.verdict.SignedBy? {
        r := AdmitSigned(j, w.admit);
        if r.Some? {
          return AtRecord, r;
        }
      }
      r := Check(j, w.guarded);
      if r.Some? {
        return AtGuardAgain, r;
      }
      RecordKey(JidKey(j));
      RecordKey(NonceKey(j));
      if j.test.NotBoolean? {
        return AtTest, Some(Malformed);
      }
      log := log + [Accepted(j, if w.verdict.SignedBy? then Some(w.verdict.key) else None)];
      if |queue| < lim.queueDepth {
        queue := queue + [j];
        return Queued, None;
      }
      stage, r := AtQueue, Some(QueueFull);
    }

    /** Drained and refilled, with nobody else at the queue; JobQueue has the rest. */
    method Cancel(jid: string) returns (dropped: bool)
      requires |queue| <= lim.queueDepth
      modifies `queue
      ensures queue == Without(old(queue), jid)
      ensures dropped <==> exists j | j in old(queue) :: j.jid == jid
    {
      WithoutIsShorter(queue, jid);
      var kept;
      kept, dropped := Drain(jid);
      for i := 0 to |kept|
        invariant queue == kept[..i]
      {
        if |queue| < lim.queueDepth {
          queue := queue + [kept[i]];
        }
      }
    }

    method Drain(jid: string) returns (kept: seq<Job>, dropped: bool)
      modifies `queue
      ensures queue == [] && kept == Without(old(queue), jid)
      ensures dropped <==> |kept| < |old(queue)|
    {
      kept, dropped := [], false;
      while queue != []
        invariant kept + Without(queue, jid) == Without(old(queue), jid)
        invariant |kept| + |queue| <= |old(queue)|
        invariant dropped <==> |kept| + |queue| < |old(queue)|
      {
        var j := queue[0];
        ghost var rest := Without(queue[1..], jid);
        if j.jid == jid {
          dropped := true;
        } else {
          assert kept + ([j] + rest) == (kept + [j]) + rest;
          kept := kept + [j];
        }
        queue := queue[1..];
      }
    }
  }

  function Without(queue: seq<Job>, jid: string): seq<Job> {
    if queue == [] then []
    else (if queue[0].jid == jid then [] else [queue[0]]) + Without(queue[1..], jid)
  }

  lemma {:induction false} WithoutIsShorter(queue: seq<Job>, jid: string)
    ensures |Without(queue, jid)| <= |queue|
    ensures |Without(queue, jid)| < |queue| <==> exists j | j in queue :: j.jid == jid
  {
    if queue != [] {
      WithoutIsShorter(queue[1..], jid);
      assert forall j | j in queue :: j == queue[0] || j in queue[1..];
      assert queue[0] in queue;
    }
  }

  // ---- Runs ------------------------------------------------------------------

  datatype Event =
    | Offered(job: Job, world: World)
    | Took                       // the worker takes the head of the queue
    | Finished(job: Job)         // and records its result
    | Cancelled(jid: string)     // the hub kills a job that has not started
    | Restarted                  // memory is lost, the disk is not

  /** A node, the job its worker is on, the latest clock reading so far, and the
      signed jobs it has queued, over all its lives. */
  datatype State = State(node: Node, running: Option<Job>, latest: Time, signedQueued: seq<Job>)

  /** The clock may be set back, but never by more than a day. */
  predicate ClockHolds(latest: Time, reading: Time) {
    reading >= latest - 86_400_000_000_000
  }

  /** The latest reading after each of the four one offer makes. */
  function AfterCheck(latest: Time, w: World): Time { Max(latest, w.checked) }
  function AfterLoad(latest: Time, w: World): Time { Max(AfterCheck(latest, w), w.load.at) }
  function AfterAdmit(latest: Time, w: World): Time { Max(AfterLoad(latest, w), w.admit.at) }
  function AfterOffer(latest: Time, w: World): Time { Max(AfterAdmit(latest, w), w.guarded) }

  predicate ClockHoldsThrough(latest: Time, w: World) {
    && ClockHolds(latest, w.checked) && ClockHolds(AfterCheck(latest, w), w.load.at)
    && ClockHolds(AfterLoad(latest, w), w.admit.at) && ClockHolds(AfterAdmit(latest, w), w.guarded)
  }

  predicate Enabled(s: State, e: Event) {
    match e
    case Offered(_, w) => ClockHoldsThrough(s.latest, w)
    case Took => s.node.queue != [] && s.running.None?
    case Finished(j) => s.running == Some(j)
    case Cancelled(_) => true
    case Restarted => true
  }

  function Next(lim: Limits, s: State, e: Event): State
    requires Enabled(s, e)
  {
    match e
    case Offered(j, w) =>
      var (n, stage, reason) := Offer(lim, s.node, j, w);
      State(if reason.Some? then n.(log := n.log + [Declined(j, reason.value)]) else n,
            s.running, AfterOffer(s.latest, w),
            if stage.Queued? && w.verdict.SignedBy? then s.signedQueued + [j] else s.signedQueued)
    case Took => s.(node := s.node.(queue := s.node.queue[1..]), running := Some(s.node.queue[0]))
    case Finished(j) => s.(node := s.node.(log := s.node.log + [Result(j)]), running := None)
    case Cancelled(jid) => s.(node := s.node.(queue := Without(s.node.queue, jid)))
    case Restarted =>
      s.(node := s.node.(order := [], queue := [], signed := Unloaded(s.node.signed.file)),
         running := None)
  }

  ghost predicate Run(lim: Limits, states: seq<State>, events: seq<Event>) {
    && |states| == |events| + 1
    && states[0].node == Node([], Unloaded(NO_FILE), [], [])
    && states[0].running == None && states[0].signedQueued == []
    && (forall i | 0 <= i < |events| ::
          Enabled(states[i], events[i]) && states[i + 1] == Next(lim, states[i], events[i]))
  }

  // ---- A signed job is queued once ------------------------------------------

  /** An expiry no earlier than another; no expiry is later than any. */
  predicate NoEarlier(a: Option<Time>, b: Option<Time>) {
    a.None? || (b.Some? && a.value >= b.value)
  }

  ghost predicate OnRecord(record: Jids, jid: string, expires: Option<Time>) {
    jid in record && NoEarlier(record[jid], expires)
  }

  /** A load of the file will find the jid for as long as that expiry, or fail. */
  ghost predicate OnFile(f: File, jid: string, expires: Option<Time>) {
    f.glued || (OnRecord(f.lines, jid, expires) && (f.tail.Whole? && f.tail.jid == jid ==> NoEarlier(f.tail.expires, expires)))
  }

  /** The jid is on record for as long as that expiry, or the expiry is further back than
      any clock will go. */
  ghost predicate Covered(s: Signed, jid: string, expires: Option<Time>, latest: Time) {
    || (OnFile(s.file, jid, expires) && (s.loaded && !s.broken ==> OnRecord(s.seen, jid, expires)))
    || (expires.Some? && expires.value < latest - RETENTION)
  }

  lemma {:induction false} LoadKeepsCovered(s: Signed, io: LoadIo, jid: string, expires: Option<Time>, latest: Time)
    requires Covered(s, jid, expires, latest)
    ensures Covered(Loaded(s, io), jid, expires, Max(latest, io.at))
  {
  }

  lemma {:induction false} AdmitKeepsCovered(s: Signed, j: Job, io: AdmitIo, jid: string, expires: Option<Time>, latest: Time)
    requires s.loaded && Covered(s, jid, expires, latest)
    ensures Covered(SignedAdmit(s, j, io).0, jid, expires, Max(latest, io.at))
  {
  }

  lemma {:induction false} AdmitCovers(s: Signed, j: Job, io: AdmitIo, latest: Time)
    requires s.loaded && SignedAdmit(s, j, io).1.None?
    ensures Covered(SignedAdmit(s, j, io).0, j.jid, j.expires, Max(latest, io.at))
  {
  }

  lemma {:induction false} CoveredLater(s: Signed, jid: string, expires: Option<Time>, t: Time, u: Time)
    requires Covered(s, jid, expires, t) && t <= u
    ensures Covered(s, jid, expires, u)
  {
  }

  lemma {:induction false} OfferKeepsCovered(lim: Limits, n: Node, j: Job, w: World, jid: string, expires: Option<Time>, latest: Time)
    requires Covered(n.signed, jid, expires, latest)
    ensures Covered(Offer(lim, n, j, w).0.signed, jid, expires, AfterOffer(latest, w))
  {
    var s1 := Loaded(n.signed, w.load);
    CoveredLater(n.signed, jid, expires, latest, AfterCheck(latest, w));
    LoadKeepsCovered(n.signed, w.load, jid, expires, AfterCheck(latest, w));
    CoveredLater(n.signed, jid, expires, latest, AfterOffer(latest, w));
    CoveredLater(s1, jid, expires, AfterLoad(latest, w), AfterOffer(latest, w));
    if w.verdict.SignedBy? {
      AdmitKeepsCovered(s1, j, w.admit, jid, expires, AfterLoad(latest, w));
      CoveredLater(SignedAdmit(s1, j, w.admit).0, jid, expires, AfterAdmit(latest, w), AfterOffer(latest, w));
    }
    SignedAfter(lim, n, j, w);
  }

  /** The record Offer leaves is the one it found, loaded, or admitted into. */
  lemma {:induction false} SignedAfter(lim: Limits, n: Node, j: Job, w: World)
    ensures var done := Offer(lim, n, j, w).0.signed;
            var s1 := Loaded(n.signed, w.load);
            || done == n.signed || done == s1
            || (w.verdict.SignedBy? && j.jidValid && done == SignedAdmit(s1, j, w.admit).0)
    ensures Offer(lim, n, j, w).1.Queued? && w.verdict.SignedBy? ==>
              var s1 := Loaded(n.signed, w.load);
              && Offer(lim, n, j, w).0.signed == SignedAdmit(s1, j, w.admit).0
              && SignedAdmit(s1, j, w.admit).1.None? && s1.loaded
              && !HasExpired(j.expires, w.guarded)
  {
  }

  lemma {:induction false} QueuedIsCovered(lim: Limits, n: Node, j: Job, w: World, latest: Time)
    requires w.verdict.SignedBy? && Offer(lim, n, j, w).1.Queued?
    ensures Covered(Offer(lim, n, j, w).0.signed, j.jid, j.expires, AfterOffer(latest, w))
  {
    SignedAfter(lim, n, j, w);
    AdmitCovers(Loaded(n.signed, w.load), j, w.admit, AfterLoad(latest, w));
  }

  /** A covered jid is refused, even by a clock that was set back as far as allowed,
      unless it comes again under a later expiry. */
  lemma {:induction false} CoveredIsRefused(lim: Limits, n: Node, j: Job, w: World, expires: Option<Time>, latest: Time)
    requires Covered(n.signed, j.jid, expires, latest)
    requires w.verdict.SignedBy? && ClockHoldsThrough(latest, w)
    ensures Offer(lim, n, j, w).1.Queued? ==> !NoEarlier(expires, j.expires)
  {
    SignedAfter(lim, n, j, w);
    LoadKeepsCovered(n.signed, w.load, j.jid, expires, AfterCheck(latest, w));
  }

  ghost predicate QueuedOnce(s: State) {
    && (forall j | j in s.signedQueued :: Covered(s.node.signed, j.jid, j.expires, s.latest))
    && (forall a, b | 0 <= a < b < |s.signedQueued| ::
          s.signedQueued[a].jid == s.signedQueued[b].jid ==>
            !NoEarlier(s.signedQueued[a].expires, s.signedQueued[b].expires))
  }

  lemma {:induction false} OfferKeepsQueuedOnce(lim: Limits, s: State, e: Event)
    requires e.Offered? && Enabled(s, e) && QueuedOnce(s)
    ensures QueuedOnce(Next(lim, s, e))
  {
    var t, j, w := Next(lim, s, e), e.job, e.world;
    forall q | q in s.signedQueued
      ensures Covered(t.node.signed, q.jid, q.expires, t.latest)
    {
      OfferKeepsCovered(lim, s.node, j, w, q.jid, q.expires, s.latest);
    }
    if t.signedQueued != s.signedQueued {
      QueuedIsCovered(lim, s.node, j, w, s.latest);
      forall q | q in s.signedQueued
        ensures q.jid == j.jid ==> !NoEarlier(q.expires, j.expires)
      {
        if q.jid == j.jid {
          CoveredIsRefused(lim, s.node, j, w, q.expires, s.latest);
        }
      }
    }
  }

  lemma {:induction false} RunKeepsQueuedOnce(lim: Limits, states: seq<State>, events: seq<Event>)
    requires Run(lim, states, events)
    ensures QueuedOnce(states[|events|])
  {
    if events != [] {
      var n := |events| - 1;
      RunKeepsQueuedOnce(lim, states[..|events|], events[..n]);
      if events[n].Offered? {
        OfferKeepsQueuedOnce(lim, states[n], events[n]);
      }
    }
  }

  /** Over any sequence of offers, floods, restarts and bounded clock corrections,
      no signed job is queued twice: a jid is queued again only if it was signed again
      with a later expiry. */
  lemma {:induction false} SignedJobQueuedOnce(lim: Limits, states: seq<State>, events: seq<Event>, a: nat, b: nat)
    requires Run(lim, states, events) && a < b < |states[|events|].signedQueued|
    ensures var queued := states[|events|].signedQueued;
            queued[a].jid == queued[b].jid ==> !NoEarlier(queued[a].expires, queued[b].expires)
  {
    RunKeepsQueuedOnce(lim, states, events);
  }

  /** Some run queues two signed jobs with this jid, first under one expiry and later
      under the other. */
  ghost predicate QueuedAgain(lim: Limits, jid: string, first: Option<Time>, second: Option<Time>) {
    exists states: seq<State>, events: seq<Event>, a: int, b: int | Run(lim, states, events) :: IsAgain(states[|events|].signedQueued, a, b, jid, first, second)
  }

  predicate IsAgain(queued: seq<Job>, a: int, b: int, jid: string, first: Option<Time>, second: Option<Time>) {
    0 <= a < b < |queued| && queued[a].jid == queued[b].jid == jid && queued[a].expires == first && queued[b].expires == second
  }

  /** And that is exact: a signer who signs one jid under two expiries can have it run
      twice, in that order and no other. So a jid is queued once if and only if it is
      never signed under a second, later expiry. */
  lemma {:induction false} QueuedAgainIff(lim: Limits, jid: string, first: Option<Time>, second: Option<Time>)
    requires lim.queueDepth > 0 && jid != ""
    ensures QueuedAgain(lim, jid, first, second) <==> !NoEarlier(first, second)
  {
    if QueuedAgain(lim, jid, first, second) {
      var states: seq<State>, events: seq<Event>, a: int, b: int :|
        Run(lim, states, events) && IsAgain(states[|events|].signedQueued, a, b, jid, first, second);
      SignedJobQueuedOnce(lim, states, events, a, b);
    }
    if !NoEarlier(first, second) {
      var states, events := QueueTwice(lim, jid, first, second);
      assert IsAgain(states[|events|].signedQueued, 0, 1, jid, first, second);
    }
  }

  /** The job is offered at its first expiry; after a restart the record is loaded a day
      and more later, and the clock is then corrected. */
  lemma {:induction false} QueueTwice(lim: Limits, jid: string, first: Option<Time>, second: Option<Time>)
    returns (states: seq<State>, events: seq<Event>)
    requires lim.queueDepth > 0 && jid != "" && !NoEarlier(first, second)
    ensures Run(lim, states, events) && IsAgain(states[|events|].signedQueued, 0, 1, jid, first, second)
  {
    var t := first.value;
    var late := t + RETENTION + 1;
    var j := Job(jid, true, "a", first, "signature", Absent);
    var again := Job(jid, true, "b", second, "signature", Absent);
    var w := World(t, LoadIo(t, true, Done), SignedBy("key"), AdmitIo(t, Done, Wrote), t);
    var w' := World(t + 1, LoadIo(late, true, Done), SignedBy("key"), AdmitIo(late, Done, Wrote), t + 1);
    var s0 := State(Node([], Unloaded(NO_FILE), [], []), None, t, []);
    var s1 := Next(lim, s0, Offered(j, w));
    QueuesOnEmpty(lim, s0.node, j, w);
    var s2 := Next(lim, s1, Restarted);
    assert Meaning(s2.node.signed.file) == Some((map[jid := first], 1));
    assert Pruned(map[jid := first], late) == map[];
    QueuesOnEmpty(lim, s2.node, again, w');
    var s3 := Next(lim, s2, Offered(again, w'));
    states, events := [s0, s1, s2, s3], [Offered(j, w), Restarted, Offered(again, w')];
    assert s3.signedQueued == [j, again];
  }

  /** An idle node that will remember nothing takes a job. */
  lemma {:induction false} QueuesOnEmpty(lim: Limits, n: Node, j: Job, w: World)
    requires lim.queueDepth > 0 && n.order == [] && n.queue == [] && !n.signed.loaded
    requires j.jid != "" && j.jidValid && j.nonce != "" && j.signature != "" && j.test == Absent
    requires w.verdict.SignedBy? && w.load.readable && w.load.rewrite == Done && w.admit.write == Wrote
    requires !HasExpired(j.expires, w.checked) && !HasExpired(j.expires, w.guarded)
    requires Meaning(n.signed.file).Some? && Pruned(Meaning(n.signed.file).value.0, w.load.at) == map[]
    requires n.signed.file == NO_FILE || Meaning(n.signed.file).value.1 == 1
    ensures var (t, stage, reason) := Offer(lim, n, j, w);
            stage == Queued && reason == None && t.signed.file == File(map[j.jid := j.expires], 1, false, Empty)
  {
    var s := Loaded(n.signed, w.load);
    assert s == Signed(NO_FILE, 0, map[], true, false);
  }

  // ---- Evidence before execution -----------------------------------------------

  function Acceptances(log: seq<Record>, j: Job): nat {
    if log == [] then 0
    else Acceptances(log[..|log| - 1], j) + if log[|log| - 1].Accepted? && log[|log| - 1].job == j then 1 else 0
  }

  function Results(log: seq<Record>, j: Job): nat {
    if log == [] then 0
    else Results(log[..|log| - 1], j) + if log[|log| - 1].Result? && log[|log| - 1].job == j then 1 else 0
  }

  /** Where a job is, each time it was accepted: waiting, running, or done. */
  function Places(s: State, j: Job): nat {
    Results(s.node.log, j) + multiset(s.node.queue)[j] + if s.running == Some(j) then 1 else 0
  }

  /** Whatever waits, runs or has finished has an acceptance of its own, and at every point
      of the log there are at least as many acceptances of a job as results. */
  ghost predicate RecordedFirst(s: State) {
    && (forall j :: Places(s, j) <= Acceptances(s.node.log, j))
    && (forall i, j | 0 <= i <= |s.node.log| :: Results(s.node.log[..i], j) <= Acceptances(s.node.log[..i], j))
  }

  lemma {:induction false} CountsStep(log: seq<Record>, r: Record, j: Job)
    ensures Acceptances(log + [r], j) == Acceptances(log, j) + if r.Accepted? && r.job == j then 1 else 0
    ensures Results(log + [r], j) == Results(log, j) + if r.Result? && r.job == j then 1 else 0
  {
    assert (log + [r])[..|log|] == log;
  }

  lemma {:induction false} WithoutKeepsOnly(queue: seq<Job>, jid: string)
    ensures forall j | j in Without(queue, jid) :: j in queue && j.jid != jid
    ensures forall j | j in queue && j.jid != jid :: j in Without(queue, jid)
  {
    if queue != [] {
      WithoutKeepsOnly(queue[1..], jid);
    }
  }

  lemma {:induction false} WithoutCounts(queue: seq<Job>, jid: string, j: Job)
    ensures multiset(Without(queue, jid))[j] <= multiset(queue)[j]
  {
    if queue != [] {
      WithoutCounts(queue[1..], jid, j);
      assert queue == [queue[0]] + queue[1..];
    }
  }

  /** Offer appends at most one record, and queues only what that record accepted. */
  lemma {:induction false} OfferRecordsFirst(lim: Limits, n: Node, j: Job, w: World)
    ensures var (t, stage, reason) := Offer(lim, n, j, w);
            && (t.log == n.log || (exists signer :: t.log == n.log + [Accepted(j, signer)]))
            && (t.queue == n.queue || (t.queue == n.queue + [j] && exists signer :: t.log == n.log + [Accepted(j, signer)]))
  {
  }

  /** One more record in the log keeps every point of it, if the whole still does. */
  lemma {:induction false} LogGrows(log: seq<Record>, r: Record)
    requires forall i, j | 0 <= i <= |log| :: Results(log[..i], j) <= Acceptances(log[..i], j)
    requires forall j :: Results(log + [r], j) <= Acceptances(log + [r], j)
    ensures var more := log + [r];
            forall i, j | 0 <= i <= |more| :: Results(more[..i], j) <= Acceptances(more[..i], j)
  {
    var more := log + [r];
    forall i, j | 0 <= i <= |more|
      ensures Results(more[..i], j) <= Acceptances(more[..i], j)
    {
      if i <= |log| {
        assert more[..i] == log[..i];
      } else {
        assert more[..i] == more;
      }
    }
  }

  lemma {:induction false} RecordAdded(s: State, t: State, r: Record)
    requires RecordedFirst(s) && t.node.log == s.node.log + [r]
    requires forall j :: Places(t, j) <= Acceptances(t.node.log, j)
    ensures RecordedFirst(t)
  {
    forall j
      ensures Results(t.node.log, j) <= Acceptances(t.node.log, j)
    {
      assert Places(t, j) <= Acceptances(t.node.log, j);
    }
    LogGrows(s.node.log, r);
  }

  lemma {:induction false} OfferRecords(lim: Limits, s: State, e: Event)
    requires e.Offered? && Enabled(s, e) && RecordedFirst(s)
    ensures RecordedFirst(Next(lim, s, e))
  {
    var (n, stage, reason) := Offer(lim, s.node, e.job, e.world);
    OfferRecordsFirst(lim, s.node, e.job, e.world);
    var mid := s.(node := n);
    if n.log != s.node.log {
      var signer :| n.log == s.node.log + [Accepted(e.job, signer)];
      forall j
        ensures Places(mid, j) <= Acceptances(n.log, j)
      {
        CountsStep(s.node.log, Accepted(e.job, signer), j);
        assert Places(s, j) <= Acceptances(s.node.log, j);
      }
      RecordAdded(s, mid, Accepted(e.job, signer));
    }
    if reason.Some? {
      RefusalRecords(mid, Next(lim, s, e), Declined(e.job, reason.value));
    } else {
      SamePlaces(mid, Next(lim, s, e));
    }
  }

  /** A refusal is a record and nothing else. */
  lemma {:induction false} RefusalRecords(s: State, t: State, r: Record)
    requires RecordedFirst(s) && r.Declined?
    requires t.node.log == s.node.log + [r] && t.node.queue == s.node.queue && t.running == s.running
    ensures RecordedFirst(t)
  {
    forall j
      ensures Places(t, j) <= Acceptances(t.node.log, j)
    {
      CountsStep(s.node.log, r, j);
      assert Places(s, j) <= Acceptances(s.node.log, j);
    }
    RecordAdded(s, t, r);
  }

  lemma {:induction false} SamePlaces(s: State, t: State)
    requires RecordedFirst(s) && t.node.log == s.node.log
    requires forall j :: Places(t, j) <= Places(s, j)
    ensures RecordedFirst(t)
  {
    forall j
      ensures Places(t, j) <= Acceptances(t.node.log, j)
    {
      assert Places(s, j) <= Acceptances(s.node.log, j);
    }
  }

  lemma {:induction false} StepRecordsFirst(lim: Limits, s: State, e: Event)
    requires Enabled(s, e) && RecordedFirst(s)
    ensures RecordedFirst(Next(lim, s, e))
  {
    var t := Next(lim, s, e);
    match e {
      case Offered(_, _) => OfferRecords(lim, s, e);
      case Took =>
        assert s.node.queue == [s.node.queue[0]] + s.node.queue[1..];
        SamePlaces(s, t);
      case Finished(j) =>
        forall k
          ensures Places(t, k) <= Acceptances(t.node.log, k)
        {
          CountsStep(s.node.log, Result(j), k);
          assert Places(s, k) <= Acceptances(s.node.log, k);
        }
        RecordAdded(s, t, Result(j));
      case Cancelled(jid) =>
        forall k
          ensures Places(t, k) <= Places(s, k)
        {
          WithoutCounts(s.node.queue, jid, k);
        }
        SamePlaces(s, t);
      case Restarted => SamePlaces(s, t);
    }
  }

  /** Every result in the evidence log has an acceptance of its own before it, however often
      an equal job came. */
  lemma {:induction false} AcceptedBeforeRun(lim: Limits, states: seq<State>, events: seq<Event>)
    requires Run(lim, states, events)
    ensures RecordedFirst(states[|events|])
  {
    if events != [] {
      var n := |events| - 1;
      AcceptedBeforeRun(lim, states[..|events|], events[..n]);
      StepRecordsFirst(lim, states[n], events[n]);
    }
  }

  // ---- What a refused job leaves behind -------------------------------------------

  function OnFileKeys(f: File): set<string> {
    f.lines.Keys + if f.tail.Whole? then {f.tail.jid} else {}
  }

  lemma {:induction false} LoadAddsNothing(s: Signed, io: LoadIo)
    ensures OnFileKeys(Loaded(s, io).file) <= OnFileKeys(s.file)
    ensures Loaded(s, io).seen.Keys <= s.seen.Keys + OnFileKeys(s.file)
  {
  }

  lemma {:induction false} RefusedEarlyIs(lim: Limits, n: Node, j: Job, w: World)
    requires Offer(lim, n, j, w).1 in {AtGuard, AtSeen, AtSignature}
    ensures var t := Offer(lim, n, j, w).0;
            t == n || t == n.(signed := Loaded(n.signed, w.load))
  {
  }

  /** A job refused by the guard, the seen check or the signature check takes no place
      in either replay record, so it can push nothing out of one. */
  lemma {:induction false} RefusedEarlyTakesNoPlace(lim: Limits, n: Node, j: Job, w: World)
    requires Offer(lim, n, j, w).1 in {AtGuard, AtSeen, AtSignature}
    ensures var t := Offer(lim, n, j, w).0;
            && t.order == n.order && t.queue == n.queue && t.log == n.log
            && OnFileKeys(t.signed.file) <= OnFileKeys(n.signed.file)
            && t.signed.seen.Keys <= n.signed.seen.Keys + OnFileKeys(n.signed.file)
  {
    RefusedEarlyIs(lim, n, j, w);
    LoadAddsNothing(n.signed, w.load);
  }

  // ---- The file and its text ----------------------------------------------------------------

  /** The file is what some appends left: a text that loads as the file means. */
  ghost predicate HasText(z: Calendar, f: File) {
    exists appends: seq<Append> | AllCan(z, appends) :: FileOf(NO_FILE, appends) == f
  }

  lemma {:induction false} FileOfThen(f: File, appends: seq<Append>, a: Append)
    ensures FileOf(f, appends + [a]) ==
            var g := FileOf(f, appends);
            if a.Full? then Appended(g, a.jid, a.expires) else TornBy(g, a.jid, a.expires, a.left)
    decreases appends
  {
    if appends == [] {
      assert [] + [a] == [a] && [a][1..] == [];
    } else {
      var b := appends[0];
      assert (appends + [a])[1..] == appends[1..] + [a] && (appends + [a])[0] == b;
      FileOfThen(if b.Full? then Appended(f, b.jid, b.expires) else TornBy(f, b.jid, b.expires, b.left), appends[1..], a);
    }
  }

  lemma {:induction false} AppendHasText(z: Calendar, f: File, a: Append)
    requires HasText(z, f) && CanAppend(z, a)
    ensures HasText(z, if a.Full? then Appended(f, a.jid, a.expires) else TornBy(f, a.jid, a.expires, a.left))
  {
    var appends: seq<Append> :| AllCan(z, appends) && FileOf(NO_FILE, appends) == f;
    FileOfThen(NO_FILE, appends, a);
    assert AllCan(z, appends + [a]);
  }

  lemma {:induction false} TornHasText(z: Calendar, f: File, jid: string, expires: Option<Time>, left: Left)
    requires HasText(z, f) && ValidJid(z, jid)
    ensures HasText(z, TornBy(f, jid, expires, left))
  {
    var line := Line(z, jid, expires);
    var n := if left.Nothing? then 0 else if left.Part? then 1 else |line|;
    AppendHasText(z, f, Torn(jid, expires, left, n));
  }

  ghost predicate AllValid(z: Calendar, jids: set<string>) {
    forall k | k in jids :: ValidJid(z, k)
  }

  lemma {:induction false} RewrittenHasText(z: Calendar, records: Jids)
    requires AllValid(z, records.Keys)
    ensures HasText(z, Rewritten(records))
  {
    var order := SortedKeys(records.Keys);
    ListsAll(records, order);
    LinesCan(z, records, order);
    RewriteMeans(NO_FILE, records, order);
    assert AllCan(z, Lines(records, order)) && FileOf(NO_FILE, Lines(records, order)) == Rewritten(records);
  }

  lemma {:induction false} ListsAll(records: Jids, order: seq<string>)
    requires Elements(order) == records.Keys
    ensures forall k | k in order :: k in records
    ensures NO_FILE.lines + (map k | k in order :: records[k]) == records
  {
    assert forall k :: k in order <==> k in Elements(order);
  }

  lemma {:induction false} LinesCan(z: Calendar, records: Jids, order: seq<string>)
    requires AllValid(z, records.Keys) && forall k | k in order :: k in records
    ensures AllCan(z, Lines(records, order))
  {
    if order != [] {
      LinesCan(z, records, order[1..]);
      assert forall i | 0 < i < |Lines(records, order)| :: Lines(records, order)[i] == Lines(records, order[1..])[i - 1];
    }
  }

  /** The file has a text, and no jid in it or in memory is malformed. */
  ghost predicate Textual(z: Calendar, s: Signed) {
    HasText(z, s.file) && AllValid(z, OnFileKeys(s.file)) && AllValid(z, s.seen.Keys)
  }

  lemma {:induction false} LoadIsTextual(z: Calendar, s: Signed, io: LoadIo)
    requires Textual(z, s)
    ensures Textual(z, Loaded(s, io))
  {
    LoadAddsNothing(s, io);
    if Meaning(s.file).Some? {
      var live := Pruned(Meaning(s.file).value.0, io.at);
      assert AllValid(z, live.Keys);
      RewrittenHasText(z, live);
    }
  }

  lemma {:induction false} CompactedIsTextual(z: Calendar, s: Signed, compact: Rewrite)
    requires Textual(z, s)
    ensures Textual(z, Compacted(s, compact))
  {
    RewrittenHasText(z, s.seen);
  }

  lemma {:induction false} WrittenIsTextual(z: Calendar, f: File, jid: string, expires: Option<Time>, left: Left)
    requires HasText(z, f) && AllValid(z, OnFileKeys(f)) && ValidJid(z, jid)
    ensures HasText(z, Appended(f, jid, expires)) && AllValid(z, OnFileKeys(Appended(f, jid, expires)))
    ensures HasText(z, TornBy(f, jid, expires, left)) && AllValid(z, OnFileKeys(TornBy(f, jid, expires, left)))
  {
    AppendHasText(z, f, Full(jid, expires));
    TornHasText(z, f, jid, expires, left);
  }

  lemma {:induction false} AdmitLeaves(s: Signed, j: Job, io: AdmitIo)
    ensures var t, c := SignedAdmit(s, j, io).0, Compacted(s, io.compact);
            && (t.seen == s.seen || t.seen == Pruned(s.seen[j.jid := j.expires], io.at))
            && (t.file == s.file || t.file == c.file || t.file == Appended(c.file, j.jid, j.expires)
                || exists left :: t.file == TornBy(c.file, j.jid, j.expires, left))
  {
  }

  lemma {:induction false} AdmitIsTextual(z: Calendar, s: Signed, j: Job, io: AdmitIo)
    requires Textual(z, s) && ValidJid(z, j.jid)
    ensures Textual(z, SignedAdmit(s, j, io).0)
  {
    CompactedIsTextual(z, s, io.compact);
    AdmitLeaves(s, j, io);
    var t, c := SignedAdmit(s, j, io).0, Compacted(s, io.compact);
    FileIsTextual(z, s.file, c.file, t.file, j.jid, j.expires);
    SeenIsValid(z, s.seen, j.jid, j.expires, io.at);
  }

  lemma {:induction false} SeenIsValid(z: Calendar, seen: Jids, jid: string, expires: Option<Time>, at: Time)
    requires AllValid(z, seen.Keys) && ValidJid(z, jid)
    ensures AllValid(z, Pruned(seen[jid := expires], at).Keys)
  {
  }

  lemma {:induction false} FileIsTextual(z: Calendar, f: File, c: File, t: File, jid: string, expires: Option<Time>)
    requires HasText(z, f) && AllValid(z, OnFileKeys(f)) && HasText(z, c) && AllValid(z, OnFileKeys(c)) && ValidJid(z, jid)
    requires t == f || t == c || t == Appended(c, jid, expires) || exists left :: t == TornBy(c, jid, expires, left)
    ensures HasText(z, t) && AllValid(z, OnFileKeys(t))
  {
    if t != f && t != c {
      if t == Appended(c, jid, expires) {
        WrittenIsTextual(z, c, jid, expires, Nothing);
      } else {
        var left :| t == TornBy(c, jid, expires, left);
        WrittenIsTextual(z, c, jid, expires, left);
      }
    }
  }

  /** In every run, restarts and failed writes included, the file the record is in is a text
      that loads, line by line, as exactly what the record takes it to mean. */
  lemma {:induction false} FileIsItsText(lim: Limits, z: Calendar, states: seq<State>, events: seq<Event>)
    requires Run(lim, states, events) && RoundTrips(z)
    requires forall i | 0 <= i < |events| && events[i].Offered? :: events[i].job.jidValid ==> ValidJid(z, events[i].job.jid)
    ensures Textual(z, states[|events|].node.signed)
    ensures exists appends: seq<Append> | AllCan(z, appends) ::
              LoadLines(ReaderOf(z), SplitLines(Text(z, appends)), map[], 0) == Meaning(states[|events|].node.signed.file)
  {
    RunIsTextual(lim, z, states, events);
    var file := states[|events|].node.signed.file;
    var appends: seq<Append> :| AllCan(z, appends) && FileOf(NO_FILE, appends) == file;
    FileLoadsAsItMeans(z, appends);
  }

  lemma {:induction false} RunIsTextual(lim: Limits, z: Calendar, states: seq<State>, events: seq<Event>)
    requires Run(lim, states, events)
    requires forall i | 0 <= i < |events| && events[i].Offered? :: events[i].job.jidValid ==> ValidJid(z, events[i].job.jid)
    ensures Textual(z, states[|events|].node.signed)
  {
    if events == [] {
      var none: seq<Append> := [];
      assert AllCan(z, none) && FileOf(NO_FILE, none) == NO_FILE;
    } else {
      var n := |events| - 1;
      RunIsTextual(lim, z, states[..|events|], events[..n]);
      var s, e := states[n], events[n];
      assert states[n + 1] == Next(lim, s, e);
      if e.Offered? {
        OfferIsTextual(lim, z, s.node, e.job, e.world);
      }
    }
  }

  lemma {:induction false} OfferIsTextual(lim: Limits, z: Calendar, n: Node, j: Job, w: World)
    requires Textual(z, n.signed) && (j.jidValid ==> ValidJid(z, j.jid))
    ensures Textual(z, Offer(lim, n, j, w).0.signed)
  {
    LoadIsTextual(z, n.signed, w.load);
    if j.jidValid {
      AdmitIsTextual(z, Loaded(n.signed, w.load), j, w.admit);
    }
    SignedAfter(lim, n, j, w);
  }
}
