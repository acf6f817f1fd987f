/**
  The reporter that anchors the evidence chain on the hub
  (cmd/halite-node/anchor.go, with the append order of
  cmd/halite-node/evidence.go): a one-slot signal, a worker that reads the
  newest head when it gets to it, and receipts that are filed in the chain
  they vouch for without asking for another report.
*/
module Anchor {
  import opened Evidence

  datatype Worker =
    | Waiting
    | Woken                                  // took the signal, has not read the head
    | Reporting(number: nat, hash: Hash)     // the hub has been asked about this head

  /** `requests` counts requestAnchor calls that returned, `reports` heads sent,
      `recorded` records appended by anything but the reporter. `owed` is how long the
      chain was when the last request returned, `read` how long when last read. */
  datatype State = State(
    chain: seq<Record>, signal: bool, worker: Worker,
    requests: nat, reports: nat, recorded: nat, receipts: nat, owed: nat, read: nat)

  datatype Answer =
    | NoAnswer                                            // refused, unreachable, rate limited
    | Answered(number: nat, hash: Hash, verifies: bool)   // a receipt, and whether the CA made it

  datatype Event =
    | Appended(detail: Detail, lost: nat)
    | Requested              // a job's result is on disk, or the stream opened
    | Wake
    | ReadHead
    | Reply(answer: Answer, lost: nat, filed: bool)  // filed: the append did not fail

  const START := State([], false, Waiting, 0, 0, 0, 0, 0, 0)

  predicate Enabled(s: State, e: Event) {
    match e
    case Appended(d, _) => d.Plain?
    case Requested => true
    case Wake => s.signal && s.worker.Waiting?
    case ReadHead => s.worker.Woken?
    case Reply(_, _, _) => s.worker.Reporting?
  }

  predicate Files(w: Worker, a: Answer) {
    w.Reporting? && a.Answered? && a.number == w.number && a.hash == w.hash && a.verifies
  }

  function Next(h: Hasher, s: State, e: Event): State
    requires Enabled(s, e)
  {
    match e
    case Appended(d, lost) => s.(chain := Append(h, s.chain, d, lost), recorded := s.recorded + 1)
    case Requested => s.(signal := true, requests := s.requests + 1, owed := |s.chain|)
    case Wake => s.(signal := false, worker := Woken)
    case ReadHead =>
      if s.chain == [] then s.(worker := Waiting, read := 0)
      else s.(worker := Reporting(|s.chain|, HeadHash(s.chain)), read := |s.chain|, reports := s.reports + 1)
    case Reply(a, lost, filed) =>
      if Files(s.worker, a) && filed
      then s.(worker := Waiting, receipts := s.receipts + 1,
              chain := Append(h, s.chain, Receipt(a.number, a.hash), lost))
      else s.(worker := Waiting)
  }

  ghost predicate Run(h: Hasher, states: seq<State>, events: seq<Event>) {
    && |states| == |events| + 1
    && states[0] == START
    && (forall i | 0 <= i < |events| ::
          Enabled(states[i], events[i]) && states[i + 1] == Next(h, states[i], events[i]))
  }

  /** No wakeup is lost. */
  ghost predicate NotForgotten(s: State) {
    s.signal || s.worker.Woken? || s.read >= s.owed
  }

  /** Reports and receipts are paid for by requests, so a receipt cannot feed itself. */
  ghost predicate PaidFor(s: State) {
    && s.reports + (if s.worker.Woken? then 1 else 0) + (if s.signal then 1 else 0) <= s.requests
    && s.receipts + (if s.worker.Reporting? then 1 else 0) <= s.reports
    && |s.chain| == s.recorded + s.receipts
    && s.owed <= |s.chain| && s.read <= |s.chain|
  }

  /** A receipt names an earlier record of this very chain by number and hash. */
  ghost predicate Anchored(chain: seq<Record>) {
    forall i | 0 <= i < |chain| && chain[i].payload.detail.Receipt? ::
      var d := chain[i].payload.detail;
      1 <= d.anchoredSeq <= i && chain[d.anchoredSeq - 1].hash == d.anchoredHash
  }

  ghost predicate HeadStillHeld(s: State) {
    s.worker.Reporting? ==>
      1 <= s.worker.number <= |s.chain| && s.chain[s.worker.number - 1].hash == s.worker.hash
  }

  ghost predicate Inv(h: Hasher, s: State) {
    NotForgotten(s) && PaidFor(s) && Holds(h, s.chain) && Anchored(s.chain) && HeadStillHeld(s)
  }

  lemma {:induction false} StepKeepsCounts(h: Hasher, s: State, e: Event)
    requires Enabled(s, e) && NotForgotten(s) && PaidFor(s)
    ensures NotForgotten(Next(h, s, e)) && PaidFor(Next(h, s, e))
  {
  }

  lemma {:induction false} StepKeepsChain(h: Hasher, s: State, e: Event)
    requires Enabled(s, e) && Holds(h, s.chain) && Anchored(s.chain) && HeadStillHeld(s)
    ensures Holds(h, Next(h, s, e).chain) && Anchored(Next(h, s, e).chain) && HeadStillHeld(Next(h, s, e))
  {
    var t := Next(h, s, e);
    if t.chain != s.chain {
      assert t.chain[..|s.chain|] == s.chain;
      var last := t.chain[|s.chain|].payload;
      AppendHolds(h, s.chain, last.detail, last.lost);
    }
  }

  lemma {:induction false} RunKeepsInv(h: Hasher, states: seq<State>, events: seq<Event>)
    requires Run(h, states, events)
    ensures Inv(h, states[|events|])
  {
    if events != [] {
      var n := |events| - 1;
      RunKeepsInv(h, states[..|events|], events[..n]);
      StepKeepsCounts(h, states[n], events[n]);
      StepKeepsChain(h, states[n], events[n]);
    }
  }

  /** When the reporter is at rest, the head it last read covers every record a request
      was ever made for. */
  lemma {:induction false} NoWakeupLost(h: Hasher, states: seq<State>, events: seq<Event>)
    requires Run(h, states, events)
    ensures var s := states[|events|];
            && (s.signal || s.worker.Woken? || s.read >= s.owed)
            && (forall i | 0 <= i < |events| && events[i].Requested? :: |states[i].chain| <= s.owed)
  {
    RunKeepsInv(h, states, events);
    forall i | 0 <= i < |events| && events[i].Requested?
      ensures |states[i].chain| <= states[|events|].owed
    {
      OwedGrows(h, states, events, i + 1);
    }
  }

  lemma {:induction false} OwedGrows(h: Hasher, states: seq<State>, events: seq<Event>, i: nat)
    requires Run(h, states, events) && i <= |events|
    ensures states[i].owed <= states[|events|].owed
    decreases |events| - i
  {
    if i < |events| {
      RunKeepsInv(h, states[..i + 1], events[..i]);
      OwedGrows(h, states, events, i + 1);
    }
  }

  /** Finitely many requests give finitely many reports and receipts, although every
      receipt moves the head. */
  lemma {:induction false} NoFeedback(h: Hasher, states: seq<State>, events: seq<Event>)
    requires Run(h, states, events)
    ensures var s := states[|events|];
            && s.receipts <= s.reports <= s.requests
            && |s.chain| <= s.recorded + s.requests
  {
    RunKeepsInv(h, states, events);
  }

  /** What a filed receipt is worth: any chain that verifies and holds the record it
      names is this node's chain up to that record. */
  lemma {:induction false} ReceiptFixesHistory(h: Hasher, states: seq<State>, events: seq<Event>, i: nat, other: seq<Record>)
    requires IsHash(h) && Run(h, states, events)
    requires i < |states[|events|].chain| && states[|events|].chain[i].payload.detail.Receipt?
    requires Holds(h, other)
    requires var d := states[|events|].chain[i].payload.detail;
             exists k | 0 <= k < |other| :: other[k].hash == d.anchoredHash
    ensures var chain := states[|events|].chain;
            var n := chain[i].payload.detail.anchoredSeq;
            1 <= n <= i && n <= |other| && other[..n] == chain[..n]
  {
    RunKeepsInv(h, states, events);
    var chain := states[|events|].chain;
    var d := chain[i].payload.detail;
    var k :| 0 <= k < |other| && other[k].hash == d.anchoredHash;
    HashFixesPrefix(h, chain, other, d.anchoredSeq - 1, k);
  }

  // ---- What is filed ---------------------------------------------------------------------

  /** A reply to the head that was reported, under a signature the pinned CA made. */
  predicate Vouches(w: Worker, e: Event) {
    && e.Reply? && w.Reporting? && e.answer.Answered?
    && e.answer.number == w.number && e.answer.hash == w.hash && e.answer.verifies
  }

  /** At every step of every run: the chain is only ever added to, one record at a time; what
      a job adds is what it recorded; and a reply adds a receipt if and only if it answers
      for the number and hash reported, its signature verifies and the append did not fail,
      and that receipt then names exactly them. */
  lemma {:induction false} StepFiles(h: Hasher, states: seq<State>, events: seq<Event>, i: nat)
    requires Run(h, states, events) && i < |events|
    ensures var s, t, e := states[i], states[i + 1], events[i];
            && (e.Appended? ==> t.chain == Append(h, s.chain, e.detail, e.lost))
            && (e.Reply? ==>
                  var w, a := s.worker, e.answer;
                  var files := w.Reporting? && a.Answered? && a.number == w.number && a.hash == w.hash && a.verifies && e.filed;
                  t.chain == if files then Append(h, s.chain, Receipt(a.number, a.hash), e.lost) else s.chain)
            && (!e.Appended? && !e.Reply? ==> t.chain == s.chain)
  {
  }

  /** What is reported is the newest record there is when the head is read. */
  lemma {:induction false} ReportIsTheHead(h: Hasher, states: seq<State>, events: seq<Event>, i: nat)
    requires Run(h, states, events) && i < |events| && events[i].ReadHead?
    ensures var s, t := states[i], states[i + 1];
            if |s.chain| == 0 then t.worker == Waiting && t.reports == s.reports
            else t.worker == Reporting(|s.chain|, s.chain[|s.chain| - 1].hash) && t.reports == s.reports + 1
  {
  }

  /** Every receipt in the chain was filed by a reply of the run whose signature verified,
      to a report of exactly the number and hash the receipt names. */
  lemma {:induction false} ReceiptWasVerified(h: Hasher, states: seq<State>, events: seq<Event>, k: nat)
    requires Run(h, states, events)
    requires k < |states[|events|].chain| && states[|events|].chain[k].payload.detail.Receipt?
    ensures exists i | 0 <= i < |events| ::
              && Vouches(states[i].worker, events[i])
              && states[|events|].chain[k].payload.detail == Receipt(states[i].worker.number, states[i].worker.hash)
  {
    var n := |events| - 1;
    StepFiles(h, states, events, n);
    var s := states[n];
    if k < |s.chain| {
      assert states[..|events|][n] == s;
      ReceiptWasVerified(h, states[..|events|], events[..n], k);
      var i :| 0 <= i < n && Vouches(states[..|events|][i].worker, events[..n][i])
               && s.chain[k].payload.detail == Receipt(states[..|events|][i].worker.number, states[..|events|][i].worker.hash);
      assert Vouches(states[i].worker, events[i]);
    } else {
      assert Vouches(s.worker, events[n]);
    }
  }
}
