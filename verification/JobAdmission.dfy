/**
  What Offer admits and what it refuses (cmd/halite-node/execute.go), stated on the job,
  the node's memory and what the world answered, over one offer and over whole runs.
*/
module JobAdmission {
  import opened Basics
  import opened SignedFile
  import opened JobReplay

  // ---- One offer ---------------------------------------------------------------------

  /** Nothing about the job itself is wrong at a reading of the clock, and neither its
      identifier nor its nonce is remembered. */
  predicate Fresh(order: seq<string>, j: Job, now: Time) {
    && j.jid != "" && j.jidValid && j.nonce != ""
    && (j.expires.Some? ==> now <= j.expires.value)
    && "jid:" + j.jid !in order && "nonce:" + j.nonce !in order
  }

  /** The signed record takes the job: it can be read, does not hold the identifier, and the
      line is on disk, after a rewrite if there were more than 1024 dead lines. */
  predicate Recordable(s: Signed, j: Job, io: AdmitIo) {
    !s.broken && j.jid !in s.seen && (s.lines > |s.seen| + 1024 ==> io.compact.Done?) && io.write.Wrote?
  }

  /** A job is queued exactly when everything speaks for it: it is fresh at both readings,
      not a signed job seen before, not refused by the signature check, recorded if it was
      signed by a trusted key, clear about `test`, and there is room. */
  lemma {:induction false} QueuedIff(lim: Limits, n: Node, j: Job, w: World)
    ensures var s := if j.signature != "" || w.verdict.SignedBy? then Loaded(n.signed, w.load) else n.signed;
            Offer(lim, n, j, w).1.Queued? <==>
            && Fresh(n.order, j, w.checked) && Fresh(n.order, j, w.guarded)
            && (j.signature != "" ==> s.broken || j.jid !in s.seen)
            && !w.verdict.Refused?
            && (w.verdict.SignedBy? ==> Recordable(s, j, w.admit))
            && !j.test.NotBoolean? && |n.queue| < lim.queueDepth
  {
  }

  /** A job the signature check refuses changes nothing but what a load does, whatever else
      is true of it, and the answer says so unless an earlier check had refused it. */
  lemma {:induction false} NotAuthorisedIsRefused(lim: Limits, n: Node, j: Job, w: World)
    requires w.verdict.Refused?
    ensures var (t, stage, reason) := Offer(lim, n, j, w);
            && !stage.Queued? && t.queue == n.queue && t.order == n.order && t.log == n.log
            && reason.Some?
            && (Fresh(n.order, j, w.checked) && !(j.signature != "" && SeenBefore(n.signed, j, w.load)) ==>
                  stage == AtSignature && reason == Some(NotAuthorised))
  {
  }

  predicate SeenBefore(s: Signed, j: Job, io: LoadIo) {
    !Loaded(s, io).broken && j.jid in Loaded(s, io).seen
  }

  /** What an offer puts in the evidence log: an acceptance if it got as far as the queue,
      with the key that signed it if one did, and a refusal if it was refused, for the reason
      given; both if only the queue was full. */
  lemma {:induction false} OfferIsRecorded(lim: Limits, s: State, j: Job, w: World)
    requires Enabled(s, Offered(j, w))
    ensures var (_, stage, reason) := Offer(lim, s.node, j, w);
            var signer := match w.verdict case SignedBy(key) => Some(key) case _ => None;
            && Next(lim, s, Offered(j, w)).node.log ==
               s.node.log + (if stage.Queued? || stage.AtQueue? then [Accepted(j, signer)] else [])
               + (if stage.Queued? then [] else if reason.Some? then [Declined(j, reason.value)] else [])
            && (stage.Queued? <==> reason.None?)
            && (stage.AtQueue? ==> reason == Some(QueueFull) && |s.node.queue| >= lim.queueDepth)
            && (stage.Queued? || stage.AtQueue? ==> !w.verdict.Refused?)
  {
  }

  /** A load that cannot read the file, finds a line glued to part of another, or has to
      rewrite it and fails, refuses every signed job from then on; any other leaves in memory
      every record but those a day past their expiry. */
  lemma {:induction false} LoadFailsClosed(s: Signed, io: LoadIo)
    requires !s.loaded
    ensures var t := Loaded(s, io);
            && t.loaded
            && (t.broken <==> !io.readable || s.file.glued || (io.rewrite.Failed? && NeedsRewrite(s.file, io.at)))
            && (!t.broken ==> forall jid :: jid in t.seen <==> jid in Live(s.file, io.at))
    ensures forall j, admit :: Loaded(s, io).broken ==> SignedAdmit(Loaded(s, io), j, admit).1 == Some(NotRecorded)
  {
    if !s.file.glued {
      LiveIsPruned(s.file, io.at);
    }
  }

  /** The identifiers a file holds, but for those a day past their expiry. */
  function Live(f: File, now: Time): set<string> {
    var all := if f.tail.Whole? then f.lines[f.tail.jid := f.tail.expires] else f.lines;
    set jid | jid in all && (all[jid].Some? ==> now - all[jid].value <= 86_400_000_000_000)
  }

  /** Some line is dead, or repeats another, or lacks its end. */
  predicate NeedsRewrite(f: File, now: Time) {
    f.count + (if f.tail.Whole? then 1 else 0) > |Live(f, now)| || f.tail != Empty
  }

  lemma {:induction false} LiveIsPruned(f: File, now: Time)
    requires !f.glued
    ensures Meaning(f).Some? && Pruned(Meaning(f).value.0, now).Keys == Live(f, now)
    ensures Meaning(f).value.1 == f.count + if f.tail.Whole? then 1 else 0
  {
  }

  // ---- Over runs --------------------------------------------------------------------------

  /** The event that put an acceptance in the log. */
  ghost predicate WasOffered(events: seq<Event>, i: nat, j: Job, signer: Option<string>) {
    && i < |events| && events[i].Offered? && events[i].job == j
    && !events[i].world.verdict.Refused?
    && (forall key :: signer == Some(key) <==> events[i].world.verdict == SignedBy(key))
  }

  ghost predicate AllOffered(events: seq<Event>, log: seq<Record>) {
    forall r | r in log && r.Accepted? :: exists i :: WasOffered(events, i, r.job, r.signer)
  }

  lemma {:induction false} OfferedStays(events: seq<Event>, more: Event, log: seq<Record>)
    requires AllOffered(events, log)
    ensures AllOffered(events + [more], log)
  {
    forall r | r in log && r.Accepted?
      ensures exists i :: WasOffered(events + [more], i, r.job, r.signer)
    {
      var i :| WasOffered(events, i, r.job, r.signer);
      assert WasOffered(events + [more], i, r.job, r.signer);
    }
  }

  lemma {:induction false} StepOffered(lim: Limits, s: State, e: Event, events: seq<Event>)
    requires Enabled(s, e) && AllOffered(events, s.node.log)
    ensures AllOffered(events + [e], Next(lim, s, e).node.log)
  {
    OfferedStays(events, e, s.node.log);
    if e.Offered? {
      OfferIsRecorded(lim, s, e.job, e.world);
      var signer := match e.world.verdict case SignedBy(key) => Some(key) case _ => None;
      var stage := Offer(lim, s.node, e.job, e.world).1;
      if stage.Queued? || stage.AtQueue? {
        assert WasOffered(events + [e], |events|, e.job, signer);
      }
    }
  }

  lemma {:induction false} RunOffered(lim: Limits, states: seq<State>, events: seq<Event>)
    requires Run(lim, states, events)
    ensures AllOffered(events, states[|events|].node.log)
  {
    if events != [] {
      var n := |events| - 1;
      RunOffered(lim, states[..|events|], events[..n]);
      StepOffered(lim, states[n], events[n], events[..n]);
      assert events[..n] + [events[n]] == events;
    }
  }

  lemma {:induction false} AcceptanceIsInLog(log: seq<Record>, j: Job)
    requires Acceptances(log, j) > 0
    ensures exists r :: r in log && r.Accepted? && r.job == j
  {
    var n := |log| - 1;
    if log[n].Accepted? && log[n].job == j {
      assert log[n] in log;
    } else {
      AcceptanceIsInLog(log[..n], j);
    }
  }

  /** In every run, every acceptance recorded, and so every job that waits, runs or has a
      result, was offered in an event whose signature check did not refuse it; and the
      acceptance names a key if and only if the check named that key. */
  lemma {:induction false} AcceptedWasAuthorised(lim: Limits, states: seq<State>, events: seq<Event>)
    requires Run(lim, states, events)
    ensures var s := states[|events|];
            && AllOffered(events, s.node.log)
            && (forall j | Places(s, j) > 0 :: exists i, signer :: WasOffered(events, i, j, signer))
  {
    RunOffered(lim, states, events);
    AcceptedBeforeRun(lim, states, events);
    var s := states[|events|];
    forall j | Places(s, j) > 0
      ensures exists i, signer :: WasOffered(events, i, j, signer)
    {
      assert Places(s, j) <= Acceptances(s.node.log, j);
      AcceptanceIsInLog(s.node.log, j);
      var r :| r in s.node.log && r.Accepted? && r.job == j;
      var i :| WasOffered(events, i, r.job, r.signer);
    }
  }

  // ---- The guard's memory ------------------------------------------------------------------

  /** The two keys of each job the guard recorded, oldest first. */
  function KeysOf(jobs: seq<Job>): (keys: seq<string>)
    ensures |keys| == 2 * |jobs|
  {
    if jobs == [] then []
    else
      var j := jobs[|jobs| - 1];
      KeysOf(jobs[..|jobs| - 1]) + ["jid:" + j.jid, "nonce:" + j.nonce]
  }

  lemma {:induction false} KeysAt(jobs: seq<Job>, i: nat)
    requires i < |jobs|
    ensures KeysOf(jobs)[2 * i] == "jid:" + jobs[i].jid && KeysOf(jobs)[2 * i + 1] == "nonce:" + jobs[i].nonce
  {
    if i < |jobs| - 1 {
      KeysAt(jobs[..|jobs| - 1], i);
    }
  }

  /** The jobs recorded since the node last started: those that got past the guard. */
  function Recorded(lim: Limits, states: seq<State>, events: seq<Event>): seq<Job>
    requires |states| == |events| + 1
  {
    if events == [] then []
    else
      var n := |events| - 1;
      var was, e := Recorded(lim, states[..|events|], events[..n]), events[n];
      if e.Restarted? then []
      else if e.Offered? && PastGuard(Offer(lim, states[n].node, e.job, e.world).1) then was + [e.job]
      else was
  }

  predicate PastGuard(stage: Stage) {
    stage.AtTest? || stage.AtQueue? || stage.Queued?
  }

  /** The last n of a list. */
  function Last(keys: seq<string>, n: nat): seq<string> {
    keys[if |keys| > n then |keys| - n else 0..]
  }

  lemma {:induction false} OfferRecordsKeys(lim: Limits, n: Node, j: Job, w: World)
    ensures var (t, stage, _) := Offer(lim, n, j, w);
            var size := 2 * lim.guardSize;
            t.order == if PastGuard(stage) then Last(Last(n.order + ["jid:" + j.jid], size) + ["nonce:" + j.nonce], size) else n.order
  {
    OfferOrder(lim, n, j, w);
    NewestIsLast(n.order + [JidKey(j)], 2 * lim.guardSize);
    NewestIsLast(Last(n.order + [JidKey(j)], 2 * lim.guardSize) + [NonceKey(j)], 2 * lim.guardSize);
  }

  lemma {:induction false} NewestIsLast(keys: seq<string>, n: nat)
    ensures Newest(keys, n) == Last(keys, n)
  {
  }

  lemma {:induction false} OfferOrder(lim: Limits, n: Node, j: Job, w: World)
    ensures var (t, stage, _) := Offer(lim, n, j, w);
            t.order == if PastGuard(stage) then WithGuard(lim, n, j).order else n.order
  {
    if PastGuard(Offer(lim, n, j, w).1) {
      var n1 := if j.signature != "" || w.verdict.SignedBy? then n.(signed := Loaded(n.signed, w.load)) else n;
      var n2 := n1.(signed := if w.verdict.SignedBy? then SignedAdmit(n1.signed, j, w.admit).0 else n1.signed);
      var signer := if w.verdict.SignedBy? then Some(w.verdict.key) else None;
      assert Offer(lim, n, j, w) == Enqueue(lim, n2, j, signer);
      EnqueueOrder(lim, n2, n, j, signer);
    }
  }

  lemma {:induction false} EnqueueOrder(lim: Limits, n: Node, was: Node, j: Job, signer: Option<string>)
    requires n.order == was.order
    ensures Enqueue(lim, n, j, signer).0.order == WithGuard(lim, was, j).order
  {
  }

  lemma {:induction false} InLast(keys: seq<string>, n: nat, k: nat)
    requires |keys| - n <= k < |keys|
    ensures keys[k] in Last(keys, n)
  {
    var from := if |keys| > n then |keys| - n else 0;
    assert Last(keys, n)[k - from] == keys[k];
  }

  lemma {:induction false} LastOfLast(keys: seq<string>, a: string, b: string, n: nat)
    ensures Last(Last(Last(keys, n) + [a], n) + [b], n) == Last(keys + [a, b], n)
  {
    assert keys + [a, b] == keys + [a] + [b];
    LastThen(keys, a, n);
    LastThen(keys + [a], b, n);
  }

  lemma {:induction false} LastThen(keys: seq<string>, a: string, n: nat)
    ensures Last(Last(keys, n) + [a], n) == Last(keys + [a], n)
  {
  }

  /** The guard remembers exactly the newest keys of what it recorded. */
  lemma {:induction false} GuardHoldsNewest(lim: Limits, states: seq<State>, events: seq<Event>)
    requires Run(lim, states, events)
    ensures states[|events|].node.order == Last(KeysOf(Recorded(lim, states, events)), 2 * lim.guardSize)
  {
    if events != [] {
      var n := |events| - 1;
      GuardHoldsNewest(lim, states[..|events|], events[..n]);
      var s, e := states[n], events[n];
      assert states[n + 1] == Next(lim, s, e);
      if e.Offered? {
        OfferRecordsKeys(lim, s.node, e.job, e.world);
        var was := Recorded(lim, states[..|events|], events[..n]);
        assert (was + [e.job])[..|was|] == was;
        LastOfLast(KeysOf(was), "jid:" + e.job.jid, "nonce:" + e.job.nonce, 2 * lim.guardSize);
      }
    }
  }

  /** So in every run, signed or not, a job whose identifier or nonce is that of one of the
      last `guardSize` recorded since the node started is not queued. */
  lemma {:induction false} RepeatIsRefused(lim: Limits, states: seq<State>, events: seq<Event>, i: nat, j: Job, w: World)
    requires Run(lim, states, events)
    requires var jobs := Recorded(lim, states, events);
             |jobs| - lim.guardSize <= i < |jobs| && (jobs[i].jid == j.jid || jobs[i].nonce == j.nonce)
    ensures !Offer(lim, states[|events|].node, j, w).1.Queued?
    ensures !PastGuard(Offer(lim, states[|events|].node, j, w).1)
  {
    var jobs := Recorded(lim, states, events);
    var keys, n := KeysOf(jobs), 2 * lim.guardSize;
    GuardHoldsNewest(lim, states, events);
    KeysAt(jobs, i);
    InLast(keys, n, 2 * i);
    InLast(keys, n, 2 * i + 1);
    GuardRefuses(lim, states[|events|].node, j, w);
  }

  lemma {:induction false} GuardRefuses(lim: Limits, n: Node, j: Job, w: World)
    requires !Fresh(n.order, j, w.checked) || !Fresh(n.order, j, w.guarded)
    ensures !PastGuard(Offer(lim, n, j, w).1)
  {
  }

  /** And what was recorded before those is forgotten: a job fresh to the rest is let past
      the guard again. */
  lemma {:induction false} ForgottenIsFresh(lim: Limits, states: seq<State>, events: seq<Event>, j: Job, now: Time)
    requires Run(lim, states, events)
    requires j.jid != "" && j.jidValid && j.nonce != "" && (j.expires.Some? ==> now <= j.expires.value)
    requires var jobs := Recorded(lim, states, events);
             forall i | 0 <= i < |jobs| && |jobs| - lim.guardSize <= i :: jobs[i].jid != j.jid && jobs[i].nonce != j.nonce
    ensures Fresh(states[|events|].node.order, j, now)
  {
    var jobs := Recorded(lim, states, events);
    GuardHoldsNewest(lim, states, events);
    forall key | key in Last(KeysOf(jobs), 2 * lim.guardSize)
      ensures key != "jid:" + j.jid && key != "nonce:" + j.nonce
    {
      var i := LastIsOf(jobs, lim.guardSize, key);
      KeysDiffer(jobs[i], j);
    }
  }

  /** Which job a remembered key is of. */
  lemma {:induction false} LastIsOf(jobs: seq<Job>, size: nat, key: string) returns (i: nat)
    requires key in Last(KeysOf(jobs), 2 * size)
    ensures i < |jobs| && |jobs| - size <= i && (key == "jid:" + jobs[i].jid || key == "nonce:" + jobs[i].nonce)
  {
    var keys := KeysOf(jobs);
    var from := if |keys| > 2 * size then |keys| - 2 * size else 0;
    var k :| 0 <= k < |keys| - from && keys[from..][k] == key;
    i := (from + k) / 2;
    KeysAt(jobs, i);
    assert keys[from + k] == key && (from + k == 2 * i || from + k == 2 * i + 1);
  }

  lemma {:induction false} KeysDiffer(a: Job, b: Job)
    requires a.jid != b.jid && a.nonce != b.nonce
    ensures "jid:" + a.jid != "jid:" + b.jid && "nonce:" + a.nonce != "nonce:" + b.nonce
    ensures "jid:" + a.jid != "nonce:" + b.nonce && "nonce:" + a.nonce != "jid:" + b.jid
  {
    assert ("jid:" + a.jid)[4..] == a.jid && ("jid:" + b.jid)[4..] == b.jid;
    assert ("nonce:" + a.nonce)[6..] == a.nonce && ("nonce:" + b.nonce)[6..] == b.nonce;
    assert ("jid:" + a.jid)[0] == 'j' && ("nonce:" + b.nonce)[0] == 'n';
    assert ("jid:" + b.jid)[0] == 'j' && ("nonce:" + a.nonce)[0] == 'n';
  }
}
