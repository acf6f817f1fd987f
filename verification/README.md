# Halite, modelled in Dafny

Halite is a configuration-management system: a hub with an HTTP API, nodes that
execute signed jobs and keep a tamper-evident log, and extensions that run as
separate processes. This project models the parts of it whose promises are about
whole runs, every interleaving, or every input, and proves those promises.

| Files | What they model |
|---|---|
| `LoginTables`, `LoginNameRuns`, `LoginGuessing`, `LoginSourceRuns`, `LoginSourceExact`, `LoginIsolation` | The login limiter: backoff per (source, name), a leaky budget per source, two bounded tables filled by callers |
| `Totp` | The second factor: the code of a time step byte by byte, which step a code is for, and that a step is used once |
| `HookReplay`, `HookPromises` | Webhook deliveries interleaving around the unlocked call to the hub: reserve, land, release |
| `JobReplay`, `JobAdmission`, `SignedFile` | A node's admission of jobs: the bounded replay guard, the signed record and the file it lives in, the order of checks in `Offer`, restarts and clock corrections |
| `JobQueue` | The bounded queue while `Cancel` drains and refills it beside a running worker |
| `Evidence`, `Anchor` | The hash-chained evidence log, its verifier, and the reporter that has the hub sign its head |
| `JobPayload`, `Sorting` | The canonical bytes a job signature covers |
| `SignedTarget` | Whether a signed job was meant for this node, with a pillar compiled only when a term asks for it |
| `TargetText`, `TargetGrammar`, `TargetParser`, `TargetMeaning` | The compound target language: tokens, grammar, recursive-descent parser, and what its words say |
| `SecretCache`, `SecretIdentity`, `PillarNest` | The AWS secrets extension: an LRU and TTL cache with two bounds, the identity its keys carry, and dotted keys nested into a pillar |
| `Frames`, `Session` | The extension wire protocol: length-prefixed frames and the call/answer session |
| `Basics`, `Texts` | What the others share |

Where the source updates an object in place the model is a class whose methods are
proved against specification functions; where it interleaves goroutines the model is
a state machine over its atomic steps, with every schedule allowed. A Go map range is
an arbitrary order. Time is an integer argument, nanoseconds unless a file says
otherwise.

`dafny verify dfyconfig.toml` checks everything. Lemmas carry `{:induction false}` so
that each proof is the one written out and costs the same from run to run.

## What the proofs take as given

- The clock never goes back, for the login limiter, the webhooks and the second
  factor. A webhook delivery may read it at any time before each step that takes the
  lock, and a login's code may be matched at any time before its step is used; the login
  tables are called in the order the clock was read. The signed job record is proved
  with the slack it is written for: a clock set back by up to twenty-four hours, across
  any number of restarts.
- HMAC and SHA-256 are parameters; hashes and digests are taken as injective where a
  claim needs it. JSON and RFC 3339 are parameters that read back what they wrote.
- An extension's handler has stopped writing when it returns. One that left a goroutine
  behind may write streaming frames after its result, which moves no result
  (`Session.LateFramesChangeNoResult`).
- What the network, the disk, the hub and the compiled pillar answer is a parameter
  of each step, unconstrained unless a contract says so.

## Where each promise ends

Each of these is an if-and-only-if over all inputs or all runs, with an input or a run
on the side where the promise fails.

- An attempt is checked, verified with no lock held and only then charged, so attempts at
  one name can overlap. n guesses with at most k overlapping and no reset take at least
  `Span(n, k)` (`LoginGuessing.GuessingIsSlow`), which is reached
  (`LoginGuessing.SpanIsMet`) and is the sum of the first n - 1 windows if and only if
  n = 1 or k = 1 (`LoginGuessing.NoFasterThanOneIff`; two at once in no time are
  `LoginGuessing.OverlapIsFaster`).
- One at a time and resets allowed, n guesses take that sum if and only if n is at most 10
  (`LoginGuessing.NeverFasterIff`). From the eleventh on, waiting once for the count to
  start again is faster: eleven in 962 seconds instead of 1023
  (`LoginGuessing.ResetsAreFaster`). Whatever the timing, no more than k guesses per 144
  seconds get through, 897 seconds ahead at most (`LoginGuessing.GuessingRate`).
- `loginKey` (`internal/api/loginlimit.go:172-174`) gives every attempt its own key if and
  only if no login method followed by a colon begins another
  (`LoginIsolation.KeysUnambiguousIff`); `local` and `ldap` meet that
  (`LoginIsolation.MethodsInUseAreUnambiguous`).
- `reserve` prunes every hook's records by the calling hook's window, so landings of a
  hook's signature are always more than its window apart if and only if no hook that
  anything can verify under has a shorter one (`HookPromises.SpacedIffNoneShorter`;
  `HookPromises.ForgottenByAnother` is the run).
- Where no hook has a shorter window, a signature that landed can land again, reserved at
  most a given time after it was verified, if and only if it landed before its stamp and
  that time (`HookPromises.LandsAgainIff`). Stamped no later than it lands, and verified and reserved
  in one instant, it lands once (`HookPromises.LandsAtMostOnce`); one tick between the two
  readings of the clock is enough for twice (`HookPromises.SlowReserveLandsTwice`).
- A job identifier is queued again if and only if it was signed again with a later
  expiry (`JobReplay.QueuedAgainIff`).
- The file of signed jobs loads if and only if no whole line was written after part of
  one (`SignedFile.MeaningOfAppends`), and then gives exactly the accepted jobs and the last
  line if it lacks only its newline (`SignedFile.FileLoadsAsItMeans`). A write that fails
  part-way therefore has the next start refuse every signed job, if another job was
  accepted meanwhile.
- Logins let in from t0 on, each at most d after its code was matched, keep to the bound
  that counts by the match (`Totp.LoginsBound`) if and only if t0 and t0 - d are in one step
  (`Totp.PlainBoundHoldsIff`; `Totp.HeldUpLoginsExceedIt` is the run).
- A call has a result (`ext/extension.go:112`) if and only if the result fits a frame
  (`Session.ResultReachesHostIff`; `Session.OversizeResultExists` is a call).
- A stream reads as cleanly ended if and only if it is empty or stops right after a
  header that announces a body (`Frames.EndOfInputIff`, `Frames.LoneHeaderReadsAsEnd`).
- What is stored in the secret cache for one request is served to another if and only if
  client and joined text are the same (`SecretIdentity.ServedIffAlike`), and a request has
  a key of its own if and only if there is no `|` in its region, secret or stage
  (`SecretIdentity.OwnKeyIff`).
- A record of an evidence chain can be replaced by another without a break if and only if
  number and link are kept, the stored hash too unless it is the last, and the hash
  recomputes under a schema this build knows (`Evidence.ReplacedUnnoticedIff`). So under an
  unknown schema anything passes and is counted, as
  `internal/nodeevidence/verify.go:58-64` says; before the last record a known schema
  passes only unchanged (`Evidence.KnownIsNoticedBeforeTheLast`); and the last can be
  rewritten and hashed again (`Evidence.LastCanBeRewritten`), which is what receipts are for.
- A target word takes in the text after it, keywords included, if and only if its own
  parentheses stay open to each blank, as `internal/target/compound.go:147-150` says
  (`TargetText.WordTakesInIff`).

## Model

| member | source | states |
|---|---|---|
| `LoginTables.LoginLimit.Wait` | internal/api/loginlimit.go:180-188 | The time left of the key's window; zero exactly when no window is open |
| `LoginTables.LoginLimit.Failed` | internal/api/loginlimit.go:191-212 | The table stays within 4096 and becomes one `NamesFailed` allows: room made if needed, the key charged with its next window, starting over if it was quiet long enough |
| `LoginTables.LoginLimit.Succeeded` | internal/api/loginlimit.go:215-219 | Only that key goes |
| `LoginTables.LoginLimit.Evict` | internal/api/loginlimit.go:223-241 | In any visiting order: every stale entry goes and, only if the table is still full, one whose window ends soonest; there is room after |
| `LoginTables.LoginLimit.SourceWait` | internal/api/loginlimit.go:254-266 | The time until the drained level is back at 29; zero exactly when it is there |
| `LoginTables.LoginLimit.SourceFailed` | internal/api/loginlimit.go:269-282 | The source's drained level rises by one failure, in a table kept within 4096 |
| `LoginTables.LoginLimit.EvictSource` | internal/api/loginlimit.go:287-304 | In any visiting order: every drained source goes and, only if the table is still full, one with the least level |
| `LoginTables.LoginLimit.Throttled` | internal/api/auth.go:47-66 | The source's wait if it has one, and otherwise the key's; zero exactly when the level is at most 29 failures and no window is open |
| `LoginTables.LoginLimit.ChargeBoth` | internal/api/auth.go:70-74 | Key and source are both charged at one reading of the clock |
| `LoginTables.RetryAfter` | internal/api/auth.go:59-63 | The least whole number of seconds that covers the wait |
| `LoginNameRuns.TableBounded` | internal/api/loginlimit.go:191-241 | In every state of every run the backoff table has at most 4096 entries |
| `LoginNameRuns.EvictionGivesUpTheSoonest` | internal/api/loginlimit.go:191-241 | An eviction loses at most one live entry, only from a full table with nothing stale, and then one whose window ends soonest |
| `LoginNameRuns.WaitNeverLonger` | internal/api/loginlimit.go:180-241 | In every run the bounded table never answers a longer wait than one that never evicts |
| `LoginNameRuns.WaitExactUntilLiveLoss` | internal/api/loginlimit.go:180-241 | Until a live entry is evicted, every answer equals that of a table that never evicts |
| `LoginNameRuns.OwnHistoryDecides` | internal/api/loginlimit.go:180-219 | Without eviction a key's entry is a function of that key's own events alone |
| `LoginGuessing.KeptEntry` | internal/api/loginlimit.go:191-241 | A key never cleared, and evicted only when stale, holds exactly what its own failures charge or nothing where that is stale, whatever the rest of the run does |
| `LoginGuessing.GuessingIsSlow` | internal/api/auth.go:116-152 | With at most k attempts at a key between check and charge and no reset, n failures span at least Span(n, k): the windows of the (n-k)-th failure, the (n-2k)-th and so on |
| `LoginGuessing.SpanIsMet` | internal/api/auth.go:116-152 | For every n and k, a history that takes exactly that long |
| `LoginGuessing.SpanOneAtATime` | internal/api/loginlimit.go:205-211 | One at a time that is 2^(n-1) - 1 seconds up to the eleventh, and 900 more for each after it |
| `LoginGuessing.NoFasterThanOneIff` | internal/api/auth.go:119-152 | n failures without a reset always take as long as one at a time if and only if n = 1 or k = 1 |
| `LoginGuessing.OverlapIsFaster` | internal/api/auth.go:119-152 | Two attempts let through together are charged in no time |
| `LoginGuessing.NeverFasterIff` | internal/api/loginlimit.go:180-212 | One at a time, every n admitted failures, resets included, span that sum if and only if n is at most 10 |
| `LoginGuessing.ResetsAreFaster` | internal/api/loginlimit.go:201-204 | For every n from 11 on, n admitted failures with one reset in 931 seconds and the sum for n - 5, less than the sum for n |
| `LoginGuessing.GuessingRate` | internal/api/loginlimit.go:180-212 | Resets or none, with at most k open, n failures span at least 144 floor((n-1)/k) - 897 seconds |
| `LoginGuessing.KeyGuessedSlowly` | internal/api/auth.go:116-152 | The same bounds for a key inside any run of the whole table that evicts it only when stale, with at most k attempts at it between check and charge |
| `LoginGuessing.WaitIsExact` | internal/api/loginlimit.go:180-212 | In every run with no reset, the wait is exactly what is left of 2^(n-1) seconds, or of 900 from the eleventh on, since the n-th failure |
| `LoginGuessing.WaitRunsOut` | internal/api/loginlimit.go:180-188 | A wait not charged again counts down to nothing, second by second, and stays there |
| `LoginGuessing.SuccessClears` | internal/api/loginlimit.go:215-219 | After a success there is no wait and the next failure is a first one; no other key is touched |
| `LoginSourceRuns.TableBounded` | internal/api/loginlimit.go:269-304 | In every state of every run the budget table has at most 4096 entries |
| `LoginSourceRuns.EvictionGivesUpTheLeast` | internal/api/loginlimit.go:269-304 | An eviction loses at most one source with anything spent, only from a full table with nothing drained, and then one with the least level |
| `LoginSourceRuns.SourceWaitNeverLonger` | internal/api/loginlimit.go:244-304 | In every run the bounded budgets never answer a longer wait than budgets that are never evicted |
| `LoginSourceRuns.SourceWaitExactUntilLiveLoss` | internal/api/loginlimit.go:244-304 | Until a source with anything spent is evicted, every answer equals that of budgets never evicted |
| `LoginSourceRuns.BudgetBound` | internal/api/auth.go:47-74 | With at most k attempts between check and charge, a kept source's level is at most 29 + k, less one for each attempt still open |
| `LoginSourceRuns.ChargesAreAccountedFor` | internal/api/loginlimit.go:244-282 | What was charged over a stretch is at most the level at its end plus what drained meanwhile |
| `LoginSourceRuns.ChargeRate` | internal/api/loginlimit.go:244-282 | In any interval of length T a kept source is charged at most 29 + k + T/30s failures |
| `LoginSourceExact.LevelIsBacklog` | internal/api/loginlimit.go:244-250 | In every run a kept source's level is exactly the greatest, over its charges, of thirty seconds for each charge from that one on less the time since it |
| `LoginSourceExact.SourceWaitIsExact` | internal/api/loginlimit.go:254-266 | The wait is exactly that over twenty-nine failures, or nothing |
| `LoginSourceExact.SourceWaitRunsOut` | internal/api/loginlimit.go:244-266 | A wait not charged again counts down to nothing, second by second, and stays there |
| `LoginSourceExact.ChargeRateIsMet` | internal/api/auth.go:47-74 | For every k and every length T, a run that charges a kept source exactly 29 + k + T/30s times within T and leaves its level at 29 + k |
| `LoginIsolation.KeyIsUnambiguous` | internal/api/loginlimit.go:175-177 | For methods without a colon and sources without NUL, equal keys mean equal method, source and name |
| `LoginIsolation.KeysUnambiguousIff` | internal/api/loginlimit.go:172-177 | A set of methods gives every attempt its own key if and only if none, with a colon, begins another |
| `LoginIsolation.MethodsInUseAreUnambiguous` | internal/api/ldap.go:22-31 | `local` and `ldap` meet that |
| `LoginIsolation.ThrottledOnlyByOwnSource` | internal/api/auth.go:47-74 | An attempt throttled in any run, evictions included, would be throttled by its own source's events alone |
| `Totp.CounterBytesNumber` | internal/account/account.go:406-410 | The bytes shifted out of a counter are that counter modulo 2^64, big-endian |
| `Totp.CounterBytesInjective` | internal/account/account.go:406-410 | Two 64-bit counters are never hashed as the same message |
| `Totp.TotpCode` | internal/account/account.go:405-420 | The code is six digits spelling the 31 bits at the offset the last nibble names, modulo a million, for every HMAC |
| `Totp.CodeIsTheBits` | internal/account/account.go:413-419 | For every HMAC the code is six digits that spell, modulo a million, the 31 bits at the offset the low four bits of the last byte name, by mask, shift and or |
| `Totp.WorkedExample` | internal/account/account.go:404-420 | The HMAC of section 5.4 of RFC 4226 gives 872921 |
| `Totp.CounterBytesAt` | internal/account/account.go:406-410 | Each byte of the message by its place, the most significant first |
| `Totp.StepIsThirtySeconds` | internal/account/account.go:359 | A step is exactly the thirty seconds from 30 c to 30 c + 29 |
| `Totp.MatchTotp` | internal/account/account.go:356-370 | Valid exactly when one of the three steps has this code, and then the greatest that has |
| `Totp.MatchAccount` | internal/account/account.go:339-371 | From the stored text: the greatest of the three steps whose totpCode under the decoded secret is this code; nothing is valid without a readable secret or where the path is disabled |
| `Totp.TotpSteps.Use` | internal/account/account.go:391-402 | A step is taken exactly when later than the account's last, and then becomes its last; no other account moves |
| `Totp.StepsIncrease` | internal/account/account.go:373-402 | Between restarts the steps an account is let in for strictly increase, however logins interleave |
| `Totp.LoginsBound` | internal/api/auth.go:141-148 | From any moment t0 of any run to any later t1, logins matched in that time let an account in at most floor(t1/30) - floor(t0/30) + 3 times, and three more per restart, however matching and use interleave |
| `Totp.LoginsBoundIsMet` | internal/account/account.go:373-402 | Between any two moments, with any number of restarts, a run that reaches the bound |
| `Totp.DelayedLoginsBound` | internal/api/auth.go:144-145 | With every step used within d of its match, logins let in between t0 and t1 number at most floor(t1/30) - floor((t0-d)/30) + 3, and three more per restart |
| `Totp.PlainBoundHoldsIff` | internal/api/auth.go:144-145 | Logins let in from t0 on keep to the bound that counts by the match if and only if t0 - d is in the step of t0 |
| `Totp.HeldUpLoginsExceedIt` | internal/api/auth.go:144-145 | Otherwise a run that lets four in at t0 alone |
| `HookReplay.Hooks.Reserve` | internal/api/hook.go:490-515 | Refused as replayed, refused as in flight, or reserved, by the records left after pruning with the caller's window; the records and holders after |
| `HookReplay.Hooks.Landed` | internal/api/hook.go:519-527 | The key is recorded at its landing and no longer held |
| `HookPromises.NeverTwoHolders` | internal/api/hook.go:297-319 | In every reachable state two deliveries past the reservation hold different keys, whenever each read the clock |
| `HookPromises.SpacedIffNoneShorter` | internal/api/hook.go:490-515 | Two landings of a hook's signature are always more than its window apart if and only if no hook that can verify anything has a shorter window |
| `HookPromises.ForgottenByAnother` | internal/api/hook.go:498-502 | A delivery through a hook with a shorter window lets this one land again inside its window |
| `HookPromises.LandsAgainIff` | internal/api/hook.go:427-527 | For a hook whose window no other undercuts: a signature lands at `a` and again, reserved at most `gap` after it verified, in some run if and only if it can land at `a` and `a` is before stamp plus gap |
| `HookPromises.LandsAtMostOnce` | internal/api/hook.go:295-301 | In any run, a second landing of a signature that was verified and reserved in one instant means the first was before its stamp |
| `HookPromises.LandedInsideItsWindow` | internal/api/hook.go:442-445 | Whatever landed was verified no more than its window before or after its stamp, and reserved and recorded after that |
| `HookPromises.VerifiesIff` | internal/api/hook.go:427-445 | A delivery verifies if and only if the clock is within the window of its stamp, either way |
| `HookPromises.SlowReserveLandsTwice` | internal/api/hook.go:442-444 | Stamped and landed at 0, a copy verified at the end of the window lands too if reserved a tick later, and not if reserved at once |
| `HookPromises.AnswerMatchesHistory` | internal/api/hook.go:490-527 | In every reachable state, for a hook whose window no other undercuts, the answer is the one the full history of landings and holders gives |
| `HookPromises.FailedDeliveryIsRetriable` | internal/api/hook.go:311-319 | When a delivery fails, whatever ran meanwhile and whatever the windows, its key is reservable again at any reading of the clock |
| `JobReplay.Executor.Check` | internal/job/guard.go:100-138 | The guard's answer on a job: malformed, expired, seen or none, from its current memory |
| `JobReplay.Executor.RecordKey` | internal/job/guard.go:142-152 | The memory is the newest keys up to twice its size |
| `JobReplay.Executor.LoadRecord` | internal/job/signedreplay.go:166-211 | Memory and file after a load: an unreadable or glued file refuses for good, dead lines are pruned, and a file with any, or with a torn end, is rewritten |
| `JobReplay.Executor.AdmitSigned` | internal/job/signedreplay.go:115-137 | Memory, file and line count after an admission, a compaction and a write that may tear included, and the refusal if it was seen or could not be written |
| `JobReplay.Executor.OfferJob` | cmd/halite-node/execute.go:417-483 | Guard, record and queue after an offer, and the stage that refused it, on every path |
| `JobReplay.Executor.Cancel` | cmd/halite-node/execute.go:534-560 | With nobody else at the queue: the jobs with another identifier in their order, and whether any had this one |
| `JobAdmission.QueuedIff` | cmd/halite-node/execute.go:417-483 | A job is queued if and only if it is well formed, unexpired and not remembered at both readings, not a signed one seen before, not refused by the signature check, recorded if signed, clear about `test`, and there is room |
| `JobAdmission.NotAuthorisedIsRefused` | cmd/halite-node/execute.go:435-439 | Whatever else is true of it, a job the signature check refuses leaves queue, guard and log as they were, and is refused for that unless an earlier check refused it |
| `JobAdmission.OfferIsRecorded` | cmd/halite-node/execute.go:392-406 | Exactly what an offer adds to the evidence: the acceptance, with the key that signed it, if it got to the queue, and the refusal with its reason if it was refused |
| `JobAdmission.AcceptedWasAuthorised` | cmd/halite-node/execute.go:435-483 | In every run each acceptance, and so each job that waits, runs or has a result, was offered in an event the signature check did not refuse, and names a key if and only if the check did |
| `JobAdmission.GuardHoldsNewest` | internal/job/guard.go:104-152 | In every run the guard's memory is exactly the newest keys of the jobs recorded since the node started |
| `JobAdmission.RepeatIsRefused` | internal/job/guard.go:104-138 | Signed or not, a job with the identifier or the nonce of one of the last `guardSize` recorded is not queued |
| `JobAdmission.ForgottenIsFresh` | internal/job/guard.go:142-152 | One with the identifier and nonce of none of them is fresh to the guard |
| `JobAdmission.LoadFailsClosed` | internal/job/signedreplay.go:158-211 | A load refuses every signed job from then on if and only if the file cannot be read, is glued, or needs a rewrite that fails; otherwise memory holds every record but those a day past expiry |
| `JobReplay.CoveredIsRefused` | cmd/halite-node/execute.go:409-466 | A covered identifier is not queued, even by a clock set back as far as the slack allows, unless under a later expiry |
| `JobReplay.SignedJobQueuedOnce` | cmd/halite-node/execute.go:417-483 | Over any sequence of offers, guard evictions, restarts and bounded clock corrections, no signed job is queued twice: an identifier comes again only under a later expiry |
| `JobReplay.QueuedAgainIff` | internal/job/signedreplay.go:115-137 | For any two expiries, some run queues an identifier under one and later under the other if and only if the second is later |
| `SignedFile.LoadText` | internal/job/signedreplay.go:166-211 | The records the text holds and how many lines they are on, or an error at the first line that is none, a last one without a newline apart |
| `SignedFile.FileLoadsAsItMeans` | internal/job/signedreplay.go:158-235 | Whatever was appended and however it was torn, loading the text gives exactly the accepted jobs, and the last line too if it lacks only its newline, or an error |
| `SignedFile.MeaningOfAppends` | internal/job/signedreplay.go:158-211 | The lines are the accepted jobs, and the load fails if and only if a whole line was written after part of one |
| `SignedFile.RewriteMeans` | internal/job/signedreplay.go:288-301 | A rewrite in any order leaves a file that means the records written |
| `JobReplay.FileIsItsText` | internal/job/signedreplay.go:166-301 | In every run, restarts and failed writes included, the file is a text that loads as exactly what the record takes it to mean |
| `SignedFile.GluedLineFails` | internal/job/signedreplay.go:222-235 | A whole line written after anything is never read as a record |
| `JobReplay.AcceptedBeforeRun` | cmd/halite-node/execute.go:467-507 | In every run, for every job, its results, its places in the queue and its running are together at most its acceptances, and so are its results at every point of the log |
| `JobReplay.RefusedEarlyTakesNoPlace` | cmd/halite-node/execute.go:417-451 | A job refused by the guard, the seen check or the signature check leaves guard, queue and evidence as they were and adds nothing to the signed record |
| `JobReplay.WithoutKeepsOnly` | cmd/halite-node/execute.go:534-560 | What a cancellation leaves is exactly the jobs with another identifier |
| `JobQueue.NothingLost` | cmd/halite-node/execute.go:489-560 | In every interleaving: the line is in order and fits the queue, the refill never finds it full, every job is in one place, and what a cancellation holds is not what it cancels |
| `JobQueue.EveryJobAccountedFor` | cmd/halite-node/execute.go:417-560 | Accepted = finished + running + queued or held + cancelled + refused as full, each job in exactly one of them |
| `JobQueue.CancelIsExact` | cmd/halite-node/execute.go:534-560 | Only the identifier asked for is dropped, none of it waits when the cancellation ends, and the answer says whether any was dropped |
| `JobQueue.QueuedIffRoom` | cmd/halite-node/execute.go:473-482 | At every step a job offered is queued, last, if and only if there is room and otherwise refused, and the worker takes the first |
| `JobQueue.OvertakesOnlyTheHeld` | cmd/halite-node/execute.go:534-560 | The worker takes a later job before an earlier one only while a cancellation holds the earlier |
| `Evidence.AppendHolds` | internal/nodeevidence/evidence.go:368-427 | Appending, losses noted or not, keeps the chain whole |
| `Evidence.HashFixesPrefix` | internal/nodeevidence/evidence.go:154-162 | Two chains that share one hash are the same record for record up to it |
| `Evidence.TruncationHolds` | internal/nodeevidence/verify.go:79-180 | A chain cut short anywhere still verifies, which is what anchors are for |
| `Evidence.Verify` | internal/nodeevidence/verify.go:79-180 | The breaks with their segment and line, and the counts of records, of records not checked and of losses, of the walk over all segments |
| `Evidence.OkIffAllFit` | internal/nodeevidence/verify.go:51-53 | No break if and only if every segment is whole, every line reads and every record that can be checked fits; the counts are those of the records |
| `Evidence.BreaksAreExact` | internal/nodeevidence/verify.go:79-180 | A break is reported if and only if it is so, by segment, line and reason, against the records before that line |
| `Evidence.VerifiedIffHolds` | internal/nodeevidence/verify.go:55-65 | No break and nothing unchecked if and only if every segment is whole and the chain across them holds |
| `Evidence.ReplacedUnnoticedIff` | internal/nodeevidence/verify.go:79-180 | For any chain that holds, any record of it, any other in its place and any cut into segments: no break if and only if number and prev are kept, the hash too unless it is the last, and the hash recomputes under a known schema; an unknown one is counted |
| `Evidence.KnownIsNoticedBeforeTheLast` | internal/nodeevidence/verify.go:67-74 | Before the last record, a known schema passes only for the record itself |
| `Evidence.LastCanBeRewritten` | internal/nodeevidence/verify.go:67-76 | The last record with any other detail, hashed again, makes a chain that holds |
| `Anchor.NoWakeupLost` | cmd/halite-node/anchor.go:67-113 | In every reachable state a signal is pending, the worker has one it has not acted on, or the head it read covers every record a request was made for |
| `Anchor.NoFeedback` | cmd/halite-node/anchor.go:116-162 | Receipts never outnumber reports, nor reports requests, although each receipt moves the head |
| `Anchor.StepFiles` | cmd/halite-node/anchor.go:133-160 | At every step of every run a reply adds a receipt if and only if it answers for the number and hash reported, its signature verifies and the append did not fail, and then exactly that receipt; nothing else but a job's record changes the chain |
| `Anchor.ReportIsTheHead` | cmd/halite-node/anchor.go:117-127 | What is reported is the newest record there is when the head is read, and an empty chain is not reported |
| `Anchor.ReceiptWasVerified` | cmd/halite-node/anchor.go:143-150 | Every receipt in the chain has a reply of the run whose signature verified, to a report of what the receipt names |
| `Anchor.ReceiptFixesHistory` | cmd/halite-node/anchor.go:116-162 | Any verifying chain that holds the hash a filed receipt names is this chain up to that record |
| `JobPayload.TypedUnique` | internal/jobsign/jobsign.go:196-234 | A typed value is read one way, whatever it nests and whatever follows it |
| `JobPayload.CanonicalDetermines` | internal/jobsign/jobsign.go:130-181 | Two jobs have the same canonical bytes if and only if they are the same job in every field, every map and every value's type |
| `JobPayload.DocumentedEncoding` | internal/jobsign/typed_test.go:82-110 | The documented job has the documented bytes |
| `JobPayload.WriteCanonical` | internal/jobsign/jobsign.go:142-177 | The builder writes those bytes whatever order the maps, nested ones too, are visited in |
| `Sorting.CollectSorted` | internal/jobsign/jobsign.go:153-157 | Keys collected in any order come out as the one sorted list of their set |
| `JobPayload.Version1Confuses` | internal/jobsign/jobsign.go:238-255 | Version 1 spelt a boolean and its text alike; version 2 does not |
| `SignedTarget.Loader.Load` | cmd/halite-node/jobsignature.go:357-372 | The pillar is compiled once, and a failure is remembered and read as empty |
| `SignedTarget.Loader.Match` | internal/target/compound.go:104-122 | The value of the expression of the pillar seen, and the pillar asked for exactly when short-circuit evaluation reaches a pillar term |
| `SignedTarget.Accepts` | cmd/halite-node/jobsignature.go:315-328 | Accepted exactly when the match holds and no failed pillar was asked for |
| `SignedTarget.UnreadMeansIndependent` | cmd/halite-node/jobsignature.go:331-356 | What is decided without reaching a pillar term has the same value for every pillar |
| `SignedTarget.AcceptsOnlyWhatIsTrue` | cmd/halite-node/jobsignature.go:290-329 | With a pillar, accepted if and only if true of it; without one, if and only if true of every pillar and decided without any |
| `SignedTarget.EmptyPillarWouldLie` | cmd/halite-node/jobsignature.go:344-356 | Reading a failure as an empty pillar would accept an expression false of the node |
| `TargetText.Tokenize` | internal/target/compound.go:151-186 | The tokens the scan by character gives |
| `TargetText.TokensAreStable` | internal/target/compound.go:151-186 | For every text, its tokens written out with blanks are read back as the same tokens |
| `TargetText.NothingIsLost` | internal/target/compound.go:151-186 | Every character of a text but blanks is in its tokens, in order |
| `TargetText.OneTokenIff` | internal/target/compound.go:144-186 | A text is one token if and only if it is a parenthesis by itself or a word with blanks only inside its own open parentheses |
| `TargetText.WordTakesInIff` | internal/target/compound.go:147-150 | A word takes in all that follows it if and only if its parentheses stay open to each blank and close no further than they opened |
| `TargetText.TreeReadsBack` | internal/target/compound.go:124-300 | Every tree of the grammar, written out, is read as itself, or refused for depth if it nests too deep |
| `TargetText.ExpressionReadsBack` | internal/target/compound.go:124-300 | Every expression has a text, parenthesised only where precedence needs it, that is read as that expression or refused for its depth and nothing else |
| `TargetGrammar.ParsesIffGrammatical` | internal/target/compound.go:8-21 | A list of tokens parses to a tree if and only if the tree obeys the precedence rules and the depth bound and spells exactly those tokens |
| `TargetGrammar.NeverAmbiguous` | internal/target/compound.go:8-21 | No list of tokens has two readings, at any depth |
| `TargetGrammar.WellFormedRefusedOnlyForDepth` | internal/target/compound.go:76-86 | A well-formed expression is read or refused as too deep, by its count of enclosing parentheses and negations |
| `TargetParser.Parser.Compile` | internal/target/compound.go:124-142 | The parser with its cursor and depth count gives the tree's expression, or the same refusal |
| `TargetParser.Parser.ParseOr` | internal/target/compound.go:195-217 | The chain read by the loop, the cursor after it and the depth restored |
| `TargetParser.Parser.ParsePrimary` | internal/target/compound.go:262-300 | A group, a term, or the refusal for what stands there instead |
| `TargetParser.CompileTarget` | internal/target/target.go:239-276 | For every kind: the one expression the target says, or none |
| `TargetParser.MatchesSignedTarget` | cmd/halite-node/jobsignature.go:290-329 | From flag and text: accepted exactly when the kind is known, the target says something a node can evaluate, and that is accepted of this node |
| `TargetMeaning.MeansWhatItSays` | internal/target/compound.go:104-122 | What the parser builds is true exactly where the written `or`, `and`, `not` and parentheses are |
| `TargetMeaning.AcceptedIffTrue` | cmd/halite-node/jobsignature.go:290-329 | A node whose pillar compiles accepts a text with a reading if and only if its words are true of the node |
| `TargetMeaning.KeywordsFoldCase` | internal/target/compound.go:195-260 | The keywords are `or`, `and` and `not` in any case, and nothing else |
| `TargetMeaning.AHundredLevels` | internal/target/compound.go:76-86 | A well-formed expression is read up to a hundred levels and refused as too deep beyond |
| `TargetMeaning.TypedTerm` | internal/target/compound.go:303-355 | A sigil makes what follows it a term of its kind, nothing if nothing follows, and a nodegroup never compiles on a node |
| `SecretCache.Cache.Get` | cmd/halite-ext-aws-secrets/cache.go:119-133 | A value younger than the ttl, now the most recent; an older one is gone |
| `SecretCache.Cache.Put` | cmd/halite-ext-aws-secrets/cache.go:137-153 | The new value in front, trimmed to the bounds; map, list and byte count agree |
| `SecretCache.Cache.Remove` | cmd/halite-ext-aws-secrets/cache.go:155-159 | One entry goes from map, list and byte count together |
| `SecretCache.Cache.Fetch` | cmd/halite-ext-aws-secrets/cache.go:84-114 | Alone at the cache, with a ttl: the cached value, or the fetched one stored at a second reading of the clock; without: the fetched one and the cache untouched |
| `SecretCache.LookupIs` | cmd/halite-ext-aws-secrets/cache.go:119-133 | By what is held: a value younger than the ttl is answered and goes to the front, one as old goes, and nothing else moves |
| `SecretCache.StoredIsServed` | cmd/halite-ext-aws-secrets/cache.go:119-153 | What was just stored is answered until it is as old as the ttl, unless it is larger than the cache, and then nothing is |
| `SecretCache.TrimmedIsLongestPrefix` | cmd/halite-ext-aws-secrets/cache.go:150-152 | Eviction leaves exactly the longest prefix of the recency order that meets both bounds |
| `SecretCache.HitIsTheLatestPut` | cmd/halite-ext-aws-secrets/cache.go:119-153 | After any sequence of gets and puts a hit is the latest put for its key, younger than the ttl asked for |
| `SecretCache.HeldIsMostRecent` | cmd/halite-ext-aws-secrets/cache.go:119-153 | After any sequence what is held is a prefix of all values ordered by when each was last put or hit |
| `SecretIdentity.EncodeInjective` | cmd/halite-ext-aws-secrets/secretsmanager.go:70-87 | The bytes hashed determine the tuple of parts, of any length and content |
| `SecretIdentity.IdentityDecides` | cmd/halite-ext-aws-secrets/secretsmanager.go:70-87 | Two clients have one identity if and only if they are the same in every part |
| `SecretIdentity.CacheKeyDecides` | cmd/halite-ext-aws-secrets/cache.go:87 | Two requests share a cache key if and only if client and joined text are the same, for any text at all |
| `SecretIdentity.OwnKeyIff` | cmd/halite-ext-aws-secrets/cache.go:87 | A request shares its key with no other if and only if there is no bar in its region, secret or stage |
| `SecretIdentity.ServedWasStoredFor` | cmd/halite-ext-aws-secrets/cache.go:84-153 | After any interleaving of fetches a hit is the value of the last store for a request alike, younger than the ttl asked for; without bars, for the same client, region, secret and stage |
| `SecretIdentity.ServedIffAlike` | cmd/halite-ext-aws-secrets/cache.go:84-153 | What is stored for one request alone is served to another in some run if and only if they are alike |
| `Texts.DottedPrefixIsPathPrefix` | cmd/halite-ext-aws-secrets/main.go:218-222 | The test on a key followed by a dot is the test that its path is properly inside the other |
| `PillarNest.Nest` | cmd/halite-ext-aws-secrets/config.go:401-417 | On the heap: only fresh maps are written, so no fetched value is, and each key's path leads to its value |
| `PillarNest.EachKeyReadsBack` | cmd/halite-ext-aws-secrets/config.go:401-417 | Walking a key's dotted path yields exactly that key's value |
| `PillarNest.OrderDoesNotMatter` | cmd/halite-ext-aws-secrets/config.go:401-417 | Two nestings of the same keys, in any orders, read the same at every path |
| `PillarNest.Gather` | cmd/halite-ext-aws-secrets/main.go:200-231 | The first secret whose region is refused or missing, that repeats a key, overlaps one or cannot be fetched is the one refused, for that reason; otherwise all are kept |
| `PillarNest.Handle` | cmd/halite-ext-aws-secrets/main.go:181-239 | Nothing for no secrets; a pillar exactly when all have a region, keys distinct and apart, and are fetched, and then every secret at its own path |
| `Frames.HeaderInverts` | ext/frame.go:155-198 | The four header bytes give back every length they can hold |
| `Frames.HeaderBytes` | ext/frame.go:155-172 | The header is the length in four bytes, the most significant first |
| `Frames.WrittenIff` | ext/frame.go:155-172 | A frame is written if and only if it encodes to at most 16 MiB, and then as its length and its body |
| `Frames.ReadSays` | ext/frame.go:175-198 | What a read says and leaves, by the bytes there are, on every input |
| `Frames.Writer.WriteFrame` | ext/frame.go:155-172 | A frame's bytes whole or nothing, refused if it does not encode or is past 16 MiB |
| `Frames.Reader.ReadFrame` | ext/frame.go:175-198 | One frame or the reason there is none, a frame without a kind among them, and what is left of the stream |
| `Frames.StreamReadsBack` | ext/frame.go:155-198 | Any written frames in a row are read back exactly, and then whatever the bytes after them give |
| `Frames.CutStreamReadsAPrefix` | ext/frame.go:175-198 | A stream cut anywhere gives a prefix of the frames written, never another frame |
| `Frames.EndOfInputIff` | ext/frame.go:175-198 | A clean end is reported exactly at the end, and after a header whose body never came |
| `Session.Answer` | ext/extension.go:117-164 | The call's streaming frames and then its result, panic or not, are what is written |
| `Session.Serve` | ext/extension.go:64-110 | The whole output and outcome of a session, on any input |
| `Session.AnyInputIsAnswered` | ext/extension.go:64-164 | For any input bytes and every handler the host reads nothing if the hello is not accepted or its answer does not fit, and otherwise hello_ok and, for each call up to the first frame that is none or cannot be read, exactly those of its frames and its one result that fit |
| `Session.SessionAnswersEachCall` | ext/extension.go:64-164 | For a session of calls that is closed or shut down, that is every call, in order, and serve ends without an error |
| `Session.OneResultPerCall` | ext/extension.go:117-164 | A call's block is frames under its id with exactly one result, last |
| `Session.LateFramesChangeNoResult` | ext/extension.go:65-70 | Frames written by what a handler left running fall anywhere and change no result and no order of results |
| `Session.ResultReachesHostIff` | ext/extension.go:112-164 | Whatever else a handler emits, the host reads a result for the call if and only if the call's own result fits a frame, and then that one, last |
| `Session.ResultSaysWhatHappened` | ext/extension.go:117-164 | A result the host reads is ok if and only if the handler returned a value that encodes, with that value and no error; otherwise no value, and the handler's own words, or the function that panicked |
| `Session.BlockCarriesEmissions` | ext/extension.go:133-147 | Before its result a call's block carries, in order, exactly what the handler emitted, but for events that would not encode |
| `Session.SessionEndsWellIff` | ext/extension.go:72-109 | serve ends without an error if and only if the hello was good and answered and, after the calls, the host shut it down or stopped |
| `Session.OversizeResultIsLost` | ext/extension.go:121-127 | With any codec and any handler, of a result past the limit the host reads no result |
| `Session.OversizeResultExists` | ext/extension.go:121-127 | There is such a call |

## Left out

- The slots that bound concurrent password checks (`acquire`, `release`), the rate-limit buckets of webhooks, the parsing in `jobTestFlag`, the reconnect pacing and which region `regionFor` picks: each would add only easy members.
- HTTP, TLS, LDAP, OIDC, base64, JSON and the hash functions themselves; what they answer is a parameter.
- Constant-time comparison: a timing property, not an input and output one.
- LoginTables.LoginLimit.Failed: times are unbounded integers, so a Go duration's saturation does not appear; the float level of a budget is an exact count of nanoseconds.
- SecretCache.Cache.Fetch: one caller at a time; `SecretIdentity.ServedWasStoredFor` has them interleaved. The partition an ARN names changes the request sent and not the key.
- SecretCache.Cache.Get: the pointers of the linked list are a sequence, and the map holds entries rather than list elements.
- HookReplay.Hooks.Reserve: the closure it returns to give the reservation back is the method `Release`.
- JobReplay.Executor.AdmitSigned: making the directory and opening the file are part of a write that leaves nothing.
- JobReplay.Executor.OfferJob: evidence records are taken as written; a failed write is `recordEvidence`'s own affair.
- JobReplay.Executor.Check: whether an identifier is a valid calendar time is a flag of the job.
- Anchor: the wording and repetition of log lines about a hub that does not answer (`anchorProblem`, `anchorRecovered`).
- Evidence.Verify: file names, sealing, the list of unknown schemas by name and the check of signatures on anchors.
- JobPayload.CanonicalDetermines: numbers are their decimal text, and a value JSON cannot have produced is its Go type, which is all the encoder writes of it.
- TargetGrammar.ParsesIffGrammatical: columns in messages, and the budget on pattern bytes that terms share; whether a word compiles is a function of the word.
- TargetParser.MatchesSignedTarget: what each pattern matches, which is a parameter.
- Totp.MatchTotp: base32 and the HMAC are parameters; `MatchAccount` ties its codes to `TotpCode`.
- Session.Serve: writes that fail for reasons other than a frame's size.
