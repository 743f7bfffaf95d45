# A verified model of the platform's stateful protocols

The platform runs containers behind an autoscaling group, keeps its backups off site, and
signs people in with passwords, second factors and refresh tokens. This project models the
parts of it whose correctness depends on an order of events, on concurrency or on arithmetic,
and proves what they promise. `dafny verify dfyconfig.toml` checks everything.

| file | what it models |
|---|---|
| `Options.dfy`, `Sets.dfy`, `Powers.dfy`, `Texts.dfy` | an optional value, facts about finite sets and maps, powers of two, trimming |
| `TokenStore.dfy` | the refresh-token table and the guarded statements that run on it |
| `RefreshSteps.dfy` | rotation with every store call one atomic step: any number of calls in flight, each store call failing before or after its effect |
| `Refresh.dfy` | the same protocol with whole calls atomic: the grace window, the end of a session, a sole client |
| `RefreshClient.dfy` | the client that keeps one refresh token and caches its access token |
| `MirrorKeys.dfy` | the names of copies, manifest entries and marker files at the off-site destination |
| `MirrorStorage.dfy` | local storage changing between any two calls, and a destination whose calls fail or at which the process dies |
| `MirrorPass.dfy` | what one pass of the mirror does, as a function, and what it converges to |
| `Offsite.dfy` | the mirror itself, under every failure, and over runs of many passes |
| `Scaler.dfy` | the autoscaler's decision and the evaluator with its counters and cool-down |
| `Draining.dfy` | the drain set and the choice of a container to remove |
| `RoundRobin.dfy` | the balancer's rotation |
| `Group.dfy` | the group's reconcile tick and whole automatic runs, with drains moving between any two operations |
| `Totp.dfy` | one-time codes (section 5.3 of RFC 4226, section 5.2 of RFC 6238) |
| `MfaStore.dfy` | the second-factor tables |
| `MfaSteps.dfy` | second-factor checks and enrolments under every interleaving of their store calls |
| `LoginLimit.dfy` | the back-off on failed logins |
| `SecondFactor.dfy` | the second step of a login |
| `DemuxLogs.dfy` | taking Docker's frame headers out of a log |
| `Args.dfy` | splitting and joining command lines |
| `KeyCache.dfy` | the cache of API-key answers, with concurrent look-ups |
| `Membership.dfy` | who should be in which Grafana organisation, and the calls that bring it about |

Code that changes state is a class or a method with loops, proved against a function or a
relation of its old state; the properties over runs are lemmas about those functions. Random
ids and secrets are parameters that differ from all earlier ones, hashes are identities,
clocks, failures and whatever other parties do are parameters.

## What turned out not to hold, and exactly when it does

- A session that is revoked can come back to life: a Rotate call that has already won its race
  or passed its grace test still inserts its token. `RefreshSteps.RevokedSessionStaysDeadIff`
  proves that a revoked session stays dead under every continuation if and only if no such call
  was in flight.
- Of two parallel presentations of one token, one can be answered as a reuse although it is within
  the grace, when it asks between the other's rotation and its insert
  (`RefreshSteps.ParallelPresentationIsReuse`); `RefreshSteps.GraceIsGrantedIff` is the exact
  condition. A second one that only loses the race, and reads again after the insert, is renewed
  (`RefreshSteps.BothAreRenewed`).
- The replica floor can be broken by drains that overlap, because the decision counts draining
  containers as replicas. `Group.ScalingGroup.DecideAndAct` gives the exact condition of one tick
  and `Group.FourBecomeTwo` a group of which two ticks break it. `Group.CooldownKeepsFloor` proves the
  floor over whole runs when the cool-down is at least as long as a drain plus the time a tick
  takes to decide.
- Enrolment confirmation writes its step over the one on record. `MfaSteps.CodeServesTwice` is a
  run in which a login code is accepted twice; by `MfaSteps.LateConfirmationIff` codes serve once
  after a repeated confirmation if and only if it is made with a later step than the one on record.
- `demuxLogs` is documented to return text that is not framed as it came. It loses such text
  when it is shorter than eight bytes (`DemuxLogs.ReturnedAsIsIff`), and a bad header further on
  costs the payloads before it (`DemuxLogs.PayloadsSurviveIff`).
- `splitArgs(joinArgs(xs))` gives `xs` back if and only if no argument that has to be quoted
  contains a character that JSON escapes (`Args.RoundTripIff`).
- An API-key answer that a look-up has returned may be followed by an older one
  (`KeyCache.AnswersGoBack`), though never by one 30 seconds old. `KeyCache.GoesBackIff` says in
  which states that can happen, and by `KeyCache.OneAtATimeNeverGoesBack` it takes two look-ups of
  one key asking the service at once.

## Model

| member | source | states |
|---|---|---|
| TokenStore.RunIsLater | services/auth/internal/store/store.go:375-422 | no statement loses a token, moves it to another session or touches one that is already revoked |
| TokenStore.RunKeepsWellFormed | services/auth/internal/store/store.go:336-422 | a rotated token was revoked by that rotation, and a family has one user, through every statement |
| TokenStore.LiveAfterRun | services/auth/internal/store/store.go:336-456 | exactly which live tokens of a family each statement adds or ends |
| TokenStore.DB.Create | services/auth/internal/store/store.go:336-346 | the new token is stored live, and a second row for one hash is refused |
| TokenStore.DB.FindByHash | services/auth/internal/store/store.go:349-371 | the row of the hash, or none |
| TokenStore.DB.MarkRotated | services/auth/internal/store/store.go:375-385 | exactly one caller wins: the one that finds the token live |
| TokenStore.DB.IsFamilyActive | services/auth/internal/store/store.go:388-398 | whether the family has an unexpired live token |
| TokenStore.DB.Revoke | services/auth/internal/store/store.go:401-410 | a live token ends, and nothing else changes |
| TokenStore.DB.RevokeFamily | services/auth/internal/store/store.go:413-422 | the family is left without a live token, others untouched |
| TokenStore.DB.RevokeUserSessions | services/auth/internal/store/store.go:444-456 | the user is left without a live token |
| RefreshSteps.StepKeepsCredits | services/auth/internal/refresh/refresh.go:101-164 | no atomic step, however it fails, moves live tokens plus pending inserts of a family past one more than its graces |
| RefreshSteps.RunKeepsInv | services/auth/internal/refresh/refresh.go:129-196 | every interleaving keeps what each call in flight relies on, and only lets the table grow |
| RefreshSteps.Conservation | services/auth/internal/refresh/refresh.go:101-164 | over every run: live tokens plus pending inserts at most 1 + graces, so at most one live token without grace; each token is rotated at most once; a family has one user |
| RefreshSteps.EndedStaysEnded | services/auth/internal/refresh/refresh.go:129-196 | a family without live tokens and pending inserts never gets a live token again |
| RefreshSteps.PendingInsertRevives | services/auth/internal/refresh/refresh.go:153-163 | a call past its decision inserts a live token whatever was revoked meanwhile |
| RefreshSteps.RevokedSessionStaysDeadIff | services/auth/internal/refresh/refresh.go:129-196 | after a step that revokes a family no continuation makes it live again, if and only if no call was between decision and insert |
| RefreshSteps.GraceIsGrantedIff | services/auth/internal/refresh/refresh.go:169-178 | in a session with one token and no earlier grace, a presentation in the grace is granted if and only if no other call is between its decision and its insert; otherwise it goes on to end the session |
| RefreshSteps.ParallelPresentationIsReuse | services/auth/internal/refresh/refresh.go:129-164 | a run in which one of two parallel presentations is renewed and the other answered as a reuse |
| RefreshSteps.BothAreRenewed | services/auth/internal/refresh/refresh.go:142-163 | a run in which the second of two parallel presentations loses the race after the winner has inserted, reads again and is renewed as well |
| RefreshSteps.FailedQuestionEndsSession | services/auth/internal/refresh/refresh.go:176-177 | a failure of the question whether the session lives ends the session as a reuse |
| RefreshSteps.FailureIsAnError | services/auth/internal/refresh/refresh.go:129-196 | any other store failure is an error, whose statement took effect or not |
| Refresh.Manager.Issue | services/auth/internal/refresh/refresh.go:93-99 | a new session has one live token that expires after ttl |
| Refresh.Manager.IssueInFamily | services/auth/internal/refresh/refresh.go:101-122 | the session gets one more live token, or nothing changes when the store refuses |
| Refresh.Manager.CheckGrace | services/auth/internal/refresh/refresh.go:169-178 | true exactly for a rotation at most 30 s old, from the same non-empty address, in a living session |
| Refresh.Manager.Race | services/auth/internal/refresh/refresh.go:142-151 | the winner keeps what it read, a loser judges what it reads again |
| Refresh.Manager.Rotate | services/auth/internal/refresh/refresh.go:129-164 | the answer and the table of every presentation, in all cases |
| Refresh.Manager.Revoke | services/auth/internal/refresh/refresh.go:184-196 | logout ends the whole family of a known token and changes nothing for an unknown one |
| Refresh.AloneRunAgrees | services/auth/internal/refresh/refresh.go:129-164 | a call whose steps nobody interleaves with does in the step machine what the atomic call does |
| Refresh.LoserIsJudged | services/auth/internal/refresh/refresh.go:146-158 | a call that lost its race, however the table has moved, ends with the answer and the table of a presentation made then |
| Refresh.ReaderIsAnsweredAnew | services/auth/internal/refresh/refresh.go:137-163 | so does a call that has read the row, unless it found it live but expired |
| Refresh.AloneLogoutAgrees | services/auth/internal/refresh/refresh.go:184-196 | a logout that nobody interleaves with ends exactly the family of a known token |
| Refresh.GoodUntilExpiry | services/auth/internal/refresh/refresh.go:111-141 | a token is good until the moment it was dated to expire at and never after |
| Refresh.EndedTokenIsReuse | services/auth/internal/refresh/refresh.go:166-172 | a token ended other than by a rotation is a reuse from anywhere |
| Refresh.RotatedTokenAnswer | services/auth/internal/refresh/refresh.go:153-178 | a rotated token is renewed exactly up to 30 s after its rotation, from the same non-empty address, while its family has an unexpired live token; any other presentation is reuse and leaves no live token in the family |
| Refresh.DoKeepsWellFormed | services/auth/internal/refresh/refresh.go:101-196 | every whole call keeps that a rotated token was revoked by that rotation and that a family has one user |
| Refresh.SessionOverForGood | services/auth/internal/refresh/refresh.go:129-196 | after logout or reuse, every presentation of any token of the session at any later time is reuse |
| Refresh.GraceWindow | services/auth/internal/refresh/refresh.go:59-63 | in any run in which a session is touched only by presentable tokens from one address within the window, every presentation is renewed |
| Refresh.RotationOpensWindow | services/auth/internal/refresh/refresh.go:142-163 | the rotation of a good token makes the old and the new token presentable for the window |
| Refresh.StaysPresentable | services/auth/internal/refresh/refresh.go:169-178 | tokens stay presentable through the window, and so does each one handed out in it |
| Refresh.ParallelPresentations | services/auth/internal/refresh/refresh.go:59-63 | one token presented any number of times in its grace from one address is renewed every time, with calls about other sessions in between |
| Refresh.DescendantsAreRenewed | services/auth/internal/refresh/refresh.go:59-63 | from the rotation of a good token on, it, its successor and every token handed out for these are renewed however often they are presented from that address within the grace, with calls about other sessions in between |
| Refresh.SoleClientNeverReuses | services/autoscaler/internal/launcherclient/launcherclient.go:142-177 | a client that stores each token and loses no answer never triggers reuse |
| Refresh.RetryAfterLostAnswer | services/auth/internal/refresh/refresh.go:166-178 | a retry with the rotated token succeeds exactly within the grace and from the same non-empty address |
| RefreshClient.Client.AccessTokenFor | services/autoscaler/internal/launcherclient/launcherclient.go:142-177 | the cached token outside the margin, else one renewal; state changes only on success; no reuse while no answer is lost |
| MirrorKeys.ListedKeyInvertsKey | services/launcher/internal/offsite/offsite.go:57 | listing the destination gives back the local key of every copy |
| MirrorKeys.KeyInjective | services/launcher/internal/offsite/offsite.go:57 | different objects have different names at the destination |
| MirrorKeys.ManifestNameInjective | services/launcher/internal/offsite/offsite.go:123-128 | different objects have different manifest entries |
| MirrorKeys.MarkersAreNotCopies | services/launcher/internal/offsite/offsite.go:213-227 | the manifest and the stamp never read back as objects |
| MirrorKeys.SlotOfInvertsNameOf | services/launcher/internal/offsite/offsite.go:57 | a destination name determines what is stored under it |
| MirrorKeys.ListedIsSlot | services/launcher/internal/offsite/offsite.go:213-227 | the keys a listing yields are exactly those of the bucket's copies |
| MirrorStorage.ViewAfterPut | services/launcher/internal/offsite/offsite.go:148-151 | writing one of the mirror's own names changes exactly that object |
| MirrorStorage.ViewAfterDelete | services/launcher/internal/offsite/offsite.go:199-205 | deleting one of them removes exactly that object |
| MirrorPass.BucketGetsMirrored | services/launcher/internal/offsite/offsite.go:159-184 | after a bucket's pass every local object is at the destination with its content and version |
| MirrorPass.BucketKeysAfter | services/launcher/internal/offsite/offsite.go:159-209 | the destination's keys are then the local ones, plus what the guard held |
| MirrorPass.BucketsConverge | services/launcher/internal/offsite/offsite.go:106-111 | the same across the loop over the buckets |
| MirrorPass.PassConverges | services/launcher/internal/offsite/offsite.go:100-121 | and for a whole pass with the manifest and the stamp written; nothing is missing afterwards |
| MirrorPass.SecondPassIsIdle | services/launcher/internal/offsite/offsite.go:100-121 | a second pass copies nothing, and deletes and holds nothing where the first held nothing |
| MirrorPass.PassDeletesIff | services/launcher/internal/offsite/offsite.go:186-207 | what is gone locally leaves the destination in a quiet pass if and only if local storage is not empty and that is at most five objects or at most half of the copy; otherwise every copy stays |
| MirrorPass.HeldIff | services/launcher/internal/offsite/offsite.go:192-194 | the guard in so many words |
| MirrorPass.DeletedMayBeLost | services/launcher/internal/offsite/offsite.go:44-46 | whatever part of the allowed deletions happens, it is at most 5 objects or half of the copy |
| MirrorPass.OnePassKeepsHalf | services/launcher/internal/offsite/offsite.go:192-207 | a bucket of ten copies or more keeps at least half of them in one pass |
| Offsite.UpToDateMeansCopied | services/launcher/internal/offsite/offsite.go:154-157 | an object that stale calls up to date, at any later time, has at the destination the content of exactly that version |
| Offsite.PutKeepsSound | services/launcher/internal/offsite/offsite.go:231-264 | replacing a copy by newer content keeps every manifest sound, even if the process dies before recording it |
| Offsite.CopyKeepsSafe | services/launcher/internal/offsite/offsite.go:176-181 | one copy, stored or not and recorded or not, keeps both manifests sound |
| Offsite.RecordKeepsSafe | services/launcher/internal/offsite/offsite.go:176-181 | recording the version listed before the copy was read keeps it sound |
| Offsite.QuietPassConverges | services/launcher/internal/offsite/offsite.go:100-121 | from any sound state a pass without failures over unchanging storage copies everything, agrees on keys where nothing was held, and leaves nothing missing |
| Offsite.Mirror.SendCopy | services/launcher/internal/offsite/offsite.go:231-264 | the copy holds the content read during the call, or nothing changed |
| Offsite.Mirror.DeleteCopy | services/launcher/internal/offsite/offsite.go:200 | one copy gone, or nothing changed |
| Offsite.Mirror.PutMarker | services/launcher/internal/offsite/offsite.go:148-151 | one marker written, or nothing changed |
| Offsite.Mirror.ReadManifest | services/launcher/internal/offsite/offsite.go:130-146 | the saved manifest, empty when there is none or it is unreadable |
| Offsite.Mirror.ListRemote | services/launcher/internal/offsite/offsite.go:213-227 | exactly the keys of the bucket's copies |
| Offsite.Mirror.CopyOne | services/launcher/internal/offsite/offsite.go:176-181 | the version is recorded exactly when the copy succeeded; what was sound stays sound in every case |
| Offsite.Mirror.CopyStale | services/launcher/internal/offsite/offsite.go:170-184 | without failures exactly the stale objects are copied and recorded, whatever local storage was before; sound manifests stay sound in every case |
| Offsite.Mirror.DeleteGone | services/launcher/internal/offsite/offsite.go:199-206 | only copies without a local object are deleted, all of them without failures |
| Offsite.Mirror.DeleteUnlessHeld | services/launcher/internal/offsite/offsite.go:186-207 | nothing is deleted when the guard holds, and never more than it allows |
| Offsite.Mirror.CopyThenDelete | services/launcher/internal/offsite/offsite.go:168-209 | copying and then deleting by the two listings: no other bucket touched, the guard, the exact result without failures |
| Offsite.Mirror.MirrorBucket | services/launcher/internal/offsite/offsite.go:159-209 | one bucket under every failure and any local storage: the guard, no other bucket touched, nothing lost while local storage lists empty, the exact result without failures; a sound manifest stays sound |
| Offsite.Mirror.PassBuckets | services/launcher/internal/offsite/offsite.go:106-111 | the loop over the buckets |
| Offsite.Mirror.Finish | services/launcher/internal/offsite/offsite.go:112-120 | the manifest is saved in any case, the stamp only after a pass without failures |
| Offsite.Mirror.Once | services/launcher/internal/offsite/offsite.go:100-121 | a pass dying or failing anywhere, from any manifest and with any local storage, stays within the guard; without failures it is exactly the pass that converges, copies what Status counts, and deletes in each bucket exactly when it should; a sound state stays sound |
| Offsite.Mirror.CountStale | services/launcher/internal/offsite/offsite.go:291-295 | the count of a bucket is the number of objects a pass would copy |
| Offsite.Mirror.CountBuckets | services/launcher/internal/offsite/offsite.go:281-296 | the loop over the buckets: each count is right for local storage as it was when that bucket was listed |
| Offsite.Mirror.Status | services/launcher/internal/offsite/offsite.go:275-305 | what is missing per bucket is what a pass from there copies, the size of each copy, and whether a pass was ever completed |
| Offsite.Mirror.Run | services/launcher/internal/offsite/offsite.go:78-96 | over p passes with any failures, any manifest and any local changes, restored versions included, a bucket of at least 10 * 2^p copies keeps at least 10; a sound state stays sound |
| Scaler.DecideStaysInRange | services/autoscaler/internal/scaler/policy.go:86-125 | with a valid policy no action leaves the replica range, immediate means below the minimum, and nothing happens between the thresholds |
| Scaler.ReadingsAsk | services/autoscaler/internal/scaler/policy.go:86-125 | what a valid policy asks for below the minimum, under load, without, and in between |
| Scaler.Evaluator.SetPolicy | services/autoscaler/internal/scaler/policy.go:164-168 | a new policy keeps counters and cool-down |
| Scaler.Evaluator.Evaluate | services/autoscaler/internal/scaler/policy.go:174-229 | counters, stamp and decision of one evaluation |
| Scaler.HistoryExplainsEvaluator | services/autoscaler/internal/scaler/policy.go:164-229 | the counters are the lengths of the current refused run, at most one is non-zero, the stamp is the last non-immediate action, with policy changes in between |
| Scaler.SustainedSignal | services/autoscaler/internal/scaler/policy.go:208-215 | a non-immediate action ends at least max(1, SustainedTicks) evaluations in a row that asked for it |
| Scaler.ActionsAreSpaced | services/autoscaler/internal/scaler/policy.go:217-228 | two non-immediate actions are at least the later one's cool-down apart |
| Scaler.ActsIff | services/autoscaler/internal/scaler/policy.go:194-228 | a request is granted exactly when it ends a row of max(1, SustainedTicks) like it, the others refused, and every non-immediate action before it is a cool-down back |
| Scaler.SustainedRequestIsGranted | services/autoscaler/internal/scaler/policy.go:208-228 | of any row of requests as long as the policy wants, one is granted, if what was done before the row is a cool-down back |
| Draining.WithoutIs | services/autoscaler/cmd/group/drain.go:61-74 | exactly the members that are not draining remain, none twice |
| Draining.WithoutAppends | services/autoscaler/cmd/group/drain.go:61-74 | the filter goes member by member, so those that remain keep their order |
| Draining.DrainSet.ExcludeDraining | services/autoscaler/cmd/group/drain.go:61-74 | the filter loop keeps the others in order |
| Draining.SelectScaleDownTarget | services/autoscaler/internal/executor/executor.go:135-156 | the first of the least loaded with a reading, the last member when none has one, an error when empty |
| Draining.TargetIsUnique | services/autoscaler/internal/executor/executor.go:140-155 | that description names one member |
| Group.ScaleDownFloorIff | services/autoscaler/cmd/group/main.go:287-316 | one container more on its way out leaves the minimum serving exactly when there was the minimum plus one beside those draining; what every scale-down of a tick is measured by |
| Group.ScalingGroup.DecideAndAct | services/autoscaler/cmd/group/main.go:214-240 | decision and action of a tick: what moved, and where no drain moved meanwhile, the minimum serves after a scale-down if and only if the group had the minimum plus one beside those draining |
| Group.ScalingGroup.DrainTwice | services/autoscaler/cmd/group/main.go:184-316 | two idle ticks off cool-down, the first drain still under way, leave one less than the minimum serving |
| Group.FourBecomeTwo | services/autoscaler/cmd/group/main.go:184-316 | a group of four, at least three wanted, that two ticks leave with two serving |
| Group.ScalingGroup.BringOnBusy | services/autoscaler/cmd/group/main.go:214-240 | a busy tick off cool-down with room for one more brings exactly the container that comes and drains nobody |
| Group.ScalingGroup.Hold | services/autoscaler/cmd/group/main.go:214-240 | a tick at the maximum under load, at the minimum without, or with readings in between moves nothing |
| Group.MaximumKept | services/autoscaler/cmd/group/main.go:164-177 | over a whole run the number running never grows past the maximum |
| Group.FloorKept | services/autoscaler/cmd/group/main.go:164-177 | over a whole run the minimum keeps serving when nothing that runs was draining whenever a drain began |
| Group.DrainsAreSpaced | services/autoscaler/internal/scaler/policy.go:217-228 | two drains of a run begin at least a cool-down apart |
| Group.CooldownKeepsFloor | services/autoscaler/cmd/group/main.go:287-316 | with a cool-down at least as long as a drain and the time a tick takes to decide, drains never overlap and the minimum keeps serving over whole runs |
| Group.TickMovesKeep | services/autoscaler/cmd/group/main.go:184-259 | what one tick can do to the number running and serving |
| Group.Aggregate | services/autoscaler/cmd/group/main.go:204-209 | the average of all readings, none if one fails, zero replicas when nothing runs |
| Group.CalmAverage | services/autoscaler/cmd/group/main.go:207-209 | the average of readings between two bounds lies between them |
| Group.OrderDoesNotMatter | services/autoscaler/cmd/group/main.go:207-209 | the metrics of a group do not depend on the order of its listing |
| Group.ScalingGroup.StartDrain | services/autoscaler/cmd/group/main.go:292-316 | the least loaded container outside the drain set joins it; none when all are draining |
| Group.ScalingGroup.Act | services/autoscaler/cmd/group/main.go:231-240 | one container brought or one drained, according to the decision |
| Group.ScalingGroup.Healthy | services/autoscaler/cmd/group/main.go:255 | exactly the members that pass their health check |
| Group.ScalingGroup.Refresh | services/autoscaler/cmd/group/main.go:243-258 | the backends are exactly the healthy listed containers outside the drain set, none when nothing is listed |
| Group.ScalingGroup.Reconcile | services/autoscaler/cmd/group/main.go:184-259 | the decision, the action and the balancer of one tick, with drains moving between its operations, and exactly what it moved when none did; no backend is draining; a failed listing changes nothing |
| Group.ScalingGroup.Turn | services/autoscaler/cmd/group/main.go:164-177 | a pause and a tick: what the tick found, did and left; a drain begins only off cool-down and is remembered |
| Group.ScalingGroup.Run | services/autoscaler/cmd/group/main.go:164-177 | a whole automatic run is the trace of its ticks, each finding what the one before left but for drains that moved; the maximum is never passed, and the minimum keeps serving when the trace has no drain begun while a running container was draining |
| Group.ScalingGroup.Bootstrap | services/autoscaler/internal/scaler/policy.go:87-100 | from r below the minimum each successful tick brings exactly one, so minimum - r ticks reach it |
| RoundRobin.Balancer.SetBackends | services/autoscaler/internal/loadbalancer/roundrobin.go:32-38 | the list is replaced, the position kept |
| RoundRobin.Balancer.Next | services/autoscaler/internal/loadbalancer/roundrobin.go:50-61 | the backend at the position modulo the list, and one step on; none for an empty list |
| RoundRobin.Balancer.Serve | services/autoscaler/internal/loadbalancer/roundrobin.go:50-61 | consecutive calls serve the positions that the fairness lemmas speak of |
| RoundRobin.OneRound | services/autoscaler/internal/loadbalancer/roundrobin.go:32-61 | any n consecutive calls pick each of n positions once, from any position left over |
| RoundRobin.RoundRobinIsFair | services/autoscaler/internal/loadbalancer/roundrobin.go:32-61 | any k * n consecutive calls pick each position exactly k times |
| Totp.BigEndianValue | services/auth/internal/mfa/totp.go:49-50 | the bytes of the message stand for the step |
| Totp.DecimalReadsBack | services/auth/internal/mfa/totp.go:56 | the padded digits read back as the number |
| Totp.CodeIsSixDigits | services/auth/internal/mfa/totp.go:48-57 | a code is six digits that print the truncated HMAC modulo a million, over the step in eight bytes |
| Totp.TruncatedIs | services/auth/internal/mfa/totp.go:54-55 | truncation reads the four bytes at the offset in the last nibble, big-endian, without their top bit |
| Totp.OnlyFourBytesMatter | services/auth/internal/mfa/totp.go:54-55 | nothing else in the sum matters |
| Totp.ExampleIsAccepted | services/auth/internal/mfa/totp.go:48-90 | the HMAC of the example in section 5.4 of RFC 4226 gives 872921, and verification accepts it |
| Totp.BlanksDoNotMatter | services/auth/internal/mfa/totp.go:76 | blanks before, after and between the digits of a code do not matter |
| Totp.SurroundingsDoNotMatter | services/auth/internal/mfa/totp.go:76 | nor does white space of any kind around them |
| Totp.FillMessage | services/auth/internal/mfa/totp.go:49-50 | the buffer holds the step, big-endian |
| Totp.Verify | services/auth/internal/mfa/totp.go:71-90 | the earliest unused step of the window at which the input is right, none exactly when there is none |
| Totp.VerifiedIsEarliest | services/auth/internal/mfa/totp.go:81-89 | what is found is a right unused step of the window and none is earlier; it is found if there is any |
| Totp.EveryStepHasItsMoment | services/auth/internal/mfa/totp.go:71-90 | every unused step has a code and a moment at which it is the one matched |
| MfaStore.UnusedAfter | services/auth/internal/store/mfa.go:79-88 | using a recovery code takes exactly it from the unused ones |
| MfaStore.ReplacedCodes | services/auth/internal/store/mfa.go:103-114 | after a replacement exactly the new codes work |
| MfaStore.StartedIs | services/auth/internal/store/mfa.go:36-45 | a new secret, unconfirmed and with every step ahead, replaces one that was not confirmed; a confirmed one and all codes stay |
| MfaStore.ConfirmedIs | services/auth/internal/store/mfa.go:49-63 | after a confirmation exactly the later steps and the new codes are good, and the secret stays |
| MfaStore.UsedStepIs | services/auth/internal/store/mfa.go:67-75 | after a step is used exactly the later ones are good |
| MfaStore.DisabledIsGone | services/auth/internal/store/mfa.go:126-139 | after the withdrawal no step and no code of the account is good; others keep theirs |
| MfaStore.ReplaceRecovery | services/auth/internal/store/mfa.go:103-114 | the account's codes become the new ones; a repeated code makes it fail |
| MfaStore.DB.StartTOTP | services/auth/internal/store/mfa.go:36-45 | a new secret to confirm, and a confirmed one untouched |
| MfaStore.DB.ConfirmTOTP | services/auth/internal/store/mfa.go:49-63 | enrolled with the step and the codes, or nothing changed |
| MfaStore.DB.UseTOTPStep | services/auth/internal/store/mfa.go:67-75 | succeeds exactly for a step later than the last, which it becomes |
| MfaStore.DB.UseRecoveryCode | services/auth/internal/store/mfa.go:79-88 | succeeds exactly for an unused code, which is then used |
| MfaStore.DB.ReplaceRecoveryCodes | services/auth/internal/store/mfa.go:91-101 | all or nothing |
| MfaStore.DB.RemainingRecoveryCodes | services/auth/internal/store/mfa.go:118-123 | the number of unused codes |
| MfaStore.DB.DisableTOTP | services/auth/internal/store/mfa.go:126-139 | enrolment and codes of the account gone, others untouched |
| MfaSteps.StepsIncrease | services/auth/internal/httpapi/mfa.go:175-191 | from an enrolment with no other setup past its reading, the steps spent strictly increase and are later than where it stood, under every interleaving and whatever setups are begun |
| MfaSteps.StepsIncreaseWhileConfirmationsRise | services/auth/internal/httpapi/mfa.go:231-261 | the same with setups under way, as long as each confirmation has a later step than the one on record |
| MfaSteps.FewStepsPerTime | services/auth/internal/httpapi/mfa.go:175-191 | calls that verify between t0 and t1 spend at most step(t1) - step(t0) + 3 codes |
| MfaSteps.RecoveryCodesServeOnce | services/auth/internal/httpapi/mfa.go:187-189 | each recovery code is spent at most once and lowers the remaining count by one |
| MfaSteps.AloneCheckAgrees | services/auth/internal/httpapi/mfa.go:175-191 | a check that nobody interleaves with spends the matching step, or else the recovery code, and answers accordingly |
| MfaSteps.FailureIsARefusal | services/auth/internal/httpapi/mfa.go:175-191 | whatever a call was about to do, a failure ends it with a refusal, with its effect or without |
| MfaSteps.CodeServesTwice | services/auth/internal/httpapi/mfa.go:231-261 | a run of two setups and two logins in which the same steps are spent twice |
| MfaSteps.LateConfirmationIff | services/auth/internal/store/mfa.go:49-63 | when a setup confirms an account that is already enrolled, no step is ever spent twice in anything that may follow if and only if its step is later than the one on record |
| MfaSteps.RealVerifierFits | services/auth/internal/mfa/totp.go:71-90 | what the step machine assumes of verification is true of the real one |
| LoginLimit.ShiftNeverOverflows | services/auth/internal/httpapi/loginlimit.go:76-78 | the shifted wait is positive and far below the 64-bit limit |
| LoginLimit.BackoffDoubles | services/auth/internal/httpapi/loginlimit.go:74-79 | the waits start at one minute and double up to fifteen |
| LoginLimit.FailedIs | services/auth/internal/httpapi/loginlimit.go:61-81 | each key that fails gets one more failure on its record as it is after pruning |
| LoginLimit.WaitAfterFailure | services/auth/internal/httpapi/loginlimit.go:66-79 | from the allowed failure on a key waits from then by one more doubling for each; an earlier one leaves what wait there was |
| LoginLimit.CountsOnUnlessForgotten | services/auth/internal/httpapi/loginlimit.go:61-100 | a key counts on from its earlier failures unless a thousand are kept and it has rested for an hour |
| LoginLimit.OthersStayUnlessForgotten | services/auth/internal/httpapi/loginlimit.go:61-100 | the other keys stay unless they are forgotten so |
| LoginLimit.Limiter.Wait | services/auth/internal/httpapi/loginlimit.go:46-57 | the longest remaining wait among the keys |
| LoginLimit.Limiter.FailOne | services/auth/internal/httpapi/loginlimit.go:67-79 | count, time and wait of one failed key |
| LoginLimit.Limiter.Fail | services/auth/internal/httpapi/loginlimit.go:61-81 | every key counted once after pruning, others untouched |
| LoginLimit.Limiter.Reset | services/auth/internal/httpapi/loginlimit.go:83-89 | exactly these keys forgotten |
| LoginLimit.Limiter.Prune | services/auth/internal/httpapi/loginlimit.go:91-100 | from a thousand keys on, those an hour old and not waiting are forgotten |
| LoginLimit.GuessingIsSlow | services/auth/internal/httpapi/loginlimit.go:46-100 | n failures of an account made only when it may try, without reset, take at least 8 (n - 8) minutes, however often it is forgotten |
| LoginLimit.GuessingUnforgottenIsSlower | services/auth/internal/httpapi/loginlimit.go:61-81 | at least 15 (n - 8) minutes while it is not forgotten |
| SecondFactor.Challenges.Issue | services/auth/internal/httpapi/mfa.go:79-97 | a challenge that lasts 5 or 15 minutes; expired ones dropped, others kept |
| SecondFactor.Challenges.Get | services/auth/internal/httpapi/mfa.go:99-107 | exactly the unexpired challenge of that purpose |
| SecondFactor.ChallengeLives | services/auth/internal/httpapi/mfa.go:79-113 | a challenge is good for its purpose for 5 minutes, 15 for a set-up, from its issue on, whatever others come and go; never for the other purpose nor once used |
| SecondFactor.AccountKeysDiffer | services/auth/internal/httpapi/loginlimit.go:116 | one address's failures are never counted against another's, trimming and case folding aside |
| SecondFactor.Challenges.Consume | services/auth/internal/httpapi/mfa.go:109-113 | that challenge gone, others kept |
| SecondFactor.Handler.CheckSecondFactor | services/auth/internal/httpapi/mfa.go:175-191 | fails exactly when the store or the secret does, and otherwise is right exactly when there is an unused matching step or else an unused recovery code, which is spent; a wrong code spends nothing |
| SecondFactor.Handler.Login | services/auth/internal/httpapi/mfa.go:143-171 | granted exactly when the challenge is good, the account does not wait and the check is right; what each answer changes, errors of the store included |
| SecondFactor.Handler.LoginLater | services/auth/internal/httpapi/mfa.go:143-171 | a login with a challenge issued before is expired exactly when it is for a set-up or more than 5 minutes old |
| DemuxLogs.Demux | services/launcher/internal/dockerclient/containers.go:394-409 | the loop computes the function that the lemmas below are about, on every input |
| DemuxLogs.HeaderAnnounces | services/launcher/internal/dockerclient/containers.go:398-402 | a header announces the length it was made for |
| DemuxLogs.DemuxUndoesFraming | services/launcher/internal/dockerclient/containers.go:394-409 | the encoding of any frames gives their payloads back |
| DemuxLogs.TruncatedGivesPrefix | services/launcher/internal/dockerclient/containers.go:403-405 | a truncated encoding gives exactly the payload bytes that arrived |
| DemuxLogs.ReturnedAsIsIff | services/launcher/internal/dockerclient/containers.go:391-400 | text comes back as it is exactly when it is empty or has eight bytes that are no header; shorter text is lost |
| DemuxLogs.EveryTextIsFramesAndRest | services/launcher/internal/dockerclient/containers.go:397-407 | every text is whole frames and a rest without one, and which rests are bad headers |
| DemuxLogs.PayloadsSurviveIff | services/launcher/internal/dockerclient/containers.go:399-407 | the payloads of whole frames come out in front of what follows if and only if there are none to lose or no header further on is wrong |
| DemuxLogs.LateBadHeaderDropsFrames | services/launcher/internal/dockerclient/containers.go:399-401 | after a bad header right behind whole frames only what follows them is returned |
| Args.Split | services/portal/lib/platformClient.ts:302-325 | the character loop computes the function that the round trip is about |
| Args.ScanShown | services/portal/lib/platformClient.ts:308-324 | a shown argument is read back whole |
| Args.JoinIsTrimmed | services/portal/lib/platformClient.ts:307-329 | trimming takes nothing off a joined line |
| Args.SplitKeepsBackslashes | services/portal/lib/platformClient.ts:302-325 | splitting keeps the number of backslashes |
| Args.JoinAddsBackslashes | services/portal/lib/platformClient.ts:327-329 | joining adds one wherever JSON escapes |
| Args.RoundTripIff | services/portal/lib/platformClient.ts:302-329 | splitting undoes joining if and only if no quoted argument has a character JSON escapes |
| Args.RoundTripInWords | services/portal/lib/platformClient.ts:302-329 | the same condition in terms of characters |
| Args.ShownAsItIsIff | services/portal/lib/platformClient.ts:327-329 | an argument is shown as it is exactly when it is not empty and has no white space and no quote |
| Args.JsonReadsBack | services/portal/lib/platformClient.ts:328 | read as JSON, what an argument is quoted to is the argument |
| Args.SplitGivesArguments | services/portal/lib/platformClient.ts:302-325 | a line of arguments typed in bare and quoted pieces, with either quote, and any white space around them gives the arguments meant |
| KeyCache.Client.Find | services/launcher/internal/apikeyclient/apikeyclient.go:69-74 | an unexpired entry, or nothing |
| KeyCache.Client.Install | services/launcher/internal/apikeyclient/apikeyclient.go:95-103 | expired entries gone, the answer stored until 30 s after the clock was read |
| KeyCache.Client.Introspect | services/launcher/internal/apikeyclient/apikeyclient.go:64-105 | a hit, or the service's answer, stored when there is one |
| KeyCache.InstalledIs | services/launcher/internal/apikeyclient/apikeyclient.go:95-103 | a stored answer is found for exactly 30 s from when the call began; what is found of other keys stays; expired entries are gone |
| KeyCache.AloneRunAgrees | services/launcher/internal/apikeyclient/apikeyclient.go:64-105 | a call nobody interleaves with does in the machine what Introspect does |
| KeyCache.AnswersAreRecent | services/launcher/internal/apikeyclient/apikeyclient.go:67-102 | under every interleaving a result was the service's answer about that key later than 30 s before the call began |
| KeyCache.RevokedKeyDies | services/launcher/internal/apikeyclient/apikeyclient.go:23-25 | a key that stays revoked is inactive for every call that begins 30 s later |
| KeyCache.StalenessIsReached | services/launcher/internal/apikeyclient/apikeyclient.go:70-102 | the 30 s are reached to the nanosecond |
| KeyCache.GoesBackIff | services/launcher/internal/apikeyclient/apikeyclient.go:64-105 | from any state, a call begun later can get an answer from before a given time if and only if such an answer is in the cache unexpired or in the hands of a call that would store it unexpired |
| KeyCache.AnswersGoBack | services/launcher/internal/apikeyclient/apikeyclient.go:74-103 | a run in which a call returns an answer and a call begun after it returns an older one |
| KeyCache.OneAtATimeNeverGoesBack | services/launcher/internal/apikeyclient/apikeyclient.go:74-103 | while look-ups of a key ask one at a time, no later call gets an answer older than one returned |
| Membership.Desired | services/launcher/internal/grafanasync/grafanasync.go:557-594 | who should be where: Admin for platform admins everywhere, else the role of the last membership of that organisation's project |
| Membership.ProjectAccess | services/launcher/internal/grafanasync/grafanasync.go:554-556 | Admin is desired exactly for platform admins; otherwise exactly the project's own members are, and nobody in an organisation of no project |
| Membership.LastMembershipGivesRole | services/launcher/internal/grafanasync/grafanasync.go:443-450 | a project's organisation gives the role of the last membership: Viewer to viewers, Editor to the rest |
| Membership.Syncer.EnsureUser | services/launcher/internal/grafanasync/grafanasync.go:411-434 | afterwards the account exists, and no managed membership moved |
| Membership.Syncer.SeatOne | services/launcher/internal/grafanasync/grafanasync.go:609-624 | one login gets its role by one join or one change, none when it has it |
| Membership.Syncer.DropOne | services/launcher/internal/grafanasync/grafanasync.go:626-632 | an extra login is removed; a wanted one and Grafana's admin stay |
| Membership.Syncer.SyncOrg | services/launcher/internal/grafanasync/grafanasync.go:600-633 | one organisation ends exactly as desired, with exactly as many changes as logins that differ; after a failed call every login has its old role or its goal |
| Membership.Syncer.Apply | services/launcher/internal/grafanasync/grafanasync.go:599-636 | all organisations end exactly as desired, nothing else moves, and where all were there already nothing is changed; the first failing call ends it part way |
| Membership.Syncer.Sync | services/launcher/internal/grafanasync/grafanasync.go:538-543 | the same from the users and members themselves |
| Membership.ReachedIsSettled | services/launcher/internal/grafanasync/grafanasync.go:596-598 | what a successful run leaves is what a second run finds nothing to do about |
| Membership.ReachedMeans | services/launcher/internal/grafanasync/grafanasync.go:596-632 | who is wanted has the wanted role, Grafana's own admin keeps what it had, and nobody else is left |
| Membership.WhoIsIn | services/launcher/internal/grafanasync/grafanasync.go:554-598 | after a successful run a project's organisation holds platform admins as Admin, the project's members, and nobody else but Grafana's admin |

## Left out

- HTTP requests, JSON, status codes and messages: only the decision each handler makes is modelled.
- SQL text and transactions: each statement, and each transaction, is one atomic step on a map; timestamps keep the precision they are given, so PostgreSQL's rounding to microseconds is not modelled.
- Docker, Grafana and S3 calls: atomic steps that fail before or after their effect; a listing is one step although the real one is paged.
- Cryptography: SHA-256 and recovery-code hashing are injective, HMAC-SHA1 is any function to twenty bytes, encryption is a tag on the content.
- Random ids and secrets: parameters that no earlier one equals.
- Floating point: CPU readings are reals, and the mass-deletion guard is 2 * gone > remote.
- RefreshSteps.Conservation: a failed insert after a won race costs the session its token, and is counted as no credit; nothing is claimed about such a session's liveness.
- Refresh.DescendantsAreRenewed: speaks of whole calls; RefreshSteps.ParallelPresentationIsReuse shows what single steps can do to it.
- Offsite.UpToDateMeansCopied: soundness is kept while an object's modification time and size never come back with other content; after they do, the guard and what a pass does still hold, but the manifest may be wrong.
- Offsite.Mirror.Status: the time in the stamp is reduced to whether there is a stamp.
- Group.ScalingGroup.Run: manual replica actions and restarts through the admin API are not part of a run, and nothing outside starts or stops containers.
- Bytes in the mirror's report, temporary files and logging.
- SecondFactor.Handler.Login: issuing the tokens is not modelled; code lengths count characters where the source counts bytes, which agree on digits and letters.
- The setup handlers of the second factor: `confirmSetup` is modelled in MfaSteps; the challenge around it and the drawing of recovery codes are not.
- SecondFactor.Handler.CheckSecondFactor: one uninterrupted call; module MfaSteps has the interleavings.
- Trimming and case folding of account keys, and the pairing of account and address keys at login.
- Args.RoundTripIff: characters are Unicode scalar values, so lone surrogates do not occur.
- Membership.Syncer.Sync: nobody else changes memberships during a run; creating organisations, data sources and dashboards is left out, and so is the single-account sync at sign-in.
- KeyCache.Client.Introspect: scopes are carried along but HasScope is not modelled.
- The launcher's capacity check, spec policy, exposure labels and add-ons: decisions on one container specification at a time, not modelled.
- The command-line tools, certificate and firewall scripts, portal components, metrics and audit.
