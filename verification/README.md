# Deployment platform: model and proofs

A Dafny model of a self-hosted deployment platform: an API that creates, cancels and supersedes
deployments, a Redis list and `cancel:<id>` keys between it and one build worker, a cleanup
goroutine that expires old deployments, the log path from git's output to the browser, the
Kubernetes names and ingress of a project, and a few smaller stateful parts around them.

The parts with a life of their own (the pipeline, the logger, the log view, the stream registry, the
token refresh) are value-level transition systems with theorems over all their runs; names, cluster
resources, ingresses, analytics and ports are functions and relations with theorems over all inputs.
Where the program works by updating objects or arrays, a class has methods proved to take exactly
the modelled steps.

| file | contents |
|---|---|
| `Pipeline.dfy` | the pipeline's state and steps: handlers, worker statements, cleanup steps |
| `PipelineInvariants.dfy` | the inductive invariant and its preservation by every step |
| `PipelineRuns.dfy` | theorems over runs: newest wins, exactly once, retirement, cancel safety, a witness run |
| `PipelineCancel.dfy` | when a cancelled deployment turns READY all the same |
| `PipelineExpiry.dfy` | when the cleanup goroutine comes back to a deployment |
| `PipelineSpec.dfy` | what each request and statement of the pipeline means on rows, jobs, keys and events; a heard signal stops the work |
| `Platform.dfy` | the handlers and the two workers as methods over mutable state |
| `Names.dfy`, `NameWords.dfy`, `Cluster.dfy` | name sanitizing, the words a derived name is made of, Deploy against Cleanup |
| `IngressHosts.dfy` | ingress rules, TLS entries and annotation under create, update, add, remove |
| `LogText.dfy`, `LogTextLaws.dfy`, `GitProgress.dfy`, `StreamLogger.dfy` | progress filter and line scanning, what they mean on the pieces of a text, the batching logger |
| `LogViewer.dfy`, `LogLoss.dfy`, `DeploymentLogs.dfy` | cursor-paged log query, what it misses, and the browser hook as an object |
| `LogStreams.dfy` | the registry of runtime log streams |
| `TokenRefresh.dfy` | single-flight token refresh against a rotating server token |
| `Analytics.dfy` | day buckets, averages and rates, on rows as the pipeline leaves them |
| `Ports.dfy` | the container port through env maps and decimal text |

## What turned out not to hold

The code is modelled as it is. Each entry names the exact condition and, after it, a lemma or method
that exhibits a failing input or run.

* A cancelled deployment can become READY. `CancelledTurnsReady`: exactly when the cancel, of the owner or
  of a push, came while the worker was past its last checkpoint, or that checkpoint later missed the
  signal because the key's 300 seconds were over or the Redis GET failed, which reads as "not
  cancelled"; and the statements that remained then succeeded. Runs: `LateCancel`, `StaleJobRevives`.
* An overtaken job can be outstanding without a live signal. `NewestWinsUnlessLapsed`: exactly when its key
  has run out. Run: `StaleJobRevives`.
* The queue's comment speaks of BLPOP, first in, first out. RPUSH with BRPOP takes the job that has waited
  longest exactly when it is the only one (`LongestWaitingFirst`). Run: `NewerJobFirst`.
* "Will retry next cycle" after a partial failure to remove the cluster resources: whether they are
  gone plays no part. `FetchedAgain`: a later cycle lists the deployment exactly when no retirement
  of it was accepted, so it retries only when the EXPIRED write was itself refused. Run, for both
  outcomes of that write: `FailedCleanup`.
* A sanitized name can have 64 bytes (63 plus the digit prefix). Then sanitizing again changes it
  (`Idempotent`), Cleanup misses three of the five resources (`CleanupUndoesDeploy`) and domain edits go to
  another ingress (`EditsOwnIngress`). Names: `ZerosNameTooLong`, `LongNameCleansAnother`.
* Cleanup of one project can delete resources of another one. `SurvivesCleanup`: all five survive exactly
  when the policy names differ, which the first 56 bytes of the derived names decide. Names of 57 and
  58 bytes: `LongNamesShareAPolicy`.
* Removing a domain undoes adding it unless the ingress had no host before (`RemoveUndoesAdd`).
  Calls: `EmptyIngressKeepsDomain`, for a project with empty domains only; there the worker indexes an empty
  list of URLs after the deploy, and the calls assume that the cluster accepts an ingress without rules.
* The log view misses entries. `CompleteUnlessLost`: exactly when, since the last reset, an entry was stored at
  or before the cursor, or a doubtful answer was received. `DoubtfulGoesPast`: an answer is doubtful when, at
  its computing, it was full and cut between equal timestamps or a reset had come since its request;
  or when, before its arrival, an entry was stored in its range or the view was reset although its
  request had a cursor. Runs: `BatchAcrossPages`, `StoredBeforeArrival`, `ClearedDuringFetch`. A batch of lines is
  stored under one timestamp of whole seconds; a fixed list is paged without loss exactly when no page
  boundary falls between equal timestamps (`PagingIsLossless`).
* A view opened on a finished deployment does not show all of its log. It polls when it is opened and once more
  when it learns that the deployment is not live, and stops (a fetch that outlasts the two-second
  interval lets in further polls). Two polls show exactly the first 400 entries, so all of them exactly
  when there are no more, for increasing timestamps (`TwoPollsShow`, `PollShowsMore` for each further one).
* A batch of log lines is reported under the source the logger has when its goroutine starts, which is the
  one of the flush exactly when the last SetSource in between, if any, set that one (`LateSource`). Run:
  `BuildLineReportedAsRuntime`. Nothing in the worker calls SetSource, and then it is always the logger's
  own source (`SourceOfConstruction`).
* "Delete the refresh token so it can't be used again" at logout. `LogoutEndsSession`: the session is there again exactly
  when a refresh that was compared before the logout stores its next token after it. Run: `LogoutInTheGap`.
* The success rate leaves 0..100 exactly when something completed and 200 times the superseded minus the
  failed deployments is not below the completed ones (`SuccessRateIsAPercentage`). Run: `RateAbove100`.
* The page size of the log query leaves 1..500 exactly for a negative limit (`PageSize`). Input: `NegativeLimit`.
* The logger's integer formatter prints exactly the smallest 64-bit integer wrong, as a lone minus sign (`IntToString`).
  Input: `PrintSmallest`.

## Model

| member | source | states |
|---|---|---|
| Pipeline.FindLatest | apps/api/src/webhooks/webhooks.service.ts:152-159 | the answer is a matching row of the project and none that matches started later; no answer means no row matches |
| PipelineInvariants.CreateKeepsInv | apps/api/src/deployments/deployments.service.ts:52-64 | creating a deployment, or refusing because the latest is in progress, keeps all seven invariants and changes no existing row |
| PipelineInvariants.PushKeepsInv | apps/api/src/webhooks/webhooks.service.ts:217-310 | a push, whether it finds nothing, aborts the one in flight or records the READY one as previous, keeps all invariants |
| PipelineInvariants.CancelKeepsInv | apps/api/src/deployments/deployments.service.ts:273-312 | cancelling, or refusing to, keeps all invariants; only rows in flight change |
| PipelineInvariants.RunStepKeepsInv | apps/worker/internal/worker/worker.go:238-459 | every statement of processJob and of its error handling, whether the call succeeds or fails, keeps all invariants |
| PipelineInvariants.CleanerKeepsInv | apps/worker/internal/k8s/cleanup.go:106-142 | each step of the cleanup goroutine keeps all invariants although its fetched list may be out of date |
| PipelineInvariants.UnsignalledIsLatest | apps/api/src/deployments/deployments.service.ts:52-64 | the guard is sound: an outstanding job without a published signal belongs to the row the latest-deployment query returns, and that row is in flight |
| PipelineRuns.InvAlways | apps/worker/internal/worker/worker.go:171-219 | every state of every interleaving of API, worker and cleanup satisfies every invariant |
| PipelineInvariants.StepKeepsInv | apps/worker/internal/worker/worker.go:171-219 | every enabled step of any actor keeps all seven invariants and changes existing rows only as a row may change |
| PipelineRuns.NewestWinsUnlessLapsed | apps/api/src/webhooks/webhooks.service.ts:217-242 | in a reachable state at most one outstanding job per project has no live signal and it is the newest deployment's, if and only if no overtaken outstanding job's key has run out |
| PipelineRuns.CommittedPassedLastCheck | apps/worker/internal/worker/worker.go:394-397 | a job past its last checkpoint was newest and uncancelled there, unless its key had run out or the read failed |
| PipelineRuns.ReadyWriteWasCurrent | apps/worker/internal/worker/worker.go:438-452 | the same for every READY write: an earlier last checkpoint of that deployment's job is exhibited |
| PipelineRuns.ExactlyOnce | apps/worker/internal/queue/queue.go:54-98 | in a run each deployment's job is popped at most once, there is at most one of it across queue and worker, READY is written at most once, exactly when isSuccess, and the row's status, finishedAt and whole-second duration agree |
| PipelineRuns.LetGoForever | apps/worker/internal/worker/worker.go:195-218 | once the job of a deployment is neither queued nor in the worker, whether it ended READY, CANCELED or FAILED, it is never held again |
| PipelineRuns.Retirement | apps/worker/internal/worker/worker.go:456-459 | between any two points of a run a succeeded row changes only its status, to SUPERSEDED or EXPIRED, that pair is never left, and a FAILED row never changes |
| PipelineRuns.HistoryRetirement | apps/worker/internal/k8s/cleanup.go:136-142 | in the order of accepted writes, nothing but retirements follows a READY write, even when cleanup races the worker |
| PipelineRuns.RetiredNeverFetched | apps/api/src/internal/internal.service.ts:180-206 | once SUPERSEDED or EXPIRED, a deployment is in no later answer to the cleanup worker; one whose EXPIRED write was refused is the subject of FetchedAgain |
| PipelineExpiry.FetchedAgain | apps/worker/internal/k8s/cleanup.go:126-142 | after a deployment was reported EXPIRED, a later cycle fetches it again if and only if no retirement of it has been accepted by then; accepting this report suffices, and the outcome of removing the cluster resources plays no part |
| PipelineExpiry.RecordedAlways | apps/api/src/internal/internal.service.ts:27-65 | in every run a row is SUPERSEDED or EXPIRED exactly when the history holds an accepted write of one of the two |
| PipelineExpiry.FailedCleanup | apps/worker/internal/k8s/cleanup.go:126-142 | a run in which removing the cluster resources fails: the next cycle lists the deployment when the EXPIRED write is refused and lists nothing when it is accepted |
| PipelineRuns.CancelSafety | apps/worker/internal/worker/worker.go:237-397 | a signal published before the last checkpoint and alive there: the job never deploys, never writes READY, and the worker's last status write is CANCELED or FAILED |
| PipelineCancel.CancelledTurnsReady | apps/worker/internal/worker/worker.go:394-452 | for a cancel accepted from the owner or a push's abort, at any step of any run: READY has been written by step k if and only if the job was past its last checkpoint at the cancel, or that checkpoint later missed the signal (key run out or read failed), and the worker's remaining statements came and succeeded by k |
| PipelineCancel.CommittedOutcome | apps/worker/internal/worker/worker.go:402-452 | a job past its last checkpoint turns READY by k exactly when its remaining statements succeed by then, whatever the other actors do in between |
| PipelineCancel.SignalStaysOut | apps/worker/internal/queue/queue.go:162-165 | a published signal is not deleted while the queue or the worker holds the deployment's job |
| PipelineCancel.LateCancel | apps/api/src/deployments/deployments.service.ts:280-305 | a run without any failed call in which a cancel accepted during the cluster deploy is followed by READY with the signal alive |
| PipelineRuns.SignalIsolation | apps/worker/internal/queue/queue.go:153-165 | until the job of d itself reads the key, a run with d's signal and one without agree on all rows, events, queue and workers |
| PipelineRuns.EnvironmentStep | apps/worker/internal/worker/worker.go:154-220 | handlers, clock and cleanup never move the worker, never delete a key, and at most append one fresh job |
| PipelineRuns.UndisturbedJobSucceeds | apps/worker/internal/worker/worker.go:223-505 | undisturbed and unsignalled, the job at the tail of the queue is taken through every statement to READY, the deployment it replaces, if any, to SUPERSEDED, and all other rows stay |
| PipelineRuns.LongestWaitingFirst | apps/worker/internal/queue/queue.go:65-65 | the worker takes the job that has waited longest if and only if it is the only one |
| PipelineRuns.NewerJobFirst | apps/api/src/queues/queues.service.ts:35-46 | a run of two pushes in which the worker takes the second job first |
| PipelineRuns.StaleJobRevives | apps/api/src/queues/queues.service.ts:73-78 | a run from the empty platform in which a deployment cancelled by a newer push is built after its key lapsed and ends READY |
| PipelineSpec.CreateMeaning | apps/api/src/deployments/deployments.service.ts:52-64 | in an invariant state a create is refused, changing nothing, if and only if the project's latest deployment is QUEUED, BUILDING or DEPLOYING; otherwise exactly one QUEUED row and its job, without a previous deployment, are added |
| PipelineSpec.PushMeaning | apps/api/src/webhooks/webhooks.service.ts:217-310 | a push always adds one QUEUED row and its job; a current deployment in progress has its status column alone set to CANCELED and is signalled for 300 seconds, a READY one becomes the job's previous deployment, and nothing else changes |
| PipelineSpec.CancelMeaning | apps/api/src/deployments/deployments.service.ts:273-312 | a cancel is refused, changing nothing, exactly for a missing deployment (not found) or one not in progress (bad request); otherwise the row gets CANCELED, the time and the whole seconds, and the signal is set for 300 seconds |
| PipelineSpec.SignalLives | apps/api/src/deployments/deployments.service.ts:280-305 | the signal of an accepted cancel is alive after a time if and only if that is less than 300 seconds |
| PipelineSpec.CheckpointHears | apps/worker/internal/worker/worker.go:526-541 | each of the five checkpoints turns the job away if and only if its read succeeds and finds the signal alive, and otherwise goes on to its own next statement, changing nothing |
| PipelineSpec.WriteMeaning | apps/api/src/internal/internal.service.ts:27-65 | an accepted status write sets the status, the time and whole seconds for READY, FAILED and CANCELED only, and the success flag for READY only; every other row and every refused call leaves the rows as they are |
| PipelineSpec.StatementMeaning | apps/worker/internal/worker/worker.go:238-459 | what each statement of the job writes to rows, events and keys, and which statement follows it on success and on failure |
| PipelineSpec.ExpiredMeaning | apps/api/src/internal/internal.service.ts:164-207 | an answer to the cleanup worker is a list of exactly the READY rows started more than their owner's TTL of minutes ago, each once |
| PipelineSpec.CleanerMeaning | apps/worker/internal/k8s/cleanup.go:115-142 | a cleanup step tries the head's resources, then reports it EXPIRED and goes on, whatever became of the resources |
| PipelineSpec.HeardStopsWork | apps/worker/internal/worker/worker.go:238-397 | in every run: once any of the five checkpoints has heard the signal, the job runs no further clone, build or deploy, and the worker reports nothing but CANCELED for the deployment |
| Platform.Platform.HandleCreate | apps/api/src/deployments/deployments.service.ts:52-64 | takes the create step: refused, changing nothing, exactly when the latest deployment of the project is in progress, otherwise one QUEUED row and its job are added |
| Platform.Platform.HandlePush | apps/api/src/webhooks/webhooks.service.ts:207-310 | takes the push step: cancels and signals a current deployment in progress or hands over the READY one, and adds one QUEUED row and its job |
| Platform.Platform.HandleCancel | apps/api/src/deployments/deployments.service.ts:273-312 | takes the cancel step: its two refusals change nothing, otherwise row and signal are written as stated for the cancel |
| Platform.Platform.UpdateDeploymentStatus | apps/api/src/internal/internal.service.ts:27-65 | column by column what a status write changes, in the one row of an accepted call only; a refused call changes no row |
| Platform.Platform.WaitForJob | apps/worker/internal/queue/queue.go:54-98 | takes the last job pushed and leaves the others |
| Platform.Platform.CheckCancelled | apps/worker/internal/queue/queue.go:153-160 | takes the checkpoint: reports cancelled if and only if the read succeeds and finds the signal alive, and changes nothing but the statement the job is at |
| Platform.Platform.Report | apps/worker/internal/worker/worker.go:246-248 | a status report writes that status as stated for status writes and goes on, or to the failure handling, except after the image |
| Platform.Platform.DeployToCluster | apps/worker/internal/worker/worker.go:438-441 | the deploy call is recorded, changes no row, and goes on to READY or to the failure handling |
| Platform.Platform.RetirePreviousDeployment | apps/worker/internal/worker/worker.go:456-459 | the previous deployment is reported SUPERSEDED and the job is let go |
| Platform.Platform.DeleteDeploymentResources | apps/api/src/internal/internal.service.ts:239-263 | the second CANCELED write of a cancelled job, which sets no duration |
| Platform.Platform.RunCleaner | apps/worker/internal/k8s/cleanup.go:115-142 | one step of the cleanup goroutine, as stated for it on rows and events |
| Platform.Platform.ProcessJob | apps/worker/internal/worker/worker.go:223-505 | with other actors running between any two statements: completes only with exactly one READY write, otherwise stops at the cancel or the failure handling of the same job |
| Platform.Platform.ProcessToken | apps/worker/internal/worker/worker.go:260-297 | processJob from the settings on, with the same outcome contract |
| Platform.Platform.ProcessClone | apps/worker/internal/worker/worker.go:305-340 | processJob from the clone on, with the same outcome contract |
| Platform.Platform.ProcessBuild | apps/worker/internal/worker/worker.go:364-397 | processJob from the build on, with the same outcome contract |
| Platform.Platform.ProcessDeploy | apps/worker/internal/worker/worker.go:402-459 | past the last checkpoint a job is never aborted: it completes with one READY write or fails |
| Platform.Platform.FailJob | apps/worker/internal/worker/worker.go:207-210 | a failed job ends with FAILED as the worker's last status write |
| Platform.Platform.AbandonJob | apps/worker/internal/worker/worker.go:201-206 | a cancelled job ends with CANCELED as the worker's last status write, whatever the API does meanwhile |
| Platform.Platform.RunNext | apps/worker/internal/worker/worker.go:171-219 | one turn of the loop: a popped job ends with its READY write or with CANCELED or FAILED reported |
| Platform.Platform.GetExpiredDeployments | apps/api/src/internal/internal.service.ts:164-207 | the loop over owners yields each READY row past its owner's TTL once, and nothing else |
| Platform.Platform.CleanupExpired | apps/worker/internal/k8s/cleanup.go:87-142 | undisturbed, every row past its TTL is reported EXPIRED and no other row changes |
| Platform.Platform.CleanNext | apps/worker/internal/k8s/cleanup.go:115-142 | each step tries the cluster resources of the head or reports it EXPIRED and moves on; only the head's row may change |
| Names.SanitizeK8sName | apps/worker/internal/k8s/deploy.go:145-179 | the one-pass byte loop equals the API's three-regex form truncated to 63, trimmed, with the letter ensured |
| Names.UrlSanitizeClean | apps/api/src/common/utils/url.utils.ts:6-12 | the regex chain yields lower-case alphanumerics with single inner dashes and no final dash |
| Names.K8sNameIsLabel | apps/worker/internal/k8s/deploy.go:145-179 | the result always has label shape (section 2.3.1 of RFC 1035) and at most 64 bytes; it is a label exactly when the digit prefix does not meet a full 63 bytes |
| Names.Idempotent | apps/worker/internal/k8s/deploy.go:145-179 | sanitizing twice equals sanitizing once if and only if the name has at most 63 bytes |
| Names.SanitizedTwice | apps/worker/internal/k8s/deploy.go:145-179 | sanitizing a derived name again cuts it to 63 bytes and drops a dash at the cut |
| Names.ZerosNameTooLong | apps/worker/internal/k8s/deploy.go:151-171 | 63 zeros give a name of 64 bytes, which sanitizing again changes |
| Names.SuffixedIsLabel | apps/worker/internal/k8s/istio.go:187-204 | service-account and policy names of any derived name are labels of at most 63 bytes |
| Names.SuffixedCollision | apps/worker/internal/k8s/istio.go:187-204 | two applications share such a name exactly when the parts that survive truncation agree |
| Names.SuffixedInjective | apps/worker/internal/k8s/istio.go:179-204 | both kinds of names are injective on derived names of at most 56 bytes |
| Names.LongerKeptDecides | apps/worker/internal/k8s/istio.go:187-204 | two derived names that agree on what the account name keeps, or on their first 63 bytes, share the policy name |
| Names.SuffixedStable | apps/worker/internal/k8s/istio.go:63-66 | sanitizing the application name again never changes the suffixed names |
| NameWords.CaseInsensitive | apps/worker/internal/k8s/deploy.go:146-146 | two names that differ in case only have the same sanitized and derived names |
| NameWords.AsciiCodes | apps/worker/internal/k8s/deploy.go:154-154 | the capital letters are moved to the small ones, and small letters and digits are what is kept, by their codes |
| NameWords.SanitizedIsWords | apps/api/src/common/utils/url.utils.ts:6-12 | the sanitized name is the maximal runs of letters and digits of the lower-cased name, in order, joined by single dashes |
| NameWords.DerivedIsWords | apps/worker/internal/k8s/deploy.go:145-179 | the derived name is that text cut to 63 bytes without a dash at the cut, with an "a" before a digit, or "app" if there is no word |
| NameWords.SuffixedNames | apps/worker/internal/k8s/istio.go:179-204 | the account name is the derived name, cut to 60 bytes without a dash at the cut, and "-sa"; the policy name, cut to 56, and "-netpol" |
| NameWords.SuffixedLength | apps/worker/internal/k8s/istio.go:187-204 | for any name and suffix the result ends in the suffix or its last 63 bytes, and exceeds 63 bytes exactly for a suffix of 62 and a longer name that begins with a dash |
| Cluster.Client.Deploy | apps/worker/internal/k8s/deploy.go:14-64 | writes exactly the resources before the first refused call, keyed by the derived names |
| Cluster.Client.Cleanup | apps/worker/internal/k8s/deploy.go:106-142 | removes exactly the resources whose deletion is not refused and reports exactly the refused ones, in the order ingress, service, deployment, policy, account |
| Cluster.DeployOrder | apps/worker/internal/k8s/deploy.go:14-64 | for each kind, which resources a Deploy has written when the call for that kind is refused |
| Cluster.DeletesWhatItCreated | apps/worker/internal/k8s/deployment.go:161-164 | the key deleted is the key created, kind by kind, exactly when the kind is suffixed or the name fits 63 bytes |
| Cluster.CleanupUndoesDeploy | apps/worker/internal/k8s/deploy.go:106-142 | after both, all five resources existed, the suffixed two are gone, the other three exactly when the name fits; altogether what is left, with its owner, is what was there or was written without the deleted keys |
| Cluster.CleanupAfterPartialDeploy | apps/worker/internal/k8s/deploy.go:106-142 | a full Cleanup removes whatever an interrupted Deploy left, and only that, if and only if the name fits in 63 bytes or the resources named by the bare label were not reached and the keys deleted instead were not there |
| Cluster.ProjectsApart | apps/worker/internal/k8s/deploy.go:106-142 | for any two projects, a deletion of one meets a resource of the other exactly when the kinds and the parts of the derived names that truncation keeps agree |
| Cluster.SurvivesCleanup | apps/worker/internal/k8s/deploy.go:106-142 | after Cleanup of p, each resource of q is left exactly when it is not hit, and all five exactly when the policy names of p and q differ |
| Cluster.ShortNamesApart | apps/worker/internal/k8s/istio.go:179-204 | up to 56 bytes, one project's Cleanup hits another's resource only if their derived names are equal |
| Cluster.LongNamesShareAPolicy | apps/worker/internal/k8s/istio.go:187-204 | two different names of 57 and 58 bytes of which one's Cleanup takes exactly the network policy of the other |
| Cluster.LongNameCleansAnother | apps/worker/internal/k8s/deployment.go:161-164 | a 64-byte name whose Cleanup misses its own Deployment, Service and Ingress and takes those of another project |
| IngressHosts.SanitizeHostIdempotent | apps/worker/internal/k8s/deploy.go:181-186 | a sanitized host is a fixed point of sanitizeHost |
| IngressHosts.HostOfUrl | apps/worker/internal/k8s/deploy.go:181-186 | a host with or without a scheme and a path sanitizes to that host in lower case |
| IngressHosts.UnderBaseDomain | apps/worker/internal/k8s/ingress.go:184-193 | a sanitized host counts as a subdomain if and only if there is a base domain and the host is it or some text, a dot and it |
| IngressHosts.SelectSplits | apps/worker/internal/k8s/ingress.go:184-193 | hosts split as a multiset into those under the base domain and those not |
| IngressHosts.BuildIsConsistent | apps/worker/internal/k8s/ingress.go:16-108 | for any host list: rule hosts are fixed points, the TLS entries partition them by base domain, and the annotation is present exactly when a custom host is |
| IngressHosts.CertificatesOf | apps/worker/internal/k8s/ingress.go:224-242 | the wildcard secret secures exactly the hosts under the base domain, the secret named after the project exactly the others, both in order, and there is no other entry |
| IngressHosts.Classify | apps/worker/internal/k8s/ingress.go:138-148 | the loop sorts the sanitized hosts by base domain, in order |
| IngressHosts.ClassifyDomains | apps/worker/internal/k8s/ingress.go:19-35 | the same loop over domains, with empty ones skipped |
| IngressHosts.BuildRules | apps/worker/internal/k8s/ingress.go:195-222 | one rule per host, sanitized, in order |
| IngressHosts.Ingresses.ValidIsConsistent | apps/worker/internal/k8s/ingress.go:16-182 | after any sequence of the four operations the ingress is consistent |
| IngressHosts.Ingresses.CreateOrUpdateIngress | apps/worker/internal/k8s/ingress.go:16-108 | skips empty domains, returns the sanitized hosts, leaves a consistent ingress; an error changes nothing |
| IngressHosts.Ingresses.UpdateIngressHosts | apps/worker/internal/k8s/ingress.go:123-173 | edits rules, TLS and annotation of the ingress found under the sanitized name to the one built from the new hosts; every other ingress stays, an error or a missing ingress changes nothing |
| IngressHosts.Ingresses.AddDomain | apps/worker/internal/k8s/domains.go:124-157 | reads the ingress under the derived name and edits the one under the name sanitized again: its hosts become those read plus the sanitized domain, one rule each; a host already present changes nothing at all |
| IngressHosts.AddedToOwn | apps/worker/internal/k8s/domains.go:124-157 | the ingress read gains the domain exactly when it is the one edited or had the sanitized domain |
| IngressHosts.EditsOwnIngress | apps/worker/internal/k8s/ingress.go:124-133 | for a project these are the same ingress if and only if its derived name has at most 63 bytes |
| IngressHosts.Ingresses.RemoveDomain | apps/worker/internal/k8s/domains.go:160-189 | the edited ingress gets the rules read without that host's, in their order and with their repetitions; the call is refused exactly when none would be left or a cluster call fails |
| IngressHosts.ExcludingCounts | apps/worker/internal/k8s/domains.go:160-189 | the rules kept by a removal are, counted with repetition, all but those of the domain |
| IngressHosts.ExcludingInOrder | apps/worker/internal/k8s/domains.go:160-189 | they are kept in their order: what is kept of a list is what is kept of its first part and then of its second |
| IngressHosts.RemovedFromOwn | apps/worker/internal/k8s/domains.go:160-189 | the ingress read loses the domain exactly when it is the one edited or did not have it |
| IngressHosts.RemoveUndoesAdd | apps/worker/internal/k8s/domains.go:124-189 | removing a newly added sanitized domain restores the hosts of the ingress if and only if it had any or another ingress was edited |
| IngressHosts.EmptyIngressKeepsDomain | apps/worker/internal/k8s/domains.go:174-186 | a project deployed with an empty domain only keeps the domain added to it |
| LogText.SplitIntoLines | apps/worker/internal/git/progress_filter.go:43-65 | the byte loop equals the recursive splitting at \n, \r and \r\n |
| LogTextLaws.SplitLaws | apps/worker/internal/git/progress_filter.go:43-65 | a line ends at a line feed, at a carriage return, or at both together; an unterminated rest is a line unless it is empty |
| LogTextLaws.TrimOf | apps/worker/internal/git/progress_filter.go:22-22 | trimming a text with any white space put before and behind it gives the text back |
| LogTextLaws.ProgressMeaning | apps/worker/internal/git/progress_filter.go:67-99 | a line is intermediate progress if and only if, behind an optional "remote: ", it begins with one of the five counters, and "done" occurs nowhere |
| LogTextLaws.KeepLineMeaning | apps/worker/internal/git/progress_filter.go:21-31 | a line contributes its text without the white space around it, or nothing if that is empty or intermediate progress |
| LogText.ChunkIndependence | apps/worker/internal/git/progress_filter.go:16-41 | chunks cut at line terminators, also between \r and \n, keep the lines of their concatenation |
| LogText.DirtyCutSplits | apps/worker/internal/git/progress_filter.go:16-41 | a cut inside a line does change what is kept |
| LogText.KeptShape | apps/worker/internal/git/progress_filter.go:22-31 | kept lines are trimmed at both ends, not blank, free of terminators and not intermediate progress |
| LogText.ScanPrefix | apps/worker/internal/logging/logger.go:67-77 | scanning the filter's output gives its lines up to the first of 64 KiB or more |
| LogText.ScanRecovers | apps/worker/internal/logging/logger.go:67-77 | the scanner recovers all of them if and only if each is shorter than 64 KiB |
| LogTextLaws.ScanLaws | apps/worker/internal/logging/logger.go:67-77 | a token is a line without its line feed and without one carriage return before it; a line of 65536 bytes or more ends the scan |
| LogText.KeptLinesAreStored | apps/worker/internal/api/logs.go:79-95 | the blank filter before storage drops none of the kept lines, whatever the prefix |
| LogText.FilterBlank | apps/worker/internal/api/logs.go:86-95 | the loop yields the messages that are not blank, in order |
| LogTextLaws.NonBlankNext | apps/worker/internal/api/logs.go:86-95 | a message is stored, in its place, unless all of it is white space |
| GitProgress.KeepOutput | apps/worker/internal/git/progress_filter.go:21-31 | the loop yields the trimmed lines that are neither blank nor intermediate progress, in order |
| GitProgress.ProgressFilter.Write | apps/worker/internal/git/progress_filter.go:16-41 | one chunk hands the logger its kept lines, prefixed and up to the first of 64 KiB, in one write, or leaves it alone when there are none |
| GitProgress.OutputReachesStorage | apps/worker/internal/logging/logger.go:62-85 | however git's output is cut at terminators, the logger accepts exactly its kept lines and storage keeps them |
| StreamLogger.Conservation | apps/worker/internal/logging/logger.go:62-175 | after any interleaving, batches in flush order followed by the buffer are the accepted lines, no batch is empty and the buffer is below the batch size |
| StreamLogger.StepMeaning | apps/worker/internal/logging/logger.go:62-208 | for every operation: which lines are accepted and with which prefix, when the buffer goes out and as which batch, and what becomes of a fate |
| StreamLogger.ReceivedLaws | apps/worker/internal/logging/logger.go:67-77 | of a chunk, Write takes each line that is not empty, without its carriage return, up to the first of 65536 bytes |
| StreamLogger.BatchesAreFinal | apps/worker/internal/logging/logger.go:158-175 | a flushed batch never changes its lines, its source is fixed when its goroutine starts, and a settled fate never changes |
| StreamLogger.AfterClose | apps/worker/internal/logging/logger.go:129-141 | with no later calls, whatever timer and senders do around the final flush, the buffer ends empty with at most one batch in flight |
| StreamLogger.LateSource | apps/worker/internal/logging/logger.go:169-174 | a batch flushed at one step of a run is started at a later one, and is reported under the source of the flush updated by the SetSource calls in between |
| StreamLogger.SourceOfConstruction | apps/worker/internal/logging/logger.go:143-174 | in a run without SetSource every flushed batch is reported under the source the logger was made with |
| StreamLogger.BuildLineReportedAsRuntime | apps/worker/internal/logging/logger.go:143-174 | a run in which a line flushed as build output is delivered as runtime output |
| StreamLogger.Logger.Append | apps/worker/internal/logging/logger.go:75-75 | appends in place or moves to a larger array; the batches already taken are untouched |
| StreamLogger.Logger.FlushLocked | apps/worker/internal/logging/logger.go:158-175 | copies the lines out and reuses the array, and the copy is a fresh object |
| StreamLogger.Logger.Write | apps/worker/internal/logging/logger.go:62-85 | the in-place loop takes the write step: the received lines, each behind the prefix, go behind the buffered ones, and all of them into one batch once the batch size is reached |
| StreamLogger.Logger.Log | apps/worker/internal/logging/logger.go:88-100 | takes the log step: one prefixed line behind the buffered ones, and one batch of all once the batch size is reached |
| StreamLogger.Logger.LogWithSource | apps/worker/internal/logging/logger.go:108-119 | sends the buffered lines off as one batch and then the message without a prefix as another, delivered or failed under its own source |
| StreamLogger.Logger.AutoFlush | apps/worker/internal/logging/logger.go:198-204 | when the interval has passed the timer sends all buffered lines off as one batch, unless there are none; otherwise nothing changes |
| StreamLogger.Logger.BeginSend | apps/worker/internal/logging/logger.go:171-174 | the goroutine of a batch starts and fixes that batch's source to the logger's |
| StreamLogger.Logger.FinishSend | apps/worker/internal/logging/logger.go:178-187 | a completing send settles its own batch as delivered or failed, under the source it started with; no other batch changes |
| StreamLogger.Logger.CloseAfterWait | apps/worker/internal/logging/logger.go:129-141 | everything ever accepted is in a batch, at most one of them in flight |
| LogViewer.InvAlways | apps/web/hooks/use-deployment-logs.ts:50-117 | under any inserts, what is on screen followed by the drip buffer is sorted, without repetition and stored, and a timer is pending while entries wait |
| LogViewer.DripDrains | apps/web/hooks/use-deployment-logs.ts:50-67 | the timer chain moves the whole buffer to the screen in order and then stops |
| LogViewer.PageIsWindow | apps/api/src/deployments/deployments.service.ts:229-249 | with increasing timestamps an answer is exactly the stored entries from the cursor to its last one, and all of the rest when it is not full |
| LogViewer.ShortAnswer | apps/api/src/deployments/deployments.service.ts:229-247 | an answer that is not full holds exactly the stored entries of the requested source, or of any, that are later than the cursor |
| LogViewer.ShowsOwnSource | apps/web/hooks/use-deployment-logs.ts:84-117 | in every run a view of one source shows nothing of another |
| LogViewer.ShownIsStoredPrefix | apps/web/hooks/use-deployment-logs.ts:84-117 | with increasing timestamps and no reset during a fetch, what is shown is at every moment exactly the stored entries up to the cursor |
| LogLoss.CompleteUnlessLost | apps/web/hooks/use-deployment-logs.ts:84-117 | in every run, with any inserts, ties and resets, what is shown is exactly the stored selection up to the cursor if and only if since the last reset no entry was stored at or before the cursor and no doubtful answer was received |
| LogLoss.DoubtfulGoesPast | apps/web/hooks/use-deployment-logs.ts:84-117 | a pending answer goes past a stored entry if and only if it was cut between ties or overtaken by a reset when computed, or since then an entry was stored in its range or the view was reset although the request had a cursor |
| LogLoss.StoredBeforeArrival | apps/web/hooks/use-deployment-logs.ts:96-106 | a run in which an entry stored between the computing and the arrival of the first answer is never shown |
| LogLoss.ClearedDuringFetch | apps/web/hooks/use-deployment-logs.ts:177-187 | a run in which clearing during a fetch loses the entries before its cursor |
| LogLoss.PollShowsMore | apps/web/hooks/use-deployment-logs.ts:84-117 | a poll of a view that shows a stored prefix shows the next 200 entries, or all that are left |
| LogLoss.TwoPollsShow | apps/web/hooks/use-deployment-logs.ts:124-164 | a view opened on a finished deployment with increasing timestamps shows exactly the first 400 selected entries after its two polls |
| LogLoss.GapInAnswer | apps/api/src/deployments/deployments.service.ts:229-247 | of the entries stored when it is computed, an answer to a request with the current cursor goes past one if and only if it is full and an entry with its last timestamp was left out |
| LogLoss.BatchAcrossPages | apps/web/hooks/use-deployment-logs.ts:84-117 | a run of the hook over one batch of 201 lines: 200 are shown and no later query returns the last |
| LogViewer.CaughtUpIsEverything | apps/web/hooks/use-deployment-logs.ts:84-117 | once an answer is not full, repeated paging has shown exactly what one unpaged query returns |
| LogLoss.PagingIsLossless | apps/api/src/deployments/deployments.service.ts:235-247 | for any ascending list with ties, the pages together are the list if and only if no page boundary falls between equal timestamps |
| LogLoss.NextPageIsPage | apps/api/src/deployments/deployments.service.ts:229-247 | each page of that poller is an answer of the query, for any source and with or without a cursor |
| LogViewer.PageSize | apps/api/src/deployments/deployments.service.ts:227-227 | the page size is in 1..500 if and only if the limit is missing, not a number, or not negative |
| LogViewer.PageSizes | apps/api/src/deployments/deployments.service.ts:227-227 | 200 for a missing limit or zero, 500 above 500, and otherwise what was asked for |
| LogViewer.StepKeepsInv | apps/web/hooks/use-deployment-logs.ts:50-117 | inserts, requests, answers, failures, timer ticks and resets, also during a fetch, each keep the view's invariant |
| DeploymentLogs.LogsHook.OnTimer | apps/web/hooks/use-deployment-logs.ts:54-64 | a timer tick moves the first waiting entry behind those on screen, gains and loses nothing, and leaves a timer pending exactly when there was an entry; the object's state is that of a run, hence sound |
| LogViewer.ReceiveMeaning | apps/web/hooks/use-deployment-logs.ts:50-117 | the first page since opening or clearing, and any page without a drip interval, goes on the screen at once; another waits, and starts the timer with its first entry shown if none is pending; an empty page changes nothing |
| DeploymentLogs.LogsHook.ValidIsSound | apps/web/hooks/use-deployment-logs.ts:40-117 | whatever calls were made, what the object shows is sorted, without repetition and stored, and complete up to the cursor exactly when nothing was lost |
| DeploymentLogs.LogsHook.BeginFetch | apps/web/hooks/use-deployment-logs.ts:84-92 | a request goes out with the current cursor exactly when none is out |
| DeploymentLogs.LogsHook.Clear | apps/web/hooks/use-deployment-logs.ts:177-187 | nothing is shown or pending afterwards, the next page counts as the first, nothing counts as lost, and a request that is out stays out |
| DeploymentLogs.Poll | apps/web/hooks/use-deployment-logs.ts:84-117 | one poll appends its page, and if that is not full and nothing was lost before, every selected stored entry is shown |
| DeploymentLogs.LogsHook.Receive | apps/web/hooks/use-deployment-logs.ts:98-116 | the page goes behind everything shown, the first one on the screen at once and a later one into the drip buffer, the cursor to its last entry, and the next fetch may begin; the state stays that of a run |
| DeploymentLogs.LogsHook.ValidIsExact | apps/web/hooks/use-deployment-logs.ts:40-117 | with increasing timestamps and no reset during a fetch the object shows exactly the stored entries up to its cursor |
| LogStreams.OneLiveStream | apps/worker/internal/k8s/logs.go:36-47 | in every run a live stream is the registered one of its deployment, the only one, and the one started last |
| LogStreams.StopStops | apps/worker/internal/k8s/logs.go:175-186 | right after StopStreaming no stream of that deployment is live and every other is as before |
| LogStreams.StopAllStops | apps/worker/internal/k8s/logs.go:188-201 | right after StopAll nothing is live, whatever calls were between their lock and their listing |
| LogStreams.CancelledForever | apps/worker/internal/k8s/logs.go:36-59 | no interleaving revives a cancelled stream context |
| LogStreams.LiveUntilEnded | apps/worker/internal/k8s/logs.go:36-77 | in every run a started stream is live if and only if since then came no start or stop of its deployment, no StopAll, no end of its parent and no failed listing of its own |
| LogStreams.StreamingWhenListed | apps/worker/internal/k8s/logs.go:49-77 | pod goroutines run for a stream if and only if its listing found pods |
| LogStreams.ActiveCountsLive | apps/worker/internal/k8s/logs.go:204-208 | the reported count is at least the number of live streams, and equal exactly when no registered context was cancelled from elsewhere |
| LogStreams.LogStreamer.StartStreaming | apps/worker/internal/k8s/logs.go:39-47 | the locked section leaves the new context as the only live one of the deployment |
| LogStreams.LogStreamer.FinishStart | apps/worker/internal/k8s/logs.go:49-77 | when pods are found the context stays as it is and its pods are streamed; otherwise the call's own context is cancelled and nothing is streamed; the map and every other context stay |
| LogStreams.LogStreamer.StopStreaming | apps/worker/internal/k8s/logs.go:175-186 | no stream of the deployment is live afterwards |
| LogStreams.LogStreamer.ActiveStreams | apps/worker/internal/k8s/logs.go:204-208 | the number of entries, never below the number of live streams |
| LogStreams.LogStreamer.StopAllStreams | apps/worker/internal/k8s/logs.go:188-201 | the loop over the map cancels every registered context and empties the map |
| TokenRefresh.OneRefreshAtATime | apps/web/lib/fetch-client.ts:121-150 | at most one refresh is on its way, it is the one the promise field holds, and a finally block never drops a newer one |
| TokenRefresh.AgreeWhenIdle | apps/web/lib/fetch-client.ts:138-142 | while none is on its way, client and server hold the same token unless one holds none |
| TokenRefresh.NeverRefusedForMismatch | apps/api/src/auth/auth.service.ts:86-106 | a refresh that reaches the server is accepted exactly when the session still exists |
| TokenRefresh.NoLogoutNoRefusal | apps/web/lib/fetch-client.ts:82-101 | without a logout no refresh is ever refused and every waiting request is retried, although compare and store are separate operations |
| TokenRefresh.RotationIsNew | apps/api/src/auth/auth.service.ts:98-106 | storing the next token gives the session and the answer one and the same token, which neither the session, the client nor any refresh has had |
| TokenRefresh.OldTokenStaysOut | apps/api/src/auth/auth.service.ts:86-106 | in every run from a login, a token that the server has replaced is never the session's again |
| TokenRefresh.LogoutEndsSession | apps/api/src/auth/auth.service.ts:78-106 | after a logout the session is there again if and only if a refresh stores its token after it, and that requires one that had been compared before the logout and not yet stored |
| TokenRefresh.LogoutInTheGap | apps/api/src/auth/auth.service.ts:78-106 | a run from a login in which a logout between comparison and store is followed by a session |
| TokenRefresh.ClearedStaysOut | apps/web/lib/fetch-client.ts:78-101 | a client that has cleared its tokens while no refresh is on its way sends no refresh and gets no token any more |
| TokenRefresh.AtMostTwoFetches | apps/web/lib/fetch-client.ts:78-101 | each request fetches at most twice, and a waiter always waits for a refresh that is settled or current |
| TokenRefresh.ResponseMeaning | apps/web/lib/fetch-client.ts:78-84 | a 401 of a first fetch, unless the request skips authentication or there is no token, makes the request wait for the refresh under way or for one sent with the client's token; any other response ends the request and sends nothing |
| TokenRefresh.FailureMeaning | apps/web/lib/fetch-client.ts:86-101 | a fetch that fails ends the request; the tokens are cleared exactly when it was the retry |
| TokenRefresh.ResumeMeaning | apps/web/lib/fetch-client.ts:83-101 | when the refresh it waits for settles, a request fetches once more, or ends with the tokens cleared if the refresh was rejected |
| TokenRefresh.RefreshHasCause | apps/web/lib/fetch-client.ts:79-84 | for every refresh of any run, the earlier 401 of a first fetch that sent it is exhibited |
| TokenRefresh.UnauthorizedIsServed | apps/web/lib/fetch-client.ts:78-101 | in runs without a logout, a request answered 401 while there was a token waits for a refresh until it fetches a second time |
| TokenRefresh.UnauthorizedWaits | apps/web/lib/fetch-client.ts:79-84 | right after such a 401 the request is being served |
| TokenRefresh.Session.RefreshTokens | apps/web/lib/fetch-client.ts:121-126 | joins the refresh under way, or sends one with the client's token |
| TokenRefresh.Session.Receive | apps/web/lib/fetch-client.ts:79-84 | the request waits afterwards if and only if this was its first fetch, answered 401, it does not skip authentication and there is a token; otherwise it is done and no refresh is sent |
| TokenRefresh.Session.CompareToken | apps/api/src/auth/auth.service.ts:86-96 | the server's comparison takes the model's step and accepts exactly when the session exists |
| TokenRefresh.Session.StoreNextToken | apps/api/src/auth/auth.service.ts:98-106 | storing the next token takes the model's step and keeps the invariant even after a logout in between |
| TokenRefresh.Session.ReceiveTokens | apps/web/lib/fetch-client.ts:138-142 | storing the new pair, or rejecting, takes the model's step |
| TokenRefresh.Session.Continue | apps/web/lib/fetch-client.ts:83-101 | a request that awaited a refresh retries with at most two fetches in all, or clears the tokens |
| Analytics.RoundDivIsNearest | apps/api/src/analytics/analytics.service.ts:73-79 | the rounded quotient is the nearest integer, a half upwards |
| Analytics.DaysAreUtc | apps/api/src/analytics/analytics.service.ts:287-299 | a day is a span of 86,400,000 milliseconds from the epoch, and the loop makes one bucket for each such span after the start that has begun by the end |
| Analytics.GroupByDay | apps/api/src/analytics/analytics.service.ts:279-309 | each day's bucket counts exactly the deployments, successes and failures of that day |
| Analytics.BucketMeaning | apps/api/src/analytics/analytics.service.ts:296-304 | a bucket's total, successes and failures are the numbers of rows started on its day, of those flagged as successes and of those FAILED |
| Analytics.TotalsAreConserved | apps/api/src/analytics/analytics.service.ts:296-304 | the totals of consecutive buckets add up to the deployments whose day is among them |
| Analytics.RangeIsCovered | apps/api/src/analytics/analytics.service.ts:287-293 | the day loop covers every instant of the range exactly when the range does not end earlier in the day than it begins |
| Analytics.ThirtyDays | apps/api/src/analytics/analytics.service.ts:10-11 | the dashboard's range gives 31 strictly increasing days whose totals add up to all its deployments |
| Analytics.ComputeBuildTimeTrend | apps/api/src/analytics/analytics.service.ts:311-339 | the average kept incrementally is the rounded mean duration of each day's successes, 0 on days without any |
| Analytics.AverageMeaning | apps/api/src/analytics/analytics.service.ts:324-333 | a day's average is the integer nearest to its summed durations over the number of its timed successes, and 0 if there are none |
| Analytics.DurationsNext | apps/api/src/analytics/analytics.service.ts:324-333 | a row adds its duration to the sum of its own day exactly when it succeeded and has one |
| Analytics.SuccessRateMeaning | apps/api/src/analytics/analytics.service.ts:81-91 | the rate is 100 when nothing completed, and otherwise the integer nearest to 100 times the flagged rows over those READY, EXPIRED or FAILED |
| Analytics.SuccessRateIsAPercentage | apps/api/src/analytics/analytics.service.ts:81-91 | on consistent rows the rate is in 0..100 if and only if nothing completed or 200 times the superseded minus the failed is below the completed |
| Analytics.RateAbove100 | apps/api/src/analytics/analytics.service.ts:81-91 | a run of two pushes that leaves one READY and one SUPERSEDED row and a rate of 200 |
| Analytics.DashboardOfAnyRun | apps/api/src/analytics/analytics.service.ts:69-91 | for any selection of rows of any run: success plus failed is at most total, every success has a duration, and without superseded rows the rate is a percentage |
| Ports.DecimalRoundTrip | apps/worker/internal/worker/worker.go:568-575 | parsing the decimal text of an integer gives it back exactly when it fits the width |
| Ports.DecimalExamples | apps/worker/internal/worker/worker.go:568-575 | base ten, most significant digit first; a sign and leading zeros are read, other characters are not |
| Ports.IntToString | apps/worker/internal/logging/logger.go:235-252 | the digit loop prints decimal text and parses back, for every 64-bit integer but the smallest |
| Ports.ResolvePort | apps/worker/internal/worker/worker.go:568-575 | the number read from PORT if that is in 1..65535, and 3000 if it is not, is no number or is missing |
| Ports.RequestedPort | apps/worker/internal/worker/worker.go:568-575 | a job whose PORT is the decimal text of a number in 1..65535 gets exactly that port |
| Ports.MergeEnvVars | apps/worker/internal/builder/env.go:61-71 | the nested loops give the maps merged left to right |
| Ports.MergedMeaning | apps/worker/internal/builder/env.go:61-71 | a key is present exactly when some map has it, with the value of the last such map |
| Ports.FrameworkVariables | apps/worker/internal/builder/env.go:73-112 | which variables each framework gets, and that every port variable holds the port and every host variable 0.0.0.0 |
| Ports.RuntimePortIsCoherent | apps/worker/internal/worker/worker.go:413-417 | the runtime map resolves to the job's port again, every framework port key carries its text, and the job's other keys are untouched |
| Ports.BuildRuntimeEnv | apps/worker/internal/worker/worker.go:413-417 | the assembled map is the specified one, with PORT set last |
| Ports.ContainerEnv | apps/worker/internal/k8s/deployment.go:40-49 | whatever the map's order, the list names each variable once and lists exactly the map with the defaults for PORT and NODE_ENV |
| Ports.DefaultsMeaning | apps/worker/internal/k8s/deployment.go:40-49 | the job's own variables win; PORT and NODE_ENV are filled in exactly where they are missing |
| Ports.ContainerSeesItsPort | apps/worker/internal/k8s/deployment.go:40-49 | exactly one entry is named PORT and it parses to the container port; a job that asks for a port in 1..65535 gets a container that reads that port |

## Left out

- Handlers run as one atomic step, all or nothing: two creates that interleave between read and
  insert, a crash between the insert and the push, and a webhook that serves several projects from
  one earlier read are not modelled.
- A failed call has no effect; a call that takes effect and then times out is not modelled.
- PipelineExpiry.FetchedAgain: each owner's TTL is fixed for the run; a user may change it between two cycles.
- The poll schedule of the log view (every two seconds while live, once more when no longer live): a poll may
  come at any time; `TwoPollsShow` takes the two polls of a finished deployment as given.
- Time is one clock for API, Redis and worker, and `startedAt` is strictly increasing.
- The user-facing route that writes any status (`deployments.service.ts`, `updateStatus`) is not a step.
- Eligibility checks before a deployment is created (ownership, git accounts, auto-deploy, branch),
  the project's online status and notifications.
- Crashes and shutdown of the worker in the middle of a job, and queue entries that are not valid JSON.
- The pipeline's state holds no cluster resources: cleanup goes by project name, so READY does not
  imply live resources; `Cluster.dfy` treats Deploy and Cleanup on their own.
- Jobs without a non-empty domain, for which the worker indexes an empty list of URLs.
- Project creation and deletion, the second name sanitizer in `worker.go`, generated deployment URLs.
- Kubernetes, Redis, the database, DNS and HTTP are atomic effects that succeed or are refused; what
  the cluster objects hold beyond names, hosts and ports is left out, and so is the readiness wait.
- Names, hosts and log text are over ASCII: no Unicode case folding or white space.
- StreamLogger.Logger.AutoFlush: whether the flush interval has passed is a parameter; goroutines are modelled as the order
  of their locked sections and of their completions.
- LogViewer.InvAlways: the drip interval is fixed, and the view is not switched to another deployment or source while a
  request is out; a late response would then be appended to the new view.
- LogViewer.PageSize: what the database does with the negative page size is not modelled; the hook always asks for 200.
- LogStreams: reading a pod's log, reconnecting and the timestamp prefix are left out.
- TokenRefresh.AgreeWhenIdle: one client, every refresh response is delivered, and no other login rotates the
  server's token; tokens are opaque values, so hashing and signatures are left out.
- Analytics.GroupByDay: days are UTC days and quotients exact rationals, so a local clock change and the floating-point
  result at an exact half are not captured; counts taken directly by the database are left out.
- Ports: tables of start commands, build variables and framework detection; masking of values in logs.
