# Bifrost control plane: a verified model

Bifrost is a control plane for Ray clusters, jobs and services. This project models the parts of
`internal/api` and `internal/auth` where the logic is hardest, and proves what they keep over every input,
every interleaving or every run.

| module | what it models |
|---|---|
| `RateLimit` | the login token bucket with its idle sweep |
| `Resources`, `QuotaAdmission` | quota arithmetic and the lock, list, admit, upsert protocol of cluster creation |
| `Services` | serve deployments: the per-project cap and the serving ledger |
| `WsBridge`, `GatewayInflight` | the websocket bridge (two pumps, watchdog, one-shot stop) and the inflight permits |
| `PackageNames`, `RuntimeEnv` | package-name normalization, pinned requirements, the runtime_env validator, timeout injection |
| `EnvironmentCatalog`, `EnvironmentResolve` | the environment lifecycle; compilation and resolution of an entry |
| `ScanGate`, `JobPinning` | what a recorded scan verdict covers; the document a job carries |
| `MountPaths`, `Storage` | the reserved-path test and where paths lead; the storage catalog, profile expansion, section-replace policy edits |
| `PolicyRow` | the stored policy: seed-if-absent, and edits that read and later write, in every interleaving |
| `Namespaces` | the project to namespace map against pool allocations |
| `Rbac`, `TenantBoundary`, `GatewayDispatch` | roles and scopes, the two tenant decisions, the two-layer dispatch |
| `AuditCsv` | the audit export against a parser of section 2 of RFC 4180 |
| `Prelude` | `Option`, `Result`, `Distinct` |

Loops and objects of the source are methods and classes here, each proved against a function of its inputs;
concurrent code is a step system in which every interleaving of the steps is a run. Abstracted to parameters:
the clock (a time per call), the store (a map, with failing lookups where the code handles them), token
validation and URL host parsing (function parameters), YAML text (a decoded tree and a byte size, with the
rendered size a function parameter), and the iteration order of Go maps (an arbitrary choice in each loop).
`dafny verify dfyconfig.toml` checks everything.

## Where the code does not do what is said of it

In each case the model follows the code; a lemma shows a failing input and another gives the exact condition.

- The limiter's "an idle bucket has refilled to full, so dropping it loses nothing" holds exactly when
  `burst <= 10 * ratePerMinute`; the constructor accepts other values (`RateLimit.RateBoundIff`,
  `RateLimit.SweepInvisibleIff`). The clock is read before the lock is taken, and a race there lets a client exceed the
  rate of a time window, whatever the configuration (`RateLimit.ClockRaceIff`).
- The idle watchdog is said to be reset by any frame. A pump takes the time and stores it after the read, and two pumps
  share the variable, so it can fire early (`WsBridge.LateStoreFires`, `WsBridge.QuietIffCovered`).
- Resume checks no quota: it keeps the project within quota exactly when the resumed demand still fits
  (`QuotaAdmission.ResumeKeepsIff`, `QuotaAdmission.ResumeOvercommits`).
- A null escape hatch passes the catalog edit, and compiling an entry that pairs it with packages or variables
  writes into a nil map (`EnvironmentResolve.NullHatchCrashes`, `EnvironmentResolve.AcceptedEntriesResolve`).
- Validating a resolved document again is described as idempotent. It is, up to the byte cap: injecting the
  timeout lengthens the document, and the job is then refused (`JobPinning.InjectionOverflows`; exactly when,
  `JobPinning.SamePolicyAccepts`).
- An edit that changes scanned content is said to drop the verdict. The hatch, which may hold the package list, is not
  compared, so a stale clean verdict can ride onto other packages (`ScanGate.StaleVerdictRides`,
  `ScanGate.VerdictCoversIff`).
- A profile's storage is checked so that a dangling name never surfaces on somebody's create. A create reads the
  policy twice, and an edit in between can still do that (`PolicyRow.DroppedBetweenReads`, `Storage.ExpandedResolves`).
- Publish metadata is said to ride along with a deprecation; what is stored is only what the edit itself carries
  (`EnvironmentCatalog.PublishRecord`, `EnvironmentCatalog.DeprecationCanDropRecord`).
- Deleting a pool keeps its allocations in every store backend, so the namespace map and the allocations can
  come to disagree when the pool is created again (`Namespaces.RevivedPoolDisagrees`, `Namespaces.StepAgreesIff`).
- A policy edit reads the row and writes it later without holding it: edits of different sections can undo
  each other (`PolicyRow.ConcurrentEditsLose`, `PolicyRow.EditLandsIff`), and a stale edit can republish a deprecated
  environment and leave the audit trail out of balance (`PolicyRow.StaleEditRepublishes`,
  `EnvironmentCatalog.LandingLegalIff`, `EnvironmentCatalog.EventsBalanceIff`). What holds regardless: every row that
  lands was checked whole (`PolicyRow.LandedRowsAreSound`, `PolicyRow.EnvironmentsStayTidy`).
- The gateway and the control plane disagree on a cluster row with neither project nor owner
  (`TenantBoundary.GatewayAgreesIff`, `TenantBoundary.GatewayDisagrees`).
- Reserved mount points are said to be neither taken nor shadowed. The test compares text: `//tmp` is taken and
  `/home`, the parent of Ray's home, is accepted (`MountPaths.ReservedGetsThrough`); the exact condition is the same
  test on the cleaned path, and `/home` (`MountPaths.CleanedDecides`, `MountPaths.PlainClashesIff`). For the same reason
  two entries can share a directory (`Storage.AliasedMounts`, `MountPaths.CleanedSamePlace`).
- The audit export ends lines with LF where RFC 4180 asks for CRLF; the parser here accepts both.

## Model

| member | source | states |
|---|---|---|
| `RateLimit.LoginRateLimiter.constructor` | internal/api/ratelimit.go:61-68 | starts with no bucket; ten minutes of refill cover the burst iff burst is at most ten times the rate per minute |
| `RateLimit.LoginRateLimiter.Allow` | internal/api/ratelimit.go:71-95 | verdict and whole new state of one call: sweep when due, refill up to the cap, take a token or deny |
| `RateLimit.LoginRateLimiter.SweepLocked` | internal/api/ratelimit.go:98-105 | drops exactly the buckets idle longer than ten minutes |
| `RateLimit.AllowedWithinPotential` | internal/api/ratelimit.go:71-105 | over any run one key is allowed at most what its bucket holds plus the refill of the forward clock movement |
| `RateLimit.RateBound` | internal/api/ratelimit.go:71-105 | after any history, any stretch of calls allows one key at most burst plus rate times elapsed, whatever other keys and sweeps are interleaved |
| `RateLimit.WindowBound` | internal/api/ratelimit.go:71-105 | with a nondecreasing clock, every time window allows at most burst plus rate times its length |
| `RateLimit.WindowBoundIff` | internal/api/ratelimit.go:57-105 | with a nondecreasing clock the window bound holds on all runs iff ten minutes of refill cover the burst |
| `RateLimit.ClockRaceIff` | internal/api/ratelimit.go:71-95 | with clock readings in any lock order it holds on all runs iff the burst is zero: a late reading refills the same seconds twice under every other configuration |
| `RateLimit.RateBoundIff` | internal/api/ratelimit.go:57-105 | the rate bound holds on all runs iff ten minutes of refill cover the burst |
| `RateLimit.SweepInvisibleIff` | internal/api/ratelimit.go:57-105 | the sweeping limiter answers every call of every run like one that never sweeps iff ten minutes of refill cover the burst |
| `RateLimit.DeniedChangesNothing` | internal/api/ratelimit.go:71-95 | after any history a denied call changes no later verdict, of any key, allowed or denied |
| `RateLimit.DeniedLeaveNoTrace` | internal/api/ratelimit.go:90-92 | so leaving out every denied call of a run leaves the others all allowed |
| `RateLimit.KeptAreRecent` | internal/api/ratelimit.go:75-105 | after any run every bucket still kept was used in the last eleven minutes |
| `Resources.List` | internal/controller/store_memory.go:161-169 | a listing has every row once, in any order |
| `Resources.SumInUse` | internal/api/clusters.go:560-575 | the accumulation loop, skipping other projects, the request's own row and rows not running |
| `Resources.InUseFailsClosed` | internal/api/clusters.go:566-573 | the sum exists iff every counted stored spec parses |
| `Resources.InUseIsUsage` | internal/api/clusters.go:560-575 | per resource the sum is the store's running demand of the project without the request's own row, in whatever order rows are listed |
| `Resources.AdmissionDecides` | internal/policy/policy.go:398-408 | admission accepts iff for every resource usage plus request stays within the limit, an unlisted resource counting as zero |
| `QuotaAdmission.QuotaSection` | internal/api/clusters.go:548-580 | the locked section admits iff every counted row parses and the demand fits next to the rows as listed |
| `QuotaAdmission.UpsertRecords` | internal/controller/store_memory.go:109-145 | the write leaves the requested project and demand, running unless the row was suspended, a terminated row brought back, every other row as it was |
| `QuotaAdmission.RowStepsRecord` | internal/controller/store_memory.go:171-206 | terminate, suspend, resume and purge change the row they name and no other, and of it the desired state alone |
| `QuotaAdmission.UndisturbedIff` | internal/api/clusters.go:548-602 | a create that nothing disturbs reaches its write iff its demand fits beside the project's other running rows |
| `QuotaAdmission.WriteFits` | internal/api/clusters.go:548-602 | an admitted upsert keeps the project within quota although the list it decided on may be stale |
| `QuotaAdmission.StepKeeps` | internal/api/clusters.go:331-344 | every step but resume keeps the lock discipline, the over-counting of stale lists and the quotas |
| `QuotaAdmission.NeverOverQuota` | internal/api/clusters.go:548-602 | in every interleaving of any number of creates with terminate, suspend and purge steps, every quota holds at every moment |
| `QuotaAdmission.ResumeKeepsIff` | internal/api/clusters.go:779-836 | a resume keeps all quotas iff the resumed demand still fits |
| `QuotaAdmission.ResumeOvercommits` | internal/api/clusters.go:826-826 | a run of the protocol (suspend, create in its place, resume) that starts within quota and ends over it |
| `Services.Server.CountLive` | internal/api/services.go:431-438 | counts exactly the project's non-terminated services of other names |
| `Services.Server.Admit` | internal/api/services.go:318-373 | the serving verdict: no allocation admits, unparseable specs refuse, otherwise every resource must fit the nominal |
| `Services.Server.Deploy` | internal/api/services.go:193-284 | outcome and new table of a deploy: cap, then ledger, then upsert; accepted, the row has the requested project and demand and runs unless it was suspended; no other row changes, and a refusal changes none |
| `Services.Server.Delete` | internal/api/services.go:381-413 | accepted iff the service exists; its row is then terminated and otherwise as it was, and no other row changes |
| `Services.DeployAcceptedIff` | internal/api/services.go:318-450 | a deploy is accepted iff the project's live services of other names leave room under the cap and, where it has a serving allocation, every spec involved parses and every resource fits |
| `Services.DeployRecords` | internal/controller/store_memory.go:880-906 | what an accepted deploy leaves, over the table alone; a terminated service comes back running |
| `Services.DeleteRecords` | internal/api/services.go:381-413 | what a delete leaves, over the table alone |
| `Services.DeployKeepsCap` | internal/api/services.go:422-450 | an accepted deploy keeps every project's count within the cap, redeploys that move project included |
| `Services.DeployKeepsLedger` | internal/api/services.go:318-373 | an accepted deploy keeps every project's running demand within its nominal |
| `Services.RunsKeepCapAndLedger` | internal/api/services.go:193-450 | every run of deploys and deletes keeps caps and ledgers |
| `Services.RedeployAfterDelete` | internal/api/services.go:422-450 | deleting a live service makes room: the next deploy is not refused for the cap |
| `WsBridge.BridgeSafety` | internal/api/gateway_ws.go:190-263 | in every schedule frames written to a side are a prefix of those read from the other with at most one in flight, no connection is closed twice, and on return both are closed once and all three goroutines are done |
| `WsBridge.DeliversEverything` | internal/api/gateway_ws.go:204-226 | for all frames either peer may send, some schedule delivers every one of them to the other side, in order, and leaves both pumps reading and both sides open |
| `WsBridge.HeldIsDelivered` | internal/api/gateway_ws.go:219-219 | wherever a pump holds a frame and the other side is open, a next step appends exactly that frame there and returns the pump to reading |
| `WsBridge.IdleCloses` | internal/api/gateway_ws.go:243-257 | once idle for the timeout the watchdog can close both sides by its own steps alone, each once |
| `WsBridge.LastStopIsNoOp` | internal/api/gateway_ws.go:259-262 | the final stop never runs the close itself |
| `WsBridge.RankFalls` | internal/api/gateway_ws.go:190-263 | no step raises the rank, and every step but relaying and clockwork (the clock and the watchdog's polls) lowers it |
| `WsBridge.TeardownRankFalls` | internal/api/gateway_ws.go:190-263 | once either connection is closed, whichever it is, relaying lowers its rank too |
| `WsBridge.NeverStuck` | internal/api/gateway_ws.go:190-263 | until the bridge returns some step is due once anyone has begun to stop it |
| `WsBridge.TeardownFinishes` | internal/api/gateway_ws.go:190-263 | once any party calls stop at most eleven steps besides relaying and clockwork remain, at most sixteen besides clockwork once either side is closed, and a run that ends with no step due has returned |
| `WsBridge.ClosedIsStopping` | internal/api/gateway_ws.go:207-224 | a connection is closed only with or after a call of stop |
| `WsBridge.WatchdogWaits` | internal/api/gateway_ws.go:202-257 | in every schedule the watchdog fires only a full idle timeout after the reading that was last stored when it loaded the variable |
| `WsBridge.QuietIffCovered` | internal/api/gateway_ws.go:228-257 | firing guarantees, at every timeout, that no frame was read for that long iff no frame was read after the compared reading was taken |
| `WsBridge.SettledReadingsCover` | internal/api/gateway_ws.go:207-257 | so it does when no pump stood between read and store at the load, no older reading was stored over a newer one, and none read a frame since the load |
| `WsBridge.LateStoreFires` | internal/api/gateway_ws.go:210-219 | a schedule in which a late store makes it fire half a timeout after a frame |
| `GatewayInflight.Permits.TryAcquire` | internal/api/gateway.go:205-212 | takes a permit iff one is free, and never waits |
| `GatewayInflight.Permits.Release` | internal/api/gateway.go:208-208 | gives one permit back |
| `GatewayInflight.NeverMoreThanMax` | internal/api/gateway.go:244-265 | open handlers equal permits taken and never exceed the limit; a request is turned away iff the limit is reached and is otherwise opened as the kind it is; a finished handler's release never blocks |
| `PackageNames.NormalizePackageName` | internal/api/runtimeenv.go:356-372 | the loop joins the lower-cased words between separators with single dashes |
| `PackageNames.NormalizeNormal` | internal/api/runtimeenv.go:354-372 | the result has no capital, underscore or dot, no double dash and no edge dash, and normalizing again changes nothing |
| `PackageNames.NormalizeRespectsPep503` | internal/api/runtimeenv.go:354-372 | names equal under PEP 503 normalize alike |
| `PackageNames.NormalizeIff` | internal/api/runtimeenv.go:354-372 | names normalize alike iff PEP 503 makes them equal, edge separators apart |
| `PackageNames.NormalIsFixed` | internal/api/runtimeenv.go:354-372 | a name already in normal form is left alone, whatever its other characters |
| `PackageNames.FoldIff` | internal/api/runtimeenv.go:357-357 | lower-casing makes two names equal iff they differ in the case of letters only |
| `PackageNames.PinnedIff` | internal/api/runtimeenv.go:156-160 | the recognizer accepts exactly name, optional extras, `==`, version |
| `PackageNames.PinnedHasName` | internal/api/runtimeenv.go:341-352 | every pinned entry has a non-empty package name, the normalized part before extras and version |
| `PackageNames.RequirementName` | internal/api/runtimeenv.go:341-352 | the name of a requirement is the name it begins with, whatever follows and whatever blanks surround it, unless it holds a URL |
| `RuntimeEnv.Validate` | internal/api/runtimeenv.go:166-212 | accepts iff the document is blank, or within the byte cap and every field passes, in whatever order the map is visited; a reported field does fail |
| `RuntimeEnv.ValidMeans` | internal/api/runtimeenv.go:166-212 | for every policy, on the trees: blank, or within the byte cap and null or a governed mapping |
| `RuntimeEnv.PolicyAdmits` | internal/api/runtimeenv.go:180-315 | for every policy, which fields it permits and what each may hold: switches, requirements, options, string variables, bounded timeout, local or listed URIs |
| `RuntimeEnv.TimeoutMeans` | internal/api/runtimeenv.go:502-550 | a value passes as the setup timeout iff it is an integer or a whole float from 1 to the cap, the cap being 600 where the policy sets none |
| `RuntimeEnv.AcceptedTimeout` | internal/api/runtimeenv.go:502-550 | so every accepted document's timeout is such a value, and a document holding only such a value is accepted |
| `RuntimeEnv.UriMeans` | internal/api/runtimeenv.go:451-469 | a URI passes iff it is no scheme://rest, or its scheme and its host are both listed, whatever their case |
| `RuntimeEnv.EntryVerdict` | internal/api/runtimeenv.go:317-381 | a requirement for a plain name passes iff PEP 503 identifies the name with no denied one and it is pinned where pins are asked for |
| `RuntimeEnv.CheckPipInstallOptions` | internal/api/runtimeenv.go:399-435 | the consuming loop computes the left-to-right scan |
| `RuntimeEnv.ScanIffEveryPosition` | internal/api/runtimeenv.go:395-446 | the scan accepts iff every index option at every position has an allowed-host value, given that no text starting with a dash has a host |
| `RuntimeEnv.ScanMeans` | internal/api/runtimeenv.go:383-446 | on the text of the options: each of pip's index options, in any case, needs listed hosts, and each but --pre a URL at one, after its equals sign or as the next item |
| `RuntimeEnv.DefaultAdmits` | internal/api/runtimeenv.go:27-31 | the zero policy admits exactly: five fields, pinned packages, no index option, string variables, no scheme://rest, a setup timeout that is an integer or whole float from 1 to 600 |
| `RuntimeEnv.ValidMonotone` | internal/api/runtimeenv.go:166-212 | a wider policy never refuses a document accepted before |
| `RuntimeEnv.DeniedIsRefused` | internal/api/runtimeenv.go:317-352 | every requirement, pinned or not, whose name part is a PEP 503 spelling of a denied name is refused, whatever else is permitted |
| `RuntimeEnv.DeniedPinIsRefused` | internal/api/runtimeenv.go:317-335 | in particular every pinned form of it, with any extras and any version |
| `RuntimeEnv.DenylistSpelling` | internal/api/runtimeenv.go:374-381 | respelling denylist entries within PEP 503 equivalence changes no verdict |
| `RuntimeEnv.EnforceSetupTimeout` | internal/api/runtimeenv.go:235-261 | the map edit adds the policy's default timeout only where a non-empty document sets none |
| `RuntimeEnv.EnforceSound` | internal/api/runtimeenv.go:214-261 | after injection an accepted document is still accepted, its timeout is in 1..cap and where injected is the smaller of 600 and the cap, nothing else changed, a set timeout is untouched, and injecting again is a no-op |
| `EnvironmentCatalog.EnvironmentsFromWire` | internal/api/environments.go:135-216 | accepts exactly catalogs of admissible, distinctly named entries, keeps name, image, packages, variables, hatch, projects and publish fields as sent, and names the first offender |
| `EnvironmentCatalog.WireOkIff` | internal/api/environments.go:135-216 | an entry is admissible iff its name is a label of at most 63 characters, status and scan are of the named texts, packages are pinned, no variable or project is nameless, and its hatch is default-governed and repeats no structured field |
| `EnvironmentCatalog.StepIff` | internal/api/environments.go:265-340 | an edit is accepted iff its entries are admissible, differently named, and make moves allowed from the stored status, with a known publisher for a publish |
| `EnvironmentCatalog.StoredAsSent` | internal/api/environments.go:152-212 | an accepted edit stores every field as sent, the status its text names, and the scan its text names iff packages and image are unchanged or the entry is new |
| `EnvironmentCatalog.PublishRecord` | internal/api/environments.go:286-329 | who and when an accepted edit records: the caller on a publish, the stored fields where an edit of a published entry leaves them out, the edit's own on a deprecation |
| `EnvironmentCatalog.ByName` | internal/api/environments.go:266-269 | indexes the stored catalog, last entry winning |
| `EnvironmentCatalog.Transition` | internal/api/environments.go:273-337 | one entry: refused iff the move is illegal or a published entry lacks its record; otherwise the settled entry and its event |
| `EnvironmentCatalog.ApplyEnvironmentTransitions` | internal/api/environments.go:265-340 | the whole edit is accepted iff every entry is; result, events in order, first offender |
| `EnvironmentCatalog.NoShortCutIff` | internal/api/environments.go:226-257 | a history has no short cut for a name (no forbidden move without a third status or removal in between) iff every single landing moves it legally |
| `EnvironmentCatalog.NoShortCut` | internal/api/environments.go:226-257 | none where every edit lands on the catalog it read: between deprecated and published a name is draft or absent, and so for the other two forbidden moves |
| `EnvironmentCatalog.LandingLegalIff` | internal/api/settings.go:755-778 | an edit moves every name legally iff its entries pass the transition check against the catalog they land on |
| `EnvironmentCatalog.EditEstablishes` | internal/api/environments.go:254-257 | after any accepted edit published entries carry both publish fields, drafts neither, contents are sound and names unique |
| `EnvironmentCatalog.DeprecationCanDropRecord` | internal/api/environments.go:243-244 | an accepted deprecation after which no publisher is recorded |
| `EnvironmentCatalog.VerdictAttestsContent` | internal/api/environments.go:330-336 | a scan verdict that survives an edit was supplied by it, and the packages field and base image did not change |
| `EnvironmentCatalog.AnnouncedExactly` | internal/api/environments.go:265-340 | an edit announces exactly the names it published and exactly those it deprecated |
| `EnvironmentCatalog.EventsBalanceIff` | internal/api/environments.go:265-340 | the audit trail of any race of edits balances iff, over all landings, as many of the names carried were published when read as when landed |
| `EnvironmentCatalog.EventsBalance` | internal/api/environments.go:265-340 | so where every edit lands on the catalog it read: published now plus deprecate events plus published entries removed equals published at the start plus publish events |
| `EnvironmentResolve.CompileEnvironment` | internal/api/environments.go:388-420 | the merge of hatch, packages and variables, its decode failure and its nil-map crash |
| `EnvironmentResolve.CompilesToUnion` | internal/api/environments.go:349-420 | an accepted entry compiles iff it does not pair a null hatch with structured fields, and then to the conflict-free union of both |
| `EnvironmentResolve.CompiledFieldsOk` | internal/api/environments.go:135-216 | an accepted entry's document passes the default's field checks |
| `RuntimeEnv.FieldsOkUnder` | internal/api/runtimeenv.go:166-212 | any policy refuses a field of a default-admissible document iff it denies one of its packages or caps the timeout below the one set |
| `EnvironmentResolve.ResolveEnvironment` | internal/api/environments.go:487-567 | the outcome for the first entry of that name, each refusal in its order, the resolved document and the image |
| `EnvironmentResolve.ResolutionMeans` | internal/api/environments.go:469-486 | resolves iff the entry is available, published, scanned where required, fits the image, compiles and validates |
| `EnvironmentResolve.FirstMeans` | internal/api/environments.go:494-503 | the entry resolved is the first of that name, and there is none iff no entry has it |
| `EnvironmentResolve.ResolutionAnswers` | internal/api/environments.go:487-567 | each refusal iff its cause holds and no earlier one does; a success carries the name, the entry's image, and as workload image the entry's where it fixes one |
| `EnvironmentResolve.NullHatchCrashes` | internal/api/environments.go:388-411 | a published entry of an accepted edit whose resolution writes into a nil map, in every project and under every policy |
| `ScanGate.ChangedIsUnscanned` | internal/api/environments.go:514-527 | after an edit that changes the packages field or base image a gated reference is refused as unscanned |
| `ScanGate.GateNeedsLaterEdit` | internal/api/environments.go:259-264 | over any race, a clean verdict after such a change was recorded by a later edit together with that content, except that the landing itself may carry it if it had read that content or no entry, and a stale edit of other sections may put an old catalog back |
| `ScanGate.VerdictCoversIff` | internal/api/environments.go:330-336 | a surviving verdict covers the compiled pip field iff the entry lists packages or the hatch's pip field is unchanged |
| `ScanGate.StaleVerdictRides` | internal/api/environments.go:259-264 | two accepted edits after which a gated reference installs a package the echoed clean verdict never saw |
| `EnvironmentResolve.AcceptedEntriesResolve` | internal/api/environments.go:487-567 | under every policy, an entry an accepted edit stored resolves iff selectable, not the null-hatch pair, within the byte cap, with no denied package and no timeout above the cap |
| `JobPinning.BoundedGoverns` | internal/api/rayjobs.go:186-205 | bounding a valid document leaves it governed, changes nothing but a missing timeout, and bounding twice is bounding once |
| `JobPinning.BoundedOnce` | internal/api/runtimeenv.go:235-261 | bounding a bounded document under any other policy changes nothing |
| `JobPinning.FinishRuntimeEnv` | internal/api/rayjobs.go:119-205 | with the policy read once by resolution and again by the job's check: when the job is accepted; the stored document is governed by the later policy and is the one pinned on the resolution; the image on both paths |
| `JobPinning.SamePolicyAccepts` | internal/api/rayjobs.go:173-194 | where the policy is the same the job's check adds the byte cap on the bounded document and nothing else |
| `JobPinning.InjectionOverflows` | internal/api/rayjobs.go:173-194 | for every renderer that writes plain letters one byte each, some publishable environment resolves and its job is refused because the injected timeout passes the byte cap |
| `MountPaths.MountPathReserved` | internal/api/storage.go:43-57 | the prefix test is exactly: root, or the leading components of the text are those of a reserved directory |
| `MountPaths.ExtendsComponentwise` | internal/api/storage.go:52-54 | equal or followed by a slash is the same as a prefix of components |
| `MountPaths.CleanedDecides` | internal/api/storage.go:23-57 | a path leads to, under or above a reserved directory iff the test, put to the cleaned path, refuses it or the cleaned path is `/home` |
| `MountPaths.PlainClashesIff` | internal/api/storage.go:23-57 | of the accepted paths without empty, `.` or `..` components exactly `/home` clashes |
| `MountPaths.ReservedGetsThrough` | internal/api/storage.go:43-57 | `//tmp`, which is the scratch directory, and `/home`, which hides Ray's home, pass the test |
| `MountPaths.CleanedSamePlace` | internal/api/storage.go:183-187 | two paths lead to one directory iff their cleaned forms are equal |
| `MountPaths.PlainSamePlace` | internal/api/storage.go:183-187 | for accepted plain paths iff they are equal but for trailing slashes |
| `Storage.CheckEntry` | internal/api/storage.go:110-200 | accepts exactly the sound entries |
| `Storage.WireOkIff` | internal/api/storage.go:110-200 | an entry is admissible iff its text is: a label of at most 55 characters, a Secret or a claim by name and not both, claims as files only, a mountable path for files and none for variables, no nameless project |
| `Storage.StorageFromWire` | internal/api/storage.go:105-204 | accepts exactly sound entries with no name and, as text without trailing slashes, no mount path twice |
| `Storage.AliasedMounts` | internal/api/storage.go:183-187 | an accepted catalog with two entries on one directory, `/data` and `//data` |
| `Storage.PlainMountsAreSound` | internal/api/storage.go:96-104 | with plainly written paths no two mounts of a workload are one directory and only `/home` clashes |
| `Storage.ResolveStorage` | internal/api/storage.go:226-269 | resolves exactly duplicate-free lists of known, available names, in order |
| `Storage.ResolvesIff` | internal/api/storage.go:226-269 | where catalog names differ, a list resolves iff its names differ and each is that of an entry open to all or to the project |
| `Storage.MergeStorage` | internal/api/profiles.go:150-158 | the merge loop appends the request's names the profile lacks, once each |
| `Storage.AttachedIs` | internal/api/profiles.go:101-107 | expansion keeps the profile's names first and in order, loses no name, repeats none, and is the request's list where the profile has none |
| `Storage.MissingInOrder` | internal/api/profiles.go:152-156 | the names added come in the order the request first asked for them |
| `Storage.ClusterSpec.ExpandProfile` | internal/api/profiles.go:108-165 | succeeds iff project, fixed fields and worker cap agree, and then the whole filled spec |
| `Storage.CompatibleIff` | internal/api/profiles.go:108-165 | a profile can be taken iff the project may use it, no field is set differently by both, worker groups come from one side, and their sum is within its cap |
| `Storage.ExpandedTakesBoth` | internal/api/profiles.go:95-107 | every field the profile fixes and every field the request set is in the result, within the worker cap; time to live and idle timeout are each the request's own, else the profile's |
| `Storage.ProfilesReferenceKnownStorage` | internal/api/settings.go:808-821 | accepts iff every profile names only existing storage |
| `Storage.UpdatePolicy` | internal/api/settings.go:630-774 | on the profile and storage sections: replaces those present, keeps those absent, accepts iff the result is valid |
| `Storage.EditStores` | internal/api/settings.go:630-774 | each section the edit carries is stored as sent, entry by entry, and the other kept |
| `Storage.ExpandedResolves` | internal/api/storage.go:226-269 | an expanded list resolves against any catalog iff the profile's names exist there and are available, the request's are too, and without profile storage are distinct |
| `Storage.WorkloadMounts` | internal/api/storage.go:105-269 | against a well-formed catalog a resolved expanded list has distinct names, mount paths distinct and unreserved as text, the profile's entries first and every requested name |
| `PolicyRow.AnswersWereHeld` | internal/api/settings.go:168-190 | in every interleaving a call answers a value the row held during the call, and none only if the seed is empty and the row was absent |
| `PolicyRow.SeedsOnce` | internal/api/settings.go:178-189 | once a row appeared no seeding changes it |
| `PolicyRow.CallProgress` | internal/api/settings.go:168-190 | a call never waits for another and answers after at most three steps of its own |
| `PolicyRow.LoneCallAnswers` | internal/api/settings.go:168-190 | alone it answers the row, or the seed, which it stores |
| `PolicyRow.LandingWrites` | internal/api/settings.go:693-778 | in every interleaving a landing stores what its edit carries as sent, and of the rest what the edit had read |
| `PolicyRow.EditLandsIff` | internal/api/settings.go:693-778 | an edit keeps the sections it leaves out iff they are still what they were at the moment of the run at which it read them, and otherwise puts the old ones back |
| `PolicyRow.QuietEditsLand` | internal/api/settings.go:693-778 | undisturbed since its first read an edit is a section replace of the current row |
| `PolicyRow.ConcurrentEditsLose` | internal/api/settings.go:693-778 | a run of two reads and two writes of different sections, the first write undone |
| `PolicyRow.LandedRowsAreSound` | internal/api/settings.go:768-778 | after any landing in any interleaving every profile names known storage and both sections are well formed |
| `PolicyRow.UnlandedRow` | internal/api/settings.go:168-190 | until an edit lands the row is the one at the start or the seed |
| `PolicyRow.WorkloadMounts` | internal/api/storage.go:220-269 | the same in every interleaving, with the profile read from the row at one moment and the storage at a later one |
| `PolicyRow.DroppedBetweenReads` | internal/api/rayjobs.go:113-118 | a run in which an edit between the two reads drops the profile's storage and a request that names none is refused |
| `PolicyRow.EnvironmentsStayTidy` | internal/api/environments.go:254-257 | in every interleaving an environments section not there at the start or seeded has its publish fields in order, sound entries and unique names |
| `PolicyRow.HistoryIsRace` | internal/api/settings.go:755-778 | the section's history is a race whose every edit read a catalog the row held, and a run if each landed on what it read |
| `PolicyRow.StaleEditRepublishes` | internal/api/settings.go:693-778 | an interleaving of two accepted edits that republishes a deprecated entry with no draft in between and unbalances the audit trail |
| `Namespaces.Server.NamespacesFromWire` | internal/api/namespaces.go:45-60 | accepts exactly maps of named projects to valid namespaces |
| `Namespaces.Server.AllocationsAgreeWithNamespaces` | internal/api/namespaces.go:79-100 | accepts iff no allocation of an existing pool contradicts the map |
| `Namespaces.Server.UpdateNamespaces` | internal/api/settings.go:679-691 | verdict and new state of a map edit |
| `Namespaces.Server.PutAllocation` | internal/api/pools.go:379-428 | verdict and new state of an allocation put |
| `Namespaces.AcceptsIff` | internal/api/pools.go:379-428 | from agreement a map edit or a put is accepted iff it is well formed and agreement would hold after it |
| `Namespaces.StepLeaves` | internal/controller/store_memory.go:428-485 | a refused request changes nothing, an accepted one only what it names; a deleted pool's allocations stay |
| `Namespaces.StepAgreesIff` | internal/api/namespaces.go:72-78 | a step keeps map and allocations in agreement iff it does not create a pool whose leftover allocations the map contradicts |
| `Namespaces.RunsAgree` | internal/api/namespaces.go:72-78 | agreement survives every run that revives no conflict |
| `Namespaces.EmptiedRunsAgree` | internal/api/namespaces.go:72-78 | agreement survives every run that empties pools before deleting them |
| `Namespaces.RevivedPoolDisagrees` | internal/controller/store_memory.go:428-436 | a run of accepted requests after which they disagree |
| `Rbac.RolesAreSets` | internal/auth/rbac.go:103-174 | the grant table by what each target asks for, admin and audit separation included |
| `Rbac.ScopeCoversOne` | internal/auth/rbac.go:253-281 | a valid scope covers all projects or exactly the one it names |
| `Rbac.Resolve` | internal/auth/rbac.go:561-610 | the nested loops yield the derivations role by role and group by group, first occurrences only |
| `Rbac.ResolvedGrants` | internal/auth/rbac.go:556-610 | a grant is derived iff a group holds the role and names a valid project; none twice, none invalid, none global |
| `Rbac.GroupGrantIff` | internal/auth/rbac.go:556-610 | a caller holds a role in project:name iff the name is well formed and one of its groups is the prefix and the name, or the bare name, and is listed for the role by name or by a star |
| `TenantBoundary.EffectiveAssignments` | internal/api/authz.go:159-204 | the merge loops over group-derived, subject and username rows |
| `TenantBoundary.EffectiveIs` | internal/api/authz.go:153-204 | the result is exactly the grants held: group-derived ones and the stored rows of subject and username that name a role, none where the lookup fails; duplicate-free if the group-derived ones are |
| `TenantBoundary.RoleNames` | internal/auth/rbac.go:228-244 | exactly the five role names parse, each to its role |
| `TenantBoundary.CheckProjectAssignments` | internal/api/authz.go:232-242 | finds a project-scoped grant that licenses the request |
| `TenantBoundary.MemberIs` | internal/api/authz.go:221-242 | that test is holding a grant scoped to exactly the project whose role grants the verb |
| `TenantBoundary.DecideGateway` | internal/api/middleware.go:216-249 | both halves of the gateway decision, fail-closed lookup included; GatewayMeans and RowlessEntryMeans say what it allows |
| `TenantBoundary.GatewayMeans` | internal/api/middleware.go:190-249 | nothing where the lookup fails; else by the stored row's project and owner, or the entry's own project where it is a serve entry or has no row: a grant of that project that licenses the request, or a permitting global role of an admin, of the owner, or where there is neither project nor owner |
| `TenantBoundary.RowlessEntryMeans` | internal/api/middleware.go:216-249 | a serve entry, or one without a row, with a project: allowed iff a held grant scoped to that project licenses the request or an admin asks; without one: iff a global role permits |
| `TenantBoundary.TenantAccessMeans` | internal/api/authz.go:262-276 | inside the boundary iff admin, owner, member of the project by a licensing grant, or, for reads under the override, auditor |
| `TenantBoundary.GatewayAgrees` | internal/api/authz.go:262-276 | on clusters with a project the gateway allows iff the control plane's boundary and verb checks hold |
| `TenantBoundary.GatewayAgreesIff` | internal/api/middleware.go:235-237 | with valid scopes they agree except on a row with neither project nor owner, for a permitted non-admin |
| `TenantBoundary.GatewayDisagrees` | internal/api/middleware.go:235-237 | a developer the gateway admits to such a row and the control plane does not |
| `TenantBoundary.AuthorizeScopedMeans` | internal/api/authz.go:138-151 | the scoped check holds iff a global role permits or a held grant, global or for the project, does |
| `TenantBoundary.GatewayNarrowsScoped` | internal/api/middleware.go:132-147 | whatever the gateway allows the scoped check of the same project allows |
| `TenantBoundary.GrantsOnlyAdd` | internal/auth/rbac.go:357-360 | holding more never turns an allowed request into a refused one |
| `TenantBoundary.AuditorGetsNothing` | internal/api/middleware.go:144-146 | a caller holding only auditor is never let through |
| `GatewayDispatch.ProxiedWasAuthorized` | internal/api/middleware.go:375-419 | under any registry and store changes a proxied request was authenticated and authorized for exactly that endpoint, which its host resolved to, on a cluster row and assignments each read from the store at a later moment, in order |
| `GatewayDispatch.PublicNeverProxied` | internal/api/gateway.go:231-265 | without a valid token a request is never proxied, and is served only if public |
| `GatewayDispatch.UndisturbedDecides` | internal/api/middleware.go:375-419 | the bearer of a valid token, undisturbed, is passed with its pin iff the decision on the store as it is allows it, and else refused |
| `GatewayDispatch.PassedIsProxied` | internal/api/gateway.go:231-265 | passed with a pin it is proxied there under its identity unless the gateway is full, whatever the registry holds by then |
| `GatewayDispatch.OwnTrafficIsServed` | internal/api/middleware.go:375-419 | a request to an unregistered host is served iff public or from the bearer of a valid token |
| `GatewayDispatch.PassedIsNeverProxied` | internal/api/gateway.go:224-250 | a request passed as control-plane traffic stays that |
| `GatewayDispatch.LookingUpAgainProxiesPublic` | internal/api/middleware.go:287-294 | dispatch that resolves the host again would proxy a public request |
| `AuditCsv.IsFormula` | internal/api/audit.go:42-50 | finds a formula lead after skipped blanks |
| `AuditCsv.CsvField` | internal/api/audit.go:41-66 | appends the guarded, quoted field |
| `AuditCsv.RenderAuditCsv` | internal/api/audit.go:111-153 | the loops write header and records |
| `AuditCsv.TableRoundTrip` | internal/api/audit.go:111-153 | any header of plain words and any table of non-empty records parses back to itself, guards apart |
| `AuditCsv.ExportRoundTrip` | internal/api/audit.go:111-153 | the export parses to the header and one fourteen-cell record per row, each cell the guarded original, and no cell has one of the four formula signs with only blanks before it |
| `AuditCsv.ColumnsMatchHeader` | internal/api/audit.go:113-143 | in the parsed export the cell under each of the fourteen headings is that row's own field, guarded |
| `AuditCsv.RowsDecode` | internal/api/audit.go:111-153 | every parsed record gives back its row: present texts guarded, absent ones empty, numbers as their digits read, roles apart at the semicolons where no role holds one |
| `AuditCsv.GuardIff` | internal/api/audit.go:42-53 | a value is guarded iff its first character past blanks is a formula sign, and is otherwise untouched |
| `AuditCsv.GuardCollision` | internal/api/audit.go:51-53 | two values export alike iff equal or one is the other's guarded form |
| `AuditCsv.NumbersSurvive` | internal/api/audit.go:128-130 | sequence number and timestamp read back as written |

## Left out

- Float rounding, NaN and infinities: tokens, amounts and YAML floats are reals.
- Unicode case folding: lower-casing and comparison without case are modelled on ASCII letters.
- YAML parsing and rendering, regular expressions and URL parsing: replaced as described above.
- RuntimeEnv.ScanIffEveryPosition: assumes of host parsing that no text starting with a dash has a host.
- RuntimeEnv.ScanMeans: under the same assumption.
- EnvironmentCatalog.NoShortCut: for edits that land on the catalog they read, as when handlers run one at a time; EnvironmentCatalog.NoShortCutIff and EnvironmentCatalog.LandingLegalIff say exactly when else.
- EnvironmentCatalog.EventsBalance: under the same assumption; EnvironmentCatalog.EventsBalanceIff is for every race.
- ScanGate.StaleVerdictRides: assumes that the one-line document renders within the byte cap.
- JobPinning.InjectionOverflows: assumes of rendering what it lists, one byte per plain letter and a longer document with the timeout in it.
- MountPaths.CleanedDecides: follows `..` and drops empty and `.` components as text; symbolic links in the image are not modelled.
- TenantBoundary.GatewayAgreesIff: assumes the stored scopes are grammar-valid, as the writers check.
- Services.RunsKeepCapAndLedger: for handlers run one at a time; the serving path releases its lock before the upsert.
- Services.Server.Deploy: authorization, caller scope and storage resolution of the handler come before what is modelled.
- Services.Server.Delete: so do authorization and caller scope here.
- QuotaAdmission.NeverOverQuota: one process, fixed quotas, clusters only; job admission and time-windowed budgets are not modelled.
- JobPinning.FinishRuntimeEnv: the runtime-env part of finishing a job; image, shape and admission checks are not part of it.
- Storage.UpdatePolicy: the profile and storage sections; the shape checks of a profile and the other sections' validators would only add easy members.
- Storage.ClusterSpec.ExpandProfile: says nothing of the spec after a refusal, which the caller discards.
- Namespaces.RunsAgree: for handlers run one at a time; the checks of a map edit and of an allocation put are not atomic with their writes.
- Namespaces.EmptiedRunsAgree: under the same assumption.
- Namespaces.Server.PutAllocation: the GPU isolation verdict is a parameter, and the allocation's own field checks, which name no namespace map, are not part of it.
- runtimeEnvPolicyFor and the other per-project inheritance lookups: effective rules are a parameter.
- HTTP transport, websocket framing, header handling, login flows, metrics, the CLI and the store backends' own code.
- The audit trail's hash chain, usage samples and resource-hours.
