# npmfilter: the filtering core, modelled and proved

npmfilter sits between npm clients and a registry. It removes from every package document
(packument) the versions a policy withholds, keeps a trust-on-first-use ledger of version hashes,
records what it withheld, and lets an operator approve versions over a control socket. This
project models that core in Dafny and proves what it is relied on for.

The modules follow the program:

- `Policy`, `Semver`, `Filter`: the gates on one version, the order that picks a replacement tag,
  and the rebuilt document (`src/policy/mod.rs`, `src/proxy/shape.rs`).
- `Ledger`, `Audit`, `Database`, `Store`, `MemoryLedger`: the tables as maps and sequences, every
  storage operation with a fault schedule that lets any operation fail, the store class that
  updates them in place, and the in-memory reference ledger (`src/store/mod.rs`,
  `src/policy/memory.rs`).
- `Request`, `OneByOne`, `Runs`, `Interleaving`, `Schedules`: one request end to end, the batch
  against the engine that observes version by version, every run of storage steps and requests, every
  interleaving of concurrent evaluations at storage-operation granularity, and what its schedules mean
  for the evidence and the audit log (`src/proxy/mod.rs`).
- `Approvals`: `allow` and `seed`, from the rule they write to the request that serves the version
  (`src/control/service.rs`, `src/seed/mod.rs`).
- `Cache`, `SizeEstimate`: the packument cache with its two budgets (`src/proxy/cache.rs`).
- `Routes`, `HookText`, `Manifest`: percent coding and classification of paths, the printed hook
  list and its parser, the canonical tree manifest (`src/proxy`, `src/mcp/blocks.rs`,
  `src/seed/mod.rs`).
- `ControlServer`, `Frames`: permits and deadlines of the control socket, and its framing loop
  (`src/control/server.rs`).
- `Readers`: the chunk reader and the size meter over it (`src/mcp/inspect.rs`).

Time is an integer number of nanoseconds. Text whose parsing belongs to libraries (JSON, RFC 3339,
semantic versions, SHA-256, lossy UTF-8) enters through function parameters: `Policy.Foreign`,
`Routes.Utf8` and `Manifest.Digest`, with the few laws needed stated as `Lawful`. Storage failures
are a function from the operation number to an optional error, so a lemma over all of them covers
every pattern of failures. Methods that update state are specified by functions on the state, and
the lemmas about those functions are the results.

## Where the code and its documentation differ

The model follows the code.

- `record_rule_audited` is documented as writing the rule and its audit row together
  (src/store/mod.rs:724-733). It is two operations; a failure between them leaves the rule in
  force without a row (`Database.AuditedRuleMayStandUnaudited`).
- The gate list at the head of `src/policy/mod.rs` does not mention the quarantine floor, which
  runs between the deny rule and the allow rule (src/policy/mod.rs:516-565).
- `split_reason` speaks of four reasons; it recognises five, of the seven there are
  (src/mcp/blocks.rs:73-97).
- The request path records and audits under the package name of the request and looks rules up
  under the `name` of the document (src/proxy/mod.rs:830-847), and nothing compares the two.
  `OneByOne.NamesAgreeExactlyWhen` says exactly when the tables and the decisions are still those of
  the engine.
- `allow` and `seed` record their rules under the package they were asked about and say the version
  is now admitted or verified. On a document whose `name` is another one that rule is never looked
  up, and no answer changes (`Approvals.ApprovalTakesEffect`, `Approvals.SeededVersionIsServed`; a
  deny rule is as idle there, `Approvals.DenyRuleKeepsDenying`).
- `allow` reports whether the floor still withholds the version without looking at upstream's
  install-script flag, first-party scopes or unreadable publish times
  (src/control/service.rs:450-453). `Approvals.EffectIsTruthfulExactlyWhen` says exactly when the
  report is right.
- A control connection that sends no request is said to be dropped within `REQUEST_TIMEOUT`. By
  then it is past reading, but it holds its slot until its short timeout answer is written or fails
  to be, or `CONNECTION_TIMEOUT` fires (`ControlServer.SilentPeerKeepsItsSlotExactlyWhen`). That
  answer is the first thing written on the connection and normally fits the socket's send buffer, so
  keeping the slot needs the kernel to stall the write (`ControlServer.SilentPeerCanKeepItsSlot`).

## Model

| member | source | states |
|---|---|---|
| Policy.ServedExactlyWhen | src/policy/mod.rs:468-700 | The gates on one version, as one condition in both directions: no recorded change, no deny rule, floor cleared, and then a matching allow rule or (without a rule) first-party scope or hash, age and no install hook |
| Policy.BlockedExactlyWhy | src/policy/mod.rs:468-700 | For each of the seven reasons, exactly when a version is blocked for it: the first gate that objects names it |
| Policy.EvidenceIsTruthful | src/policy/mod.rs:468-700 | The evidence of a block tells the truth: what it names as recorded, pinned, approved or published is what the ledger, the rule and the document say, and the age is the whole seconds truncated toward zero |
| Policy.IdentityReads | src/policy/mod.rs:719-750 | On the JSON: the recorded identity is the published `dist.integrity` text, else the non-empty shasum marked as such, and nothing exactly when neither exists |
| Policy.HooksRead | src/policy/mod.rs:775-788 | On the JSON: the install hooks are exactly the non-null members of `scripts` under the three hook names, each once, with the text or the JSON of the command |
| Policy.HookMapReads | src/policy/mod.rs:807-816 | The hashed hook map is the one map from declared hooks to their commands |
| Policy.RunsInstallScriptReads | src/policy/mod.rs:761-799 | A version runs something at install time exactly when it declares an install hook or `hasInstallScript` is true |
| Policy.BypassedScopeReads | src/policy/mod.rs:766-773 | A name is first-party exactly when it is `@scope/package` with both parts non-empty and the scope is configured, leading at signs aside |
| Policy.UnderQuarantineReads | src/policy/mod.rs:516-565 | The floor withholds exactly when it is on, the version runs something, is not first-party and is not old enough |
| Policy.AgeThreshold | src/policy/mod.rs:516-600 | Comparing truncated seconds with days admits a version exactly from published + days, to the nanosecond, never earlier |
| Policy.CollectHooks | src/policy/mod.rs:775-788 | The hook loop lists the declared hooks in `preinstall`, `install`, `postinstall` order, null ones left out |
| Policy.HooksAmongNames | src/policy/mod.rs:775-788 | The listed hooks are exactly the asked names that carry a command, each once and with that command |
| Semver.VersionTotalOrder | src/policy/mod.rs:912-919 | Version precedence (item 11 of Semantic Versioning 2.0.0, ties broken by build metadata) is a total order |
| Semver.CoreDecides | src/policy/mod.rs:912-919 | A smaller major is strictly below whatever follows; so is a smaller minor at equal major and a smaller patch at equal major and minor |
| Semver.PreReleaseIsBelow | src/policy/mod.rs:912-919 | A pre-release is strictly below its release |
| Semver.PreReleasesCompare | src/policy/mod.rs:912-919 | Of two pre-releases the first differing identifier decides, numbers by value and below texts, texts by their first differing character; a proper beginning is below |
| Semver.BuildBreaksTies | src/policy/mod.rs:912-919 | Between versions of one precedence the build metadata decides in the same way |
| Semver.TextsCompare | src/policy/mod.rs:912-919 | One text identifier is below another exactly when the first character in which they differ is smaller, or it is a proper beginning of the other |
| Filter.CompareTotalPreorder | src/policy/mod.rs:912-919 | Comparing version strings, unparseable ones lowest, is reflexive, transitive and total |
| Filter.UnparseableIsBelow | src/policy/mod.rs:912-919 | An unparseable string is strictly below every version, and two of them compare as text |
| Filter.StableReads | src/policy/mod.rs:922-924 | Stable versions are exactly the parsed ones not below the release of their own core |
| Filter.PickNewestIsMaximum | src/policy/mod.rs:905-909 | The picked candidate is a maximum of the candidates under that order |
| Filter.RepointDistTags | src/policy/mod.rs:871-891 | The tag loop computes the repointed tags, whatever order it visits them in |
| Filter.DowngradedTags | src/policy/mod.rs:871-924 | With downgrading on, tags with surviving targets do not move, every other tag names a maximal survivor (stable only when the old target was stable and a stable survivor exists) so that no candidate has a larger major, minor or patch, and a tag is dropped exactly when nothing survives |
| Filter.Rebuild | src/policy/mod.rs:389-464 | The loops over versions, time and tags produce the outcome the decisions determine |
| Filter.FilteringIsConservative | src/policy/mod.rs:389-464 | Each version is kept unaltered or has exactly one block record, never both or neither; `time` loses exactly the withheld keys; every other field is untouched |
| Filter.SecondPassChangesNothing | src/policy/mod.rs:389-464 | If every survivor is served again, a second pass blocks nothing and returns the same document, in both dist-tag modes |
| Filter.WithheldDistTags | src/proxy/shape.rs:199-221 | The list holds an entry for exactly the tags whose target was withheld, one each, in tag order |
| Filter.ListedTagsAreWithheld | src/proxy/shape.rs:199-221 | With downgrading off, a tag that is no version key is listed exactly when asking for it answers version_withheld, with the same version and reason, and exactly when its target was withheld |
| Filter.ExactVersionAnswers | src/proxy/mod.rs:648-769 | Asking for an exact version answers its metadata if it is served, version_withheld with the reason if it was withheld and no tag has that name, and not found if it is neither version nor tag |
| Filter.DowngradedTagsAreNeverWithheld | src/proxy/mod.rs:709-769 | With downgrading on, no tag of the answer is listed as withheld and asking for any tag answers a manifest |
| Ledger.BatchKeepsEvidence | src/store/mod.rs:819-883 | A batch never rewrites a row's identity or first-seen time, and its mismatch count grows by exactly the differing observations |
| Ledger.BatchTouchesOnlyItsVersions | src/store/mod.rs:819-883 | Rows of other versions are neither changed, created nor removed by a batch |
| Ledger.BatchPerVersion | src/store/mod.rs:857-879 | With distinct versions, each verdict and each resulting row is that of a single observation on the ledger before the batch |
| Ledger.PruningKeepsEvidence | src/store/mod.rs:1070-1083 | Pruning rewrites no row and never deletes one with a mismatch or a rule |
| Ledger.PruningKeepsExactly | src/store/mod.rs:1070-1083 | Pruning keeps exactly the rows last seen in the cutoff's second or later and those with a mismatch or a rule |
| Audit.PrefixNamesReason | src/store/mod.rs:1010-1030 | The stored detail starts with the prefix of one reason only, so the comparison by prefix compares reasons |
| Audit.BlockEntryReads | src/store/mod.rs:492-513 | A withheld version is recorded as a critical tamper event exactly when its integrity or its scripts changed, and as a warning otherwise; the row carries the whole second and starts with the reason |
| Audit.RecordBlocksKeepsNoRepeat | src/store/mod.rs:993-1042 | Recording blocks keeps: no two consecutive rows for the same package, version and event carry the same reason |
| Audit.RecordingAgainAppendsNothing | src/store/mod.rs:993-1042 | Recording the same verdicts again, one per version, in any wording and at any time, appends no row |
| Audit.PruningKeepsNoRepeat | src/store/mod.rs:1048-1055 | Pruning a log with monotone timestamps keeps that property |
| Audit.PruningKeepsNoRepeatExactlyWhen | src/store/mod.rs:1048-1055 | Every cutoff keeps it if and only if between any two block rows with one subject and reason stands another row of that subject at least as young as the older of the two |
| Audit.InOrderIsShielded | src/store/mod.rs:1048-1055 | A log without repeats whose subjects each stay in time order meets that condition |
| Audit.PruningOutOfOrderCanRepeat | src/store/mod.rs:1048-1055 | Without monotone timestamps it does not: a concrete log repeats a verdict after pruning |
| Database.AuditedRuleMayStandUnaudited | src/store/mod.rs:725-733 | The rule is in force exactly when the first operation succeeded; the call succeeds exactly when both did |
| Database.StoredRuleReads | src/store/mod.rs:666-722 | All a rule says is stored, its commands as canonical text with the digest of that text, at the whole second |
| Database.SameRowSameRule | src/store/mod.rs:666-722 | Two rules leave the same row exactly when they are the same rule recorded in the same second |
| Database.RuleEntryReads | src/store/mod.rs:409-433 | The audit row of a rule tells its verdict, subject, pinned hash and reason, and leaves the newest block row of every subject the newest |
| Store.Store.RecordRule | src/store/mod.rs:666-722 | The rules table changes at the rule's key alone, or not at all on failure |
| Store.Store.AppendAudit | src/store/mod.rs:965-980 | One row is appended at the end, or none on failure |
| Store.Store.RecordRuleAudited | src/store/mod.rs:725-733 | Rule, then audit row, with the intermediate failure visible |
| Store.Store.Lookup | src/store/mod.rs:1148-1165 | Fails closed: an unreadable table answers a deny rule and notes the failure |
| Store.Store.TryObserveBatch | src/store/mod.rs:819-883 | One loop over the observations equals the fold of single observations, all or nothing |
| Store.Store.ObserveBatch | src/store/mod.rs:1179-1199 | Fails closed: a failed batch reports every version as changed and notes the failure |
| Store.Store.RecordBlocks | src/store/mod.rs:993-1042 | Appends exactly the rows whose latest verdict differs and returns their number |
| Store.Store.PruneSeen | src/store/mod.rs:1070-1083 | Deletes exactly the old rows without mismatch and rule and returns their number |
| Store.Store.PruneAudit | src/store/mod.rs:1048-1055 | Deletes exactly the old rows and returns their number |
| Store.Store.NoteFailure | src/store/mod.rs:642-647 | The slot keeps the first failure |
| Store.Store.TakeFailure | src/store/mod.rs:656-658 | Returns the slot and empties it |
| MemoryLedger.InMemoryLedger.Observe | src/policy/memory.rs:132-171 | The in-memory ledger's update in place is its specification function |
| MemoryLedger.ObserveAgrees | src/policy/memory.rs:132-171 | One bumping observation at a whole second leaves table and memory ledger equal, with the same verdict |
| MemoryLedger.RunsAgree | src/policy/memory.rs:132-171 | The two stay equal over every run of whole-second observations |
| MemoryLedger.ObserveAgreesExactlyWhen | src/policy/memory.rs:132-171 | From any shared ledger, one bumping observation gives both the same verdict at any time, and leaves them equal if and only if it happens at a whole second |
| MemoryLedger.TableIsMemoryRounded | src/store/mod.rs:857-879 | Over every run at any times the verdicts are the same and the table is the memory ledger with its times rounded down to seconds |
| MemoryLedger.RunsAgreeExactlyWhen | src/policy/memory.rs:132-171 | A run leaves the two equal if and only if every time the memory ledger ends with is a whole second |
| Request.Evaluate | src/proxy/mod.rs:822-871 | The request path on the store itself computes the evaluated world and answer |
| Request.RequestReportsFailures | src/proxy/mod.rs:830-850 | With one request in flight: it is answered exactly when no operation before the answer failed, and otherwise ends as StoreUnavailable with the first error, whatever the slot held before |
| Request.AnswersServeCheckedVersions | src/store/mod.rs:1148-1222 | Every version in an answer had an Unseen or Match check from a batch that succeeded, and the lookup of its own rule, when the gates came to it, succeeded |
| Request.EvaluatedWithoutFaults | src/proxy/mod.rs:822-871 | Without failures the answer and the three tables are functions of the tables before |
| Request.CheckOfVersion | src/proxy/mod.rs:874-885 | The check a version gets out of the batch is the one its own row gives |
| Request.EvaluatingAgainChangesNothing | src/policy/mod.rs:389-464 | Evaluating an answered document again, on the ledger the first evaluation left, blocks nothing and returns the same document, in both dist-tag modes, from cache or not |
| OneByOne.RunEngine | src/proxy/mod.rs:960-989 | The engine driven version by version on the store is its step function |
| OneByOne.EngineStepsArePure | src/policy/mod.rs:481-510 | Step by step the engine leaves the batch's ledger and decides from the batch's checks |
| OneByOne.BatchMeansOneByOne | src/proxy/mod.rs:830-847 | Without failures and with equal names, one batch and the looked-up checks give the decisions and tables of the engine that observes one version at a time |
| OneByOne.NamesAgreeExactlyWhen | src/proxy/mod.rs:830-847 | On any names: the tables of the two forms are equal if and only if the names are the same or, from cache, both rows of every version exist and match; the decisions are equal if and only if the ledger objects to the same identity, or to nothing, under both names of every version |
| OneByOne.BatchMeansInMemory | src/policy/memory.rs:132-171 | At whole seconds, below the 64-bit ceiling, a bumping evaluation decides and records as the engine on the in-memory stores does |
| Runs.StepKeepsEvidence | src/store/mod.rs:819-883 | Every single step keeps the evidence of every row it leaves |
| Runs.RowsAreFrozen | src/store/mod.rs:819-883 | Over every run with arbitrary failures, a row that stays keeps identity and first-seen time, and its mismatch count grows by exactly the committed differing observations |
| Runs.EvidenceIsPermanent | src/store/mod.rs:1070-1083 | Over every run, a row with a mismatch or a rule is never deleted or rewritten |
| Runs.RowsHaveAnOrigin | src/store/mod.rs:819-883 | A row found after a run was created by one step of it, with that step's time and the identity first observed for the version in that step's batch |
| Runs.ReplacedVersionIsWithheld | src/policy/mod.rs:481-494 | Whatever rules, config and failures: an answer withholds as IntegrityChanged every version whose identity differs from the recorded one |
| Runs.ReplacementNeverComesBack | src/policy/mod.rs:481-494 | Once a mismatch is recorded, after every run any identity but the first is withheld as IntegrityChanged |
| Runs.ReplacedHashIsWithheld | src/policy/mod.rs:481-494 | On the published texts: after a version was first seen with one `dist.integrity`, over every run in which its row stays, an answer to a document publishing another one withholds it as IntegrityChanged |
| Runs.ReplacedHashNeverComesBack | src/store/mod.rs:1070-1083 | Once a mismatch or a rule protects the row, the same after every run, pruning included |
| Runs.DeniedVersionIsWithheld | src/policy/mod.rs:496-514 | Whatever fails, an answer withholds every version a deny rule names under the document's own name |
| Runs.LogNeverRepeats | src/store/mod.rs:993-1055 | Over every run whose clock does not go back, block and tamper rows never repeat a verdict consecutively, across any number of prunes |
| Interleaving.AnswersAreVetted | src/store/mod.rs:1148-1222 | Under every interleaving and every failure pattern, each version an answer serves had a successful Unseen or Match check and a successful lookup of its own evaluation |
| Interleaving.SoloReportsItsFailures | src/proxy/mod.rs:830-850 | If no other evaluation touches the slot between clearing and taking it, whatever rules, rows and prunes run meanwhile, an evaluation ends as StoreUnavailable if and only if its batch failed or the rule of a version the ledger did not object to could not be read |
| Interleaving.UninterruptedIsARequest | src/proxy/mod.rs:822-871 | From any state and with any failures, the uninterrupted operations of one evaluation leave the world and give the answer of the request path |
| Interleaving.FailureReportedExactlyWhen | src/store/mod.rs:642-658 | With any number of evaluations, one reports a failure exactly when the shared slot's history has a failure noted by any of them after the last reset by any of them |
| Interleaving.AnotherEvaluationCanClearTheFailure | src/proxy/mod.rs:830-850 | A concrete interleaving of two evaluations loses a noted failure |
| Schedules.ReplacedNeverServedInterleaved | src/policy/mod.rs:481-494 | Under every interleaving and failure pattern, an evaluation whose batch comes after a recorded mismatch never serves an identity other than the first |
| Schedules.ReplacedHashNeverServed | src/policy/mod.rs:481-494 | On the published texts, from every reachable state: as long as the row one evaluation recorded stays, no evaluation of a document publishing another integrity, whose batch comes later, serves the version |
| Schedules.LogNeverRepeatsInterleaved | src/store/mod.rs:993-1055 | If the evaluations of each package record in the order of their times and the log starts in order, it never repeats a verdict, however they interleave, whatever fails and however often it is pruned meanwhile |
| Schedules.TimestampsCanGoBack | src/store/mod.rs:993-1042 | Times are captured before recording, so two evaluations can leave a log whose timestamps go back |
| Schedules.LateRecordingRepeats | src/proxy/mod.rs:301-314 | With one package recording out of order and no failure at all, a prune leaves a log that repeats a verdict: a schedule for every package, version and cutoff |
| Approvals.Approve | src/control/service.rs:357-490 | `allow` refuses without writing, or records its rule with the audit row and reports the effect; storage errors come back as such |
| Approvals.AllowRuleReads | src/control/service.rs:366-430 | The rule `allow` builds carries the published integrity and exactly the declared hooks of that version, the reason and the actor |
| Approvals.PublishedAtReads | src/policy/mod.rs:849-862 | The publish time `allow` reports by is the one the gates go by: the parsed text of the document's `time` for the version |
| Approvals.PinsDescribePublishedFiles | src/control/service.rs:377-422 | An approval naming files is accepted exactly when the tarball ships them all with every asserted digest; it pins exactly those files, each with the published digest |
| Approvals.ResolvePins | src/control/service.rs:394-420 | The loop over the named files finds the first bad one or the published digests of all |
| Approvals.OnlyRulesOfTheDocumentDecide | src/policy/mod.rs:389-396 | An answer depends on the ledger and on the rules under the document's own name, and on no other rule |
| Approvals.StandingRuleDecides | src/policy/mod.rs:496-600 | On any document, while a rule stands: under the document's name the version is served exactly when the ledger reports no change, the rule is an allow rule for its hash and commands and the floor lets it; under another name the rule changes nothing |
| Approvals.AllowGateReads | src/policy/mod.rs:567-600 | On the JSON, with hashing that tells commands apart: a rule passes the allow gate exactly when its integrity is the published one and its commands are exactly the declared hooks |
| Approvals.RecordedRuleDecides | src/policy/mod.rs:496-600 | The same right after a rule is recorded: under another name the answer is the one before |
| Approvals.RuleKeepsDeciding | src/policy/mod.rs:496-600 | The same after every run, with any failures, that writes no rule for the key; and without a committed differing observation the ledger still reports no change |
| Approvals.DenyRuleKeepsDenying | src/policy/mod.rs:496-514 | Over every such run and whatever fails in the request, a standing deny rule withholds the version under the document's name, and changes no answer under another |
| Approvals.ApprovalTakesEffect | src/control/service.rs:357-490 | On a document with the approved package's name and an unchanged ledger, the version is served exactly from published + floor days on, staying served as now grows; at once without a hook, in a first-party scope or with the floor off; never with an unreadable publish time. On a document with another name the approval changes no answer |
| Approvals.EffectReads | src/control/service.rs:440-484 | On the `scripts` object: "not yet admitted until t" exactly when a hook is declared, the floor is on and t, still to come, is the publish time plus the floor; otherwise admitted with exactly the declared hooks |
| Approvals.EffectMatchesFloor | src/control/service.rs:438-484 | For a hooked version outside first-party scopes with a readable time, "not admitted yet" is said exactly when the floor withholds, and the reported instant is when it stops |
| Approvals.EffectIsTruthfulExactlyWhen | src/control/service.rs:450-453 | For all versions, exactly when that report agrees with the floor |
| Approvals.VerifiedExactlyWhenTheRuleApplies | src/control/service.rs:721-784 | A seed entry verifies against a packument exactly when the rule recorded for it passes the allow gate there |
| Approvals.VerifyEntryReads | src/control/service.rs:721-784 | On the JSON, with hashing that tells commands apart: an entry verifies exactly when the packument publishes its version with its integrity and declares exactly its hooks, command for command |
| Approvals.SeedRuleReads | src/seed/mod.rs:320-339 | The rule of an entry matches exactly the versions that publish its integrity and declare exactly its hooks |
| Approvals.SeededVersionIsServed | src/seed/mod.rs:320-339 | A verified entry's rule admits the version under the entry's name, subject to ledger and floor alone; a document with another name verifies all the same and is answered as before |
| Approvals.Seed | src/control/service.rs:617-718 | Each package is fetched at most once and its entries judged by that answer; a run that ends well leaves exactly the tables and the summary the verdicts determine; one fails only with the error of a failed storage operation, having handled a prefix and of the next entry at most the rule |
| Approvals.SummaryAddsUp | src/control/service.rs:644-690 | The reported totals of written, refused and verified entries agree with the listed outcomes |
| Approvals.SeededRules | src/control/service.rs:617-718 | After a run that wrote, the key of every approved entry holds the rule of the last approved entry with that key; no other rule changed, and on a dry run none |
| Approvals.SeededRows | src/control/service.rs:617-718 | The log grew by one seed_refused row per refused entry and, unless dry, one row per approved entry, each in its place |
| Approvals.RefusalRowReads | src/control/service.rs:669-681 | A refusal is recorded as a warning of its own event about that version, at the run's time |
| Approvals.SeedRunDecides | src/control/service.rs:617-784 | End to end on any document: a version whose last approved entry carries the document's name is served exactly when the ledger is unchanged, the entry verifies against the document and the floor lets it; other versions are answered as before the run |
| Cache.FitsExactly | src/proxy/cache.rs:291-293 | When the saturating test means what it says: always, except for a byte budget of the 64-bit maximum |
| Cache.PackumentCache.Remove | src/proxy/cache.rs:88-92 | The entry goes and the byte total stays the exact sum, so the saturating subtraction never saturates |
| Cache.PackumentCache.MakeRoom | src/proxy/cache.rs:251-288 | It always ends with room for the incoming entry; drops nothing when there was room; else everything expired, then fresh entries oldest first and no more than needed |
| Cache.PackumentCache.EvictOldest | src/proxy/cache.rs:263-287 | No entry stored strictly before an evicted fresh one is kept, and keeping the youngest evicted one as well would have left no room |
| Cache.PackumentCache.InsertAt | src/proxy/cache.rs:180-215 | The key holds the document exactly when caching is on and it fits the budget; the other entries all stay when there is room, and otherwise go by a fair eviction (expired first, then oldest, no more than needed); limits and byte total are kept, and the unbounded map changes at this key only |
| Cache.PackumentCache.GetAt | src/proxy/cache.rs:164-172 | Refinement of an unbounded TTL map: an answer exactly while the held entry is less than one TTL old, and then the latest document inserted for that package and credential |
| Cache.PackumentCache.Clear | src/proxy/cache.rs:228-232 | Nothing is held and the byte total is zero |
| SizeEstimate.EstimateSize | src/proxy/cache.rs:302-324 | The worklist terminates and its saturating total is the smaller of the 64-bit maximum and the recursive cost of the tree |
| SizeEstimate.FieldsCostAnyOrder | src/proxy/cache.rs:302-324 | The cost of an object does not depend on the order its fields are visited in |
| SizeEstimate.Utf8LenReads | src/proxy/cache.rs:302-324 | A text is charged the bytes of its UTF-8 form: per character the fewest that carry its code point (section 3 of RFC 3629) |
| Routes.EncodePackagePath | src/proxy/shape.rs:349-361 | The loop computes the encoding |
| Routes.PercentDecodeSegment | src/proxy/mod.rs:427-448 | The index loop replaces exactly the well-formed escapes and leaves everything else |
| Routes.DecodeEncode | src/proxy/shape.rs:349-361 | Decoding undoes encoding on every byte string, and no encoded byte is a slash |
| Routes.PercentRoundTrip | src/proxy/mod.rs:427-448 | `percent_decode(encode_package_path(s))` is s for every string (section 2.1 of RFC 3986) |
| Routes.EncodesExactly | src/proxy/shape.rs:349-361 | Exactly ASCII letters, digits and five marks are written as they are; any other byte becomes an escape of three |
| Routes.EscapeDecodes | src/proxy/mod.rs:427-448 | A percent sign with two hexadecimal digits is the byte they spell |
| Routes.OthersAreThemselves | src/proxy/mod.rs:427-448 | Any other byte, and a percent sign without two hexadecimal digits behind it, stands for itself |
| Routes.HexValueReads | src/proxy/mod.rs:450-457 | Exactly the sixteen hexadecimal digits, in either case, have a value, and it is their place in the list |
| Routes.NamePartReads | src/control/protocol.rs:632-638 | A scope or name is letters, digits and four marks, and does not start with a dot, an underscore or a dash |
| Routes.PackageNameReads | src/control/protocol.rs:602-629 | An accepted name is at most 214 bytes long and one name part, or two as `@scope/name` |
| Routes.ExtraSlashesDoNotMatter | src/proxy/mod.rs:355-383 | Doubled, leading and trailing slashes never change the route |
| Routes.AcceptedNamesClassify | src/control/protocol.rs:602-638 | Every name the control socket accepts classifies as that packument, encoded and as a literal path |
| Routes.RoutesExactly | src/proxy/mod.rs:355-400 | Every route of a decoded segment list in both directions; only what spells no package, alone or with one more segment, is no tag listing and has no dot segment is passed through |
| Routes.AcceptedVersionsClassify | src/proxy/mod.rs:355-400 | For every accepted name and plain spec, `/name/spec` classifies as that version, encoded and as a literal path |
| Routes.TagListingsClassify | src/proxy/mod.rs:366-376 | `/-/package/name/dist-tags` classifies as the tags of every accepted name; only a scope written out as two segments is passed on |
| Routes.AcceptedPathsAreCanonical | src/proxy/mod.rs:355-419 | A path not classified Invalid is unchanged by dot-segment removal (section 5.2.4 of RFC 3986), also when %2e is read as a dot |
| Routes.NothingToRemove | src/proxy/mod.rs:406-408 | Dot-segment removal is the identity on paths without dot segments |
| Routes.DotSegmentsAreRemoved | src/proxy/mod.rs:406-408 | `/a/../b` collapses to `/b` and `/a/./b` to `/a/b`: the refused paths mean something else to a URL parser |
| HookText.ParseHookList | src/mcp/blocks.rs:104-137 | The find loops, the sort and the cutting loop compute the pairs of the list: one per place where a hook name and `": "` stand at the start or after `"; "` |
| HookText.StartsExactly | src/mcp/blocks.rs:109-121 | The starts are ascending and are exactly those places |
| HookText.NothingSkipped | src/mcp/blocks.rs:123-136 | The guard that skips crossing bounds never fires: there are as many pairs as starts |
| HookText.ParsingUndoesPrinting | src/mcp/blocks.rs:99-137 | Parsing a printed hook list gives back the hooks and commands in order if and only if no command contains `"; "`, a hook name and `": "` |
| HookText.SplitsAtReason | src/mcp/blocks.rs:77-97 | A stored detail splits into its reason and the rest for five reasons, and is returned whole for the other two |
| HookText.BlockedHooksReadBack | src/store/mod.rs:497-511 | The audit row of an install-script block reads back as that gate and exactly the version's hooks, if and only if all commands are of that kind |
| HookText.FromAudit | src/mcp/blocks.rs:51-71 | Reading a row computes package, version, reason, remaining detail and hooks |
| HookText.GateHooksCovered | src/policy/mod.rs:775-832 | The hooks the gate prints all carry hook names the parser knows |
| Manifest.ManifestReadsBack | src/seed/mod.rs:641-661 | A manifest can be read back to exactly its entries if and only if no path contains a line feed |
| Manifest.LineFeedMerges | src/seed/mod.rs:647-656 | For any two entries there is one entry, with a line feed in its path, that renders the same |
| Manifest.LineFeedConfuses | src/seed/mod.rs:647-656 | Two plain trees that differ have the same manifest, for any two names and contents |
| Manifest.OneAscendingList | src/seed/mod.rs:644-645 | With one entry per path, sorting leaves no trace of the order of collection |
| Manifest.CollectTree | src/seed/mod.rs:663-715 | The recursive walk lists exactly one entry per file and link reachable without `node_modules` and within the depth limit, no path twice, depth first with names in byte order |
| Manifest.TreeManifest | src/seed/mod.rs:641-661 | Walk, sort and rendering loop produce the manifest of the tree |
| Manifest.ReadDirSorted | src/seed/mod.rs:1149-1164 | Names come out in byte order whatever order the directory lists them in |
| Manifest.SameViewSameManifest | src/seed/mod.rs:641-715 | Trees that hold the same at every covered place have the same manifest |
| Manifest.DifferentTreesDifferentManifests | src/seed/mod.rs:641-715 | Without line feeds in covered paths, two trees have the same manifest if and only if they hold the same at every covered place |
| Manifest.HashedIsCovered | src/seed/mod.rs:663-715 | What the hash covers, in closed form: every file and link with no `node_modules` on its path and at most 33 names deep |
| Manifest.SameManifestSameFiles | src/seed/mod.rs:641-737 | With a digest that tells the occurring contents and targets apart and without line feeds in covered paths: same manifest if and only if the trees hold, at every covered place, a file with the same executable bit and content or a link with the same target |
| Manifest.JoinInjective | src/seed/mod.rs:682-686 | Different lists of names give different paths |
| Manifest.WalkOrderIsNotPathOrder | src/seed/mod.rs:644-672 | In any tree with a file below a directory and a sibling named like the directory plus a byte below the slash, the walk's list is not in path order, so the sort is needed |
| ControlServer.Server.AcceptOne | src/control/server.rs:122-138 | One turn of the accept loop: a permit and a serving task, or a refusing task |
| ControlServer.Server.Wake | src/control/server.rs:140-155 | A task's reaction moves it to its next phase or ends it and returns its permit |
| ControlServer.Server.Serve | src/control/server.rs:122-155 | The server through any schedule is the run of the transition system, up to the first impossible event |
| ControlServer.PermitsConserved | src/control/server.rs:122-155 | In every reachable state free permits and served connections make up eight |
| ControlServer.AcceptedOrRefused | src/control/server.rs:126-134 | An accepted connection never waits for a permit: it gets one at once, or is refused at once exactly when eight are served |
| ControlServer.NobodyOutlivesItsTimeout | src/control/protocol.rs:62-89 | In every reachable state no connection reads longer than REQUEST_TIMEOUT, none is served longer than CONNECTION_TIMEOUT and no refusal lasts longer than REFUSAL_TIMEOUT, up to the scheduler's lag |
| ControlServer.EverySlotIsGivenUp | src/control/server.rs:142-153 | Whoever holds a slot has given it up once CONNECTION_TIMEOUT has passed, in every continuation |
| ControlServer.NobodyIsCutShort | src/control/server.rs:140-226 | A task ends exactly by an answer that is written or fails to be, or by an expired deadline, and no deadline expires early, counted from acceptance |
| ControlServer.OneRequestEach | src/control/server.rs:175-277 | Over every schedule, one connection has at most one request carried out |
| ControlServer.OnlyValidRequestsAreCarriedOut | src/control/server.rs:175-277 | In every run a request is carried out only for a connection with readable credentials and a valid frame, never after an invalid one |
| ControlServer.ValidRequestIsCarriedOut | src/control/server.rs:190-277 | A connection waiting for its request has a valid one carried out next and answered, an invalid one answered only |
| ControlServer.SilentPeerKeepsItsSlotExactlyWhen | src/control/server.rs:190-226 | Over every continuation in which it sends nothing, a connection past its frame deadline is past reading, and holds its slot if and only if its answer was neither written nor failed to be and the connection timeout has not fired |
| ControlServer.SilentPeerIsDropped | src/control/server.rs:190-226 | A connection still waiting for its request is no older than REQUEST_TIMEOUT up to the lag, and once overdue can be answered and dropped, its permit returned |
| ControlServer.SilentPeerCanKeepItsSlot | src/control/server.rs:190-226 | A run in which a silent peer whose answer cannot be written holds its slot until CONNECTION_TIMEOUT |
| Frames.ReadFrame | src/control/server.rs:284-307 | For every chunking, the answer is that of the byte stream alone: the bytes before a newline at index at most the limit, over-limit if more come first, else closed or unreadable |
| Frames.BufferStaysWithinLimit | src/control/server.rs:284-307 | After every read of every chunking, what is buffered is exactly the bytes so far and within the limit |
| Frames.FrameBuffer.Take | src/control/server.rs:294-305 | One turn of the loop: the buffer grows by the chunk, or the answer is known and nothing over the limit is appended |
| Frames.FrameReadsBack | src/control/server.rs:284-307 | A framed body is read back exactly when it is within the limit, and a second request behind it changes nothing |
| Frames.OnlyTheStartMatters | src/control/server.rs:284-307 | No byte after the limit and its next one influences the answer |
| Readers.ChannelReader.Read | src/mcp/inspect.rs:1049-1070 | Moves the next bytes over with nothing lost or repeated, answers 0 to a non-empty buffer only at the end, and fails exactly when the next thing is a failure |
| Readers.ReadToEnd | src/mcp/inspect.rs:1049-1070 | With any positive buffer sizes, reading terminates with the concatenation of the chunks, empty ones skipped, up to the end or the first failure |
| Readers.MeteredReader.Read | src/mcp/inspect.rs:1013-1028 | The inner read, counted modulo 2^64, refused exactly when the saturated total exceeds the limit; channel errors pass through as they are |
| Readers.TrippedUntilItWraps | src/mcp/inspect.rs:1013-1028 | After a read over the limit the next passes if and only if the counter wrapped around and what it then holds, with the read, is within the limit |
| Readers.ReadThroughMeter | src/mcp/inspect.rs:1006-1028 | Over any sequence of reads: a prefix of the stream of at most `limit` bytes is delivered, at least a byte per successful read into a non-empty buffer, a stream within the limit is never refused, a tripped meter never recovers |
| Readers.ReadToEndThroughMeter | src/mcp/inspect.rs:1006-1070 | With any positive buffer sizes: a stream within the limit comes through whole and ends as the channel does; a longer one is cut off at a prefix of at most `limit` bytes, by the first read that goes over, with LimitExceeded |

## Left out

- HTTP, TLS, sockets, the SQLite files, schema migration, configuration, command line and tool rendering: input, output and plumbing. A transaction is all or nothing and may fail with an error before it changes anything.
- JSON text, RFC 3339, semver strings, SHA-256, lossy UTF-8 and file metadata are parameters; their own correctness is not part of this model.
- Message wording, except where it is parsed again (hook lists and reason prefixes).
- Rule identifiers and the version history columns of the tables: they do not influence a decision.
- SQLite's 2^63 ceiling on the ledger counters: the table's counters are unbounded; the in-memory ledger saturates at 2^64 - 1 as the code does, and the agreement lemmas state the bound.
- Overflow of chrono durations for astronomically large day counts in the configuration.
- `note_foreign_tarballs`, abbreviated packuments, publish passthrough and refusal of mutating methods: single-branch or log-only.
- The fallback inside `RequestLedger` for a version without a looked-up check: every version of a well-formed document is looked up, so it is unreachable.
- Store.Store.RecordRule: the rule handed back carries the stored whole second; the code hands back the instant it was given.
- Approvals.Approve: fetching and scanning the tarball is a parameter; its failures come back as one kind of error.
- Cache.PackumentCache.constructor: asks for a byte budget below the 64-bit maximum; `Cache.FitsExactly` states what the test means at that value.
- SizeEstimate.EstimateSize: the multiplications of field and item counts by fixed costs do not overflow for any tree that fits in memory and are not bounded.
- Interleaving.AnswersAreVetted: concurrency is at the granularity of storage operations, each of which holds the store's lock in the code.
- ControlServer.NobodyOutlivesItsTimeout: the scheduler and timers are at most `lag` late, and a dispatch yields to its timer; work that blocks a thread is not modelled.
- Frames.ReadFrame: the socket is the list of chunks its reads return, followed by a close or an error.
- Manifest.CollectTree: I/O errors, which abort the walk, are not modelled, and file contents are read whole; `hash_file` reads them in chunks.
- Readers.ReadThroughMeter: for streams shorter than 2^64 bytes; `Readers.TrippedUntilItWraps` says what happens beyond.
- The library's sorts: `HookText` and `Manifest` insert in order and `Cache` selects the oldest instead; keys that decide the result are distinct, except equal ages in the cache, whose order the source leaves open.
- The archive scan over the readers, the `node_modules` walk, the lockfile index and the choice of a previous version: bound to files and archives, or easy next to the above.
- The client side of the control socket: its size check counts bytes behind the newline, so its framing differs from the server's.
