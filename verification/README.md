# Mission pilot: verified models

A Dafny model of the parts of the Mission pilot whose promises span many steps,
callers or processes, with proofs of those promises. `dafny verify dfyconfig.toml`
checks it.

The center is the governed mapping contract. Any number of caches, in several
processes and across restarts, install versioned documents against one
append-only ledger: each install parses strictly, checks the cache's own
version, judges and records in one locked commit, and only then serves an
immutable snapshot. `LedgerRuns` states what holds of every run.

| module | what it models |
|---|---|
| `Wrappers`, `Json` | options and results, string-keyed records, JSON values and the canonical digest |
| `ResourceContracts` | contract references, and which of them declarations support at a time |
| `MappingContract` | the strict loader of the mapping contract |
| `LoadedDocuments` | exactly which documents the loader gives, each written so that it loads back |
| `MappingSnapshot` | one installed version, and what it resolves |
| `ScopeBindingLedger` | the ledger in memory and in a shared store, each refining one abstract commit |
| `MappingCache` | the cache: install, invalidate, resolve, and its audit log |
| `LedgerRuns` | runs of many caches over one ledger: commits, publications, crashes, restarts |
| `IssuerRelocation` | moving the Mission issuer, as a transformation of configurations and documents |
| `Startup` | cleanup scopes: acquisition, late arrival, cancellation, release, as interleaved steps |
| `NestedRelease` | the order in which a tree of scopes is disposed in such runs |
| `EvidenceKeyFiles` | key files created once, by any number of initializers that may crash |
| `DevicePolling` | the device grant's polling loop |
| `ApproverLogin` | the two-factor login |
| `RequestClock` | the `created` second of signed requests |
| `Base64Url` | the two strict base64url decoders |
| `ProposalDiff` | the preview's narrowing diff |

Where the source mutates, the model does: classes for the ledgers, the cache,
the startup scope and acquisition, the key directory, the login provider and the
agent client, each method proved against a function of the old state, and loops
where the source has them. Statements about whole runs and interleavings are
lemmas over those functions.

## Where the source falls short of a promise

- A restart does not always reload the newest document: the withdrawal check
  uses the clock at the restart, so a clock set back can refuse it.
  `LedgerRuns.RestartAcceptsIff` gives the exact condition,
  `LedgerRuns.RestartMayBeRefused` an example of contracts the loader accepts.
  No other run theorem assumes a rising clock.
- Relocating the Mission issuer does not commute with resolution when the issuer
  asked for, or the document's, already is the new one: see
  `IssuerRelocation.RelocationCommutesWithResolution`. Nor does moving back
  restore a configuration in which a moved field already named the target:
  `IssuerRelocation.RelocatingTwice`, with
  `IssuerRelocation.MovingBackMayNotRestore` an example.
- The polling loop takes any interval the server names; on one that is not
  positive it need not end: `DevicePolling.EndsExactlyWhen`.
- `initEvidenceKeyFile` does not look at how much `writeSync` took: a short
  write is linked as the key file, which then never loads and is never replaced.
  The file is complete exactly when the write was:
  `EvidenceKeyFiles.LoadsTheCreatorsKeys`, with
  `EvidenceKeyFiles.ShortWriteIsLinked` an example.

## Model

| member | source | states |
|---|---|---|
| `LedgerRuns.ServedScopesNeverChangeContract` | `src/demo/src/mas-pilot/mapping-contract.ts:446-460` | In every run of any number of caches over one ledger, any two snapshots ever served that map a scope value give it the same contract or both none, whatever versions in between withdrew it |
| `LedgerRuns.OneVersionIsOneDocument` | `src/demo/src/mas-pilot/mapping-contract.ts:437-445` | In every run, two snapshots served under one version hold one document and look up every identity alike |
| `LedgerRuns.SameVersionResolvesAlike` | `src/demo/src/mas-pilot/mas-join-assertions.ts:77-79` | The MAS cache and the gateway cache over one ledger, serving one version, answer every identity alike whenever both are fresh |
| `LedgerRuns.AcceptedVersionsRise` | `src/demo/src/mas-pilot/mapping-contract.ts:415-445` | Over every run accepted versions never fall in commit order, strictly rise within one cache, and equal versions carry equal digests and documents |
| `LedgerRuns.SupportedValuesStayMapped` | `src/demo/src/mas-pilot/mapping-contract.ts:461-473` | A recorded value whose contract is supported at or after the newest acceptance is mapped, under that contract, by the newest document, though an install checks this only at its own time |
| `LedgerRuns.RestartAcceptsIff` | `src/demo/src/mas-pilot/mapping-contract.ts:437-482` | After any run, a fresh cache given the document at the high-water mark accepts it, recording nothing, exactly when every recorded value the document leaves out has lapsed at the restart's time |
| `LedgerRuns.RestartAccepts` | `src/demo/src/mas-pilot/mapping-contract.ts:437-482` | A restart no earlier than the newest acceptance always reloads the newest document and leaves the ledger as it was |
| `LedgerRuns.RestartMayBeRefused` | `src/demo/src/mas-pilot/mapping-contract.ts:467-473` | The condition is needed: a run of two contracts the strict loader accepts, after which a restart of the newest under a clock set back is refused for withdrawing a value |
| `LedgerRuns.NoInstallTripsTheGuards` | `src/demo/src/mas-pilot/scope-binding-ledger.ts:78-138` | In no run is an install stopped by the ledger's own guards: no key twice, no falling or altered mark |
| `LedgerRuns.RunsOnlyAppend` | `src/demo/src/mas-pilot/scope-binding-ledger.ts:109-138` | However a run goes on, bindings, acceptances and served snapshots are only ever added |
| `LedgerRuns.InstallIsCommitThenPublish` | `src/demo/src/mas-pilot/mapping-contract.ts:433-495` | An undisturbed install is its commit step and then its publish step; a refused one changes nothing |
| `LedgerRuns.RunKeepsInv` | `src/demo/src/mas-pilot/mapping-contract.ts:405-502` | Every event (commit, publish, invalidate, crash between commit and publish, new cache) keeps the joint invariant: all served values recorded as served, no recorded value changed, the mark the last acceptance's, only lapsed values left out |
| `LedgerRuns.JudgementAdds` | `src/demo/src/mas-pilot/mapping-contract.ts:434-483` | A judgement that accepts extends the ledger by exactly the document's unrecorded values, never lowers the mark, adds nothing under an equal version and leaves out only lapsed values |
| `LedgerRuns.AcceptedExactlyWhen` | `src/demo/src/mas-pilot/mapping-contract.ts:405-487` | After any run, an install commits exactly when the document loads above its cache's version, every version accepted by any cache is below it or is this very document, no accepted document maps one of its values under another contract, and every value first mapped by an accepted document and left out has lapsed |
| `LedgerRuns.LedgerIsFirstMappings` | `src/demo/src/mas-pilot/scope-binding-ledger.ts:78-138` | In every run the ledger holds, under each key, exactly what the first accepted document to map it stated, and nothing else |
| `LedgerRuns.CrashedStaysDown` | `src/demo/src/mas-pilot/mapping-contract.ts:433-495` | A crashed cache serves and commits nothing in any continuation |
| `LedgerRuns.InvalidatedUntilPublished` | `src/demo/src/mas-pilot/mapping-contract.ts:499-502` | An invalidated cache serves nothing in any continuation until it publishes, and nothing else changes |
| `LedgerRuns.NewestReloadsIff` | `src/demo/src/mas-pilot/mapping-contract.ts:437-482` | Judging the newest document again is refused exactly for a left-out value still supported, and otherwise records nothing |
| `MappingCache.MappingContractCache.constructor` | `src/demo/src/mas-pilot/mapping-contract.ts:389-402` | A new cache serves nothing, has no version and an empty log, over the ledger it is given |
| `MappingCache.MappingContractCache.Install` | `src/demo/src/mas-pilot/mapping-contract.ts:405-496` | Parse, own version, one ledger commit, and only then the snapshot. Over a ledger that can be reached with sound bindings it succeeds exactly where the document loads above the cache's version, the mark is absent, lower or this document's, no recorded value changes contract and none still supported is left out; the ledger then absorbs the document, and otherwise the first demand that fails is the reason. A refusal changes nothing but one appended record |
| `MappingCache.MappingContractCache.JudgeAndRecord` | `src/demo/src/mas-pilot/mapping-contract.ts:432-487` | Judgement and record are one commit, accepted exactly where the document is admissible over the ledger as it stands, which then absorbs it; otherwise the ledger is as it was |
| `MappingCache.MappingContractCache.Serve` | `src/demo/src/mas-pilot/mapping-contract.ts:488-494` | An accepted document above the cache's version becomes its version and snapshot, with one install record; the ledger is untouched |
| `MappingCache.MappingContractCache.InstallIsAttempt` | `src/demo/src/mas-pilot/mapping-contract.ts:405-487` | Over a sound ledger of either kind, an install comes to the same verdict as the abstract attempt the run theorems use |
| `MappingCache.JudgedExactly` | `src/demo/src/mas-pilot/mapping-contract.ts:434-483` | The judgement accepts exactly where the mark is absent, lower or the document's own, every recorded value the document maps keeps its contract, and every recorded value it leaves out has none or one no longer supported; otherwise it names the first of the three that fails, with its first value |
| `MappingCache.AttemptedExactly` | `src/demo/src/mas-pilot/mapping-contract.ts:405-487` | So does a whole attempt, after loading and the cache's own version; accepted, the ledger keeps every binding, gains the unrecorded values as the document states them, in its order, and takes its mark |
| `MappingCache.MappingContractCache.Invalidate` | `src/demo/src/mas-pilot/mapping-contract.ts:499-502` | Drops the snapshot with one record, and keeps version and ledger; the log still replays to what is served |
| `MappingCache.MappingContractCache.ResolveIdentity` | `src/demo/src/mas-pilot/mapping-contract.ts:310-340` | A decision through any snapshot handed out, or none, answers by that snapshot alone and appends exactly one record |
| `MappingCache.LogReplays` | `src/demo/src/mas-pilot/mapping-contract.ts:258-271` | Over every sequence of calls as made (a document and a clock to install, whatever the ledger answers; invalidations; decisions through any snapshot) the log holds one record a call and replays to the identity and version of the snapshot held and the highest version |
| `MappingCache.InstallNeverTripsTheGuards` | `src/demo/src/mas-pilot/mapping-contract.ts:474-482` | The record an install hands over is accepted by either ledger's guards and leaves its bindings sound |
| `MappingCache.CollectScopeBindings` | `src/demo/src/mas-pilot/mapping-contract.ts:535-544` | The collecting loops give one binding per issuer and scope value, in order |
| `MappingCache.CollectedExactly` | `src/demo/src/mas-pilot/mapping-contract.ts:535-544` | The collected bindings hold under each key exactly the contract the document states there, or none |
| `MappingCache.CollectedAreSound` | `src/demo/src/mas-pilot/mapping-contract.ts:535-544` | They have distinct keys and well-formed contracts |
| `MappingCache.FirstRepointed` | `src/demo/src/mas-pilot/mapping-contract.ts:453-460` | A repointed value is found exactly when some incoming value is recorded under another contract or the other of contract and none |
| `MappingCache.FirstWithdrawn` | `src/demo/src/mas-pilot/mapping-contract.ts:466-473` | A withdrawal is found exactly when some recorded, unmapped value still has a supported contract |
| `MappingCache.Unrecorded` | `src/demo/src/mas-pilot/mapping-contract.ts:479-479` | What is recorded is exactly the incoming bindings whose keys are not recorded yet, keys distinct |
| `MappingCache.DeploymentIsStrict` | `src/demo/src/mas-pilot/mapping-contract.ts:134-255` | The strict loader over any declarations gives only documents with distinct keys and well-formed contracts |
| `ScopeBindingLedger.MemoryLedger.Commit` | `src/demo/src/mas-pilot/scope-binding-ledger.ts:78-94` | The loop over a copy refines the abstract append-only commit: all of a record or, on a repeated key or falling mark, none of it |
| `ScopeBindingLedger.SqliteLedger.Commit` | `src/demo/src/mas-pilot/scope-binding-ledger.ts:176-225` | The transaction over the tables refines the same commit, refusing also a malformed stored reference, an unavailable file and a version below one, rolled back whole |
| `ScopeBindingLedger.ReadRows` | `src/demo/src/mas-pilot/scope-binding-ledger.ts:186-207` | Reading gives every row as its binding, or stops at the first malformed reference |
| `ScopeBindingLedger.InsertRows` | `src/demo/src/mas-pilot/scope-binding-ledger.ts:209-217` | The inserts under the primary key append all bindings, or fail at the first key taken |
| `ScopeBindingLedger.RowOf` | `src/demo/src/mas-pilot/scope-binding-ledger.ts:214-217` | A binding stored as a row reads back as itself, its three contract columns agreeing |
| `ScopeBindingLedger.AppendedIff` | `src/demo/src/mas-pilot/scope-binding-ledger.ts:85-88` | A batch is appended exactly when its keys are fresh and distinct; one repeat anywhere appends none |
| `ScopeBindingLedger.CommitOnlyAppends` | `src/demo/src/mas-pilot/scope-binding-ledger.ts:103-107` | A commit never loses, changes or reorders a binding, never lowers the mark or changes its document in place |
| `ScopeBindingLedger.CommittedExactly` | `src/demo/src/mas-pilot/scope-binding-ledger.ts:78-107` | A record commits exactly when no key is taken or repeated and the mark neither falls nor changes in place; the bindings follow in order, and a record without a mark keeps it |
| `ScopeBindingLedger.StoredExactly` | `src/demo/src/mas-pilot/scope-binding-ledger.ts:176-225` | The shared store commits exactly that, where the file is available, every stored reference reads back and the version is at least one |
| `ScopeBindingLedger.LedgersAgree` | `src/demo/src/mas-pilot/scope-binding-ledger.ts:52-61` | On sound state and records with versions of at least one, both ledgers come to the same outcome |
| `MappingContract.ParseRowsInOrder` | `src/demo/src/mas-pilot/mapping-contract.ts:147-162` | The row loop with its set of seen keys computes the specified list, failing at the first bad or repeated row |
| `MappingContract.RowsLoadIffUnambiguous` | `src/demo/src/mas-pilot/mapping-contract.ts:146-179` | Rows load exactly when each loads alone and no issuer-qualified key repeats |
| `MappingContract.RowsLoaded` | `src/demo/src/mas-pilot/mapping-contract.ts:146-179` | Loaded rows are the rows' own values, in order, with distinct keys |
| `MappingContract.FillRecord` | `src/demo/src/mas-pilot/mapping-contract.ts:189-213` | The member loops fill a record key by key with each member's value, or stop at the first that fails |
| `MappingContract.DateTimeIsProduced` | `src/demo/src/mas-pilot/mapping-contract.ts:110-116` | A date-time is accepted exactly where the grammar's productions give it: date, time, an optional fraction, and `Z` or an offset |
| `LoadedDocuments.ParsedExactly` | `src/demo/src/mas-pilot/mapping-contract.ts:134-255` | The loader gives a document exactly where the value states it member by member (rows, statuses, scope values, the unsupported instance, the failure text, and no other member) and it is loadable; every other value is refused |
| `LoadedDocuments.LoadsExactlyTheLoadable` | `src/demo/src/mas-pilot/mapping-contract.ts:134-255` | The loader gives a document exactly when all it demands holds: version, dates, provenance, texts, distinct keys, action lists, declared contracts and delegate depths |
| `LoadedDocuments.WrittenLoads` | `src/demo/src/mas-pilot/mapping-contract.ts:134-255` | Every such document, written as a mapping contract, loads as itself |
| `Json.ObjectOf` | `src/demo/src/mas-pilot/mapping-contract.ts:93-103` | An object loads exactly when it holds all the named members and no other |
| `ResourceContracts.RefOf` | `src/packages/mission-core/src/resource-contract.ts:54-74` | A value is taken as a reference exactly when it is an object of just its three members, each text of its form, and then as that reference |
| `ResourceContracts.ViolationExactly` | `src/packages/mission-core/src/resource-contract-declarations.ts:707-737` | Which violation a reference is in, each exactly: malformed, no declared version for the resource, retired, outside its retention, another digest, an action not defined |
| `ResourceContracts.AbsoluteUriExactly` | `src/packages/mission-core/src/operation-target.ts:117-153` | The identifiers taken are a scheme, a colon and the characters of a URI |
| `ResourceContracts.DigestExactly` | `src/packages/mission-core/src/resource-contract.ts:36-37` | The digests taken are the algorithm's name and 43 characters of base64url |
| `ResourceContracts.SupportOnlyEnds` | `src/packages/mission-core/src/resource-contract-declarations.ts:708-737` | Support never returns: a contract supported at a time was supported at every earlier one |
| `ResourceContracts.GroupKeyIdentifies` | `src/packages/demo-data/src/index.ts:782-782` | Well-formed references with one bar-joined key are one reference |
| `MappingSnapshot.BuildSnapshot` | `src/demo/src/mas-pilot/mapping-contract.ts:281-294` | The constructor's loops index every row under its identity |
| `MappingSnapshot.IndexFindsTheRow` | `src/demo/src/mas-pilot/mapping-contract.ts:292-293` | With keys distinct, a lookup finds exactly the row of the list that names the identity |
| `MappingSnapshot.IndexIgnoresOrder` | `src/demo/src/mas-pilot/mapping-contract.ts:292-293` | The same rows in any order give the same lookups |
| `MappingSnapshot.ResolvesExactly` | `src/demo/src/mas-pilot/mapping-contract.ts:297-340` | A snapshot resolves an identity to a result exactly within the closed window from install to install plus the bound, at its Mission issuer, where active rows map both parts to it |
| `MappingSnapshot.OutcomesExactly` | `src/demo/src/mas-pilot/mapping-contract.ts:310-340` | Stale exactly outside the window, the wrong issuer exactly inside it at another issuer, unresolved exactly where no active rows map the pair |
| `MappingSnapshot.ClientForExactly` | `src/demo/src/mas-pilot/mapping-contract.ts:342-346` | A client is answered exactly within that window, by its active row |
| `MappingSnapshot.ScopeMappingEntries` | `src/packages/demo-data/src/index.ts:762-794` | The entries are at the resource, one per contract stated, in the order first met, each with exactly the actions the presented values grant under it |
| `MappingSnapshot.CredentialAuthority` | `src/demo/src/mas-pilot/mapping-contract.ts:348-364` | Nothing when stale, at another resource, without a scope, for an unknown issuer or with no value mapped; else the grouped entries of all the values that stand between the scope's spaces |
| `MappingSnapshot.ValuesAreTheSplit` | `src/demo/src/mas-pilot/mapping-contract.ts:359-359` | A scope has exactly one list of values: none holds a space, and joined by one they are the scope |
| `IssuerRelocation.RelocationCommutesWithLoading` | `src/demo/src/mas-pilot/config.ts:387-417` | The relocated contract loads exactly when the original does, with the same fault or as the same document with its Mission issuer and subject targets moved |
| `IssuerRelocation.RelocationCommutesWithResolution` | `src/demo/src/mas-pilot/config.ts:387-417` | Asked for the moved issuer, the relocated document answers the original's answer moved, exactly unless it is fresh and the asked and stated issuers are the old and the new one crosswise |
| `IssuerRelocation.RelocationCanStartResolving` | `src/demo/src/mas-pilot/config.ts:387-417` | The case shut out, on a contract the strict loader accepts: asked at the new issuer, the original refuses and the relocated one resolves |
| `IssuerRelocation.RelocatingTwice` | `src/demo/src/mas-pilot/config.ts:387-398` | Two relocations come to the second alone exactly unless both move and a moved place already named the first target: idempotence, and when moving back restores |
| `IssuerRelocation.MovingBackMayNotRestore` | `src/demo/src/mas-pilot/config.ts:387-417` | The condition is needed: a configuration whose contract the strict loader accepts, not restored by moving there and back |
| `IssuerRelocation.RelocatedMembers` | `src/demo/src/mas-pilot/config.ts:402-417` | A contract is relocated member by member in place, only `mission_issuer` and `subjects` changing |
| `IssuerRelocation.RowMoved` | `src/demo/src/mas-pilot/config.ts:410-414` | A subject row relocated loads as the loaded row with its target moved, or fails as it did |
| `Startup.DisposedExactlyOnce` | `src/demo/src/mas-pilot/startup.ts:47-133` | In every interleaving of arrivals, continuations, cancels and releases over nested scopes, once a scope's release is done every resource acquired under it and handled was disposed exactly once |
| `Startup.DisposedAtMostOnce` | `src/demo/src/mas-pilot/startup.ts:60-107` | In every run nothing is disposed twice, and nothing while its scope is live |
| `Startup.ReturnsOnlyIfKept` | `src/demo/src/mas-pilot/startup.ts:95-107` | `acquire` returns a resource only by the step that registers it, on a scope neither cancelled nor released |
| `Startup.NothingKeptAfterCancel` | `src/demo/src/mas-pilot/startup.ts:47-66` | Whatever follows a cancellation, nothing is registered any more and no disposal is taken back |
| `Startup.ReleasedOnce` | `src/demo/src/mas-pilot/startup.ts:110-133` | A repeated cancel or release of a scope changes nothing |
| `Startup.DisposedInReverse` | `src/demo/src/mas-pilot/startup.ts:119-125` | A finished release has begun its disposals in exactly the reverse of registration order |
| `Startup.RethrowsTheFirstError` | `src/demo/src/mas-pilot/startup.ts:119-131` | A finished release has awaited every disposal it registered, errors or not, and rethrows the first error in the order they ran |
| `Startup.ReleaseNeverBlocks` | `src/demo/src/mas-pilot/startup.ts:119-133` | A started release that is not finished always has a next step, in its scope or one under it |
| `Startup.ReleaseUsesUpWork` | `src/demo/src/mas-pilot/startup.ts:119-133` | Once a scope is released, each step of its release, in it or under it, uses one unit of its work, and no other step of any scope adds to it |
| `Startup.ReleaseEnds` | `src/demo/src/mas-pilot/startup.ts:119-133` | Whatever runs in between, a started release is done after exactly as many of its own steps as it had work |
| `Startup.ReleaseCanFinish` | `src/demo/src/mas-pilot/startup.ts:119-133` | From any state a release of any scope can be carried through by its own steps alone |
| `Startup.DoneBelow` | `src/demo/src/mas-pilot/startup.ts:34-40` | A scope's finished release means every scope under it has finished its own |
| `Startup.StepKeepsInv` | `src/demo/src/mas-pilot/startup.ts:34-133` | Each atomic step keeps the invariant tying every acquisition's state to how often its resource was disposed |
| `Startup.NewScopeOpens` | `src/demo/src/mas-pilot/startup.ts:34-40` | A new scope is live and empty and its parent keeps it last; under a cancelled parent there is none |
| `Startup.RegisterKeeps` | `src/demo/src/mas-pilot/startup.ts:60-66` | A resource handed over is kept and returned on a live scope, and otherwise disposed at once |
| `Startup.AcquireReturns` | `src/demo/src/mas-pilot/startup.ts:95-107` | Undisturbed, a resource acquired on a live scope is registered last and returned |
| `Startup.AcquireFails` | `src/demo/src/mas-pilot/startup.ts:68-87` | A promise that rejects throws, keeping and disposing nothing |
| `Startup.AcquireWhenCancelled` | `src/demo/src/mas-pilot/startup.ts:68-107` | On a cancelled scope it throws without waiting, and the resource is disposed when it arrives |
| `Startup.StartupScope.Register` | `src/demo/src/mas-pilot/startup.ts:60-66` | Keeps the item while live, and changes nothing after |
| `Startup.StartupScope.StartRelease` | `src/demo/src/mas-pilot/startup.ts:119-123` | Aborts, and takes the stack once, last first; a repeated call takes nothing |
| `Startup.StartupScope.EndDisposal` | `src/demo/src/mas-pilot/startup.ts:124-130` | Keeps the first error |
| `Startup.AcquireCall.Fulfil` | `src/demo/src/mas-pilot/startup.ts:97-102` | Both reactions back to back: a late resource is disposed as it arrives, and the waiting step passes |
| `Startup.AcquireCall.Resume` | `src/demo/src/mas-pilot/startup.ts:103-106` | After the step: registered and returned, or disposed at once and thrown where the scope is cancelled by then |
| `NestedRelease.TreeDisposedInReverse` | `src/demo/src/mas-pilot/startup.ts:34-133` | In every run in which nothing arrives late under a root and no scope under it closes early, with any other steps between the awaits, a finished release has disposed exactly the reverse of the flattened registration order, ended every disposal in that order, errors or not, and rethrows the first error of them |
| `NestedRelease.DisposesIsCounted` | `src/demo/src/mas-pilot/startup.ts:60-133` | The traced disposals are exactly those the acquisitions count |
| `NestedRelease.ReleaseTree` | `src/demo/src/mas-pilot/startup.ts:119-133` | The release loop over nested registrations, alone: the reverse of the flattened order, every disposer whatever others throw, and the first error |
| `NestedRelease.RunIsReleaseTree` | `src/demo/src/mas-pilot/startup.ts:119-133` | The interleaved run comes to what that loop does on the same registrations, which meet its precondition, with the same errors |
| `EvidenceKeyFiles.AtMostOneCreates` | `src/demo/src/evidence-key-files.ts:97-128` | Of any number of initializers, interleaved and crashing anywhere, at most one links the target, none over an existing file, one that reports success linked it and removed its temporary name, and an absent target stays absent or becomes what that one's write took: its complete text exactly when the write took all of it |
| `EvidenceKeyFiles.GivesUp` | `src/demo/src/evidence-key-files.ts:110-126` | An initializer that crashes takes no further step, and one whose link fails links nothing after; neither reports success |
| `EvidenceKeyFiles.FileNeverChanges` | `src/demo/src/evidence-key-files.ts:108-128` | Once present, the file never changes in any run |
| `EvidenceKeyFiles.LoadsTheCreatorsKeys` | `src/demo/src/evidence-key-files.ts:97-166` | After a link, crashed since or not, every later load for its holder yields exactly the keys that initializer generated, in role order, if its write took the whole text, and no load ever succeeds if it did not; the other holder is refused |
| `EvidenceKeyFiles.ShortWriteIsLinked` | `src/demo/src/evidence-key-files.ts:110-126` | The condition is needed: an initializer whose write falls short reports success, and no load of its file succeeds |
| `EvidenceKeyFiles.LoadsWhatWasWritten` | `src/demo/src/evidence-key-files.ts:131-166` | Loading what was written gives back its keys; another holder is refused |
| `EvidenceKeyFiles.LoadsExactly` | `src/demo/src/evidence-key-files.ts:131-166` | A load gives keys exactly where the file is there, open to no one else, whole, of this format and holder, and holds one importable ES256 key per role under its `kid`; missing, open and unparsed files are told apart |
| `EvidenceKeyFiles.StepKeepsInv` | `src/demo/src/evidence-key-files.ts:97-128` | Each file-system step, short write or crash keeps: own temporary file, holding what its write took before linking, the target the linker's |
| `EvidenceKeyFiles.Directory.InitEvidenceKeyFile` | `src/demo/src/evidence-key-files.ts:97-128` | Undisturbed, it creates the file, with what its write took, in an absolute path of a closed directory where the name is free, and otherwise changes no name; no other file changes |
| `DevicePolling.PollUntilEnded` | `src/demo/src/device-mission-client.ts:143-174` | The loop sends exactly the specified polls and ends as specified, the interval defaulting to 5 seconds |
| `DevicePolling.PollsExactly` | `src/demo/src/device-mission-client.ts:152-172` | Turn for turn, every poll is sent under the first interval plus 5 seconds per `slow_down` so far; the loop ends exactly on the first answer that is neither `authorization_pending` nor `slow_down`, or in the first turn whose wait or sending would reach the deadline |
| `DevicePolling.NoPollAfterTheDeadline` | `src/demo/src/device-mission-client.ts:153-163` | No poll is sent at or after the deadline, whatever the clock and server do |
| `DevicePolling.PollsAreSpaced` | `src/demo/src/device-mission-client.ts:152-170` | Each poll goes out under the first interval plus 5 seconds per `slow_down` before it, and on an honest clock at least that long after the one before |
| `DevicePolling.IntervalsFitTheLifetime` | `src/demo/src/device-mission-client.ts:143-163` | The intervals waited out add up to less than `expires_in` |
| `DevicePolling.EndsExactlyWhen` | `src/demo/src/device-mission-client.ts:152-172` | There is a bound on the turns of every honest run exactly when the interval is positive or the lifetime is not; the source checks neither |
| `DevicePolling.PositiveIntervalsEnd` | `src/demo/src/device-mission-client.ts:152-172` | The bound, from the lifetime and the interval |
| `DevicePolling.StandstillPollsOn` | `src/demo/src/device-mission-client.ts:152-166` | Any number of polls on an interval that is not positive |
| `ApproverLogin.EveryLoginIsBacked` | `src/demo/src/approver-idp.ts:262-357` | Over every run each login rests on an earlier request that presented an account's own password on its interaction, whose code was delivered to that account, with only wrong codes, fewer than three, since; `mfa` only for that code before its expiry. Logins and deliveries are exactly the history's |
| `ApproverLogin.StepsExactly` | `src/demo/src/approver-idp.ts:303-357` | Over every run each request comes to exactly one step, decided by the request and the history before it: verified only on the account's own password, refused, expired, wrong or logged in |
| `ApproverLogin.OneLoginPerPassword` | `src/demo/src/approver-idp.ts:326-357` | No password verification backs two logins |
| `ApproverLogin.StrengthMatchesFactors` | `src/demo/src/approver-idp.ts:326-357` | `acr` always matches the factor list |
| `ApproverLogin.CodeFinishesExactlyWhen` | `src/demo/src/approver-idp.ts:321-357` | A code finishes a login exactly when a standing password's code is entered before its expiry |
| `ApproverLogin.HandleKeepsPending` | `src/demo/src/approver-idp.ts:303-357` | The pending map holds exactly the passwords that stand by the history, with their codes, expiries and wrong entries |
| `ApproverLogin.ApproverIdp.HandlePassword` | `src/demo/src/approver-idp.ts:303-320` | Exactly an account's own password replaces what was pending, delivers a code good for two minutes and asks for it; any other clears what was pending and delivers nothing |
| `ApproverLogin.ApproverIdp.HandleSkip` | `src/demo/src/approver-idp.ts:321-330` | Logs in on a pending password alone |
| `ApproverLogin.ApproverIdp.HandleCode` | `src/demo/src/approver-idp.ts:331-357` | Expiry first, then the entry: the third wrong one denies and clears, a wrong one before it counts, the right one logs in once |
| `RequestClock.CreatedStrictlyIncreases` | `src/packages/aauth-testkit/src/agent-client.ts:252-302` | Over every sequence of sends, however the clock moves between them, the seconds sent for one method, authority and path strictly increase |
| `RequestClock.AgentClient.Created` | `src/packages/aauth-testkit/src/agent-client.ts:252-263` | The waiting loop ends, in a second this target has not used, and remembers it |
| `RequestClock.SentExactly` | `src/packages/aauth-testkit/src/agent-client.ts:252-263` | A target's first request in a second carries it without waiting; otherwise a later second than its last, the next one on a clock only sleeping moves |
| `RequestClock.WaitsNoLonger` | `src/packages/aauth-testkit/src/agent-client.ts:256-260` | On a clock only sleeping moves, the second sent is the current one or the first unused |
| `RequestClock.TupleIdentifies` | `src/packages/aauth-testkit/src/agent-client.ts:253-254` | The remembered text names one method, authority and path |
| `Base64Url.AcceptsExactlyCanonical` | `src/packages/aauth-testkit/src/agent-client.ts:132-136` | Accepted exactly: non-empty, in the alphabet, length not 1 modulo 4, unused trailing bits zero; and both decoders agree on every text |
| `Base64Url.AcceptsExactlyEncodings` | `src/demo/src/request-intake.ts:321-330` | Accepted exactly: the encodings of non-empty bytes, giving those bytes back |
| `Base64Url.EncodeOfDecode` | `src/demo/src/request-intake.ts:325-326` | A lenient decoding re-encodes to the same text exactly when no bits were dropped |
| `Base64Url.DecodeOfEncode` | `src/packages/aauth-testkit/src/agent-client.ts:134-135` | Decoding an encoding gives the bytes back |
| `Base64Url.EncodesEachGroup` | `src/packages/aauth-testkit/src/agent-client.ts:132-136` | Every three bytes and their four characters are one 24-bit number, most significant first |
| `Base64Url.EncodesTheRest` | `src/packages/aauth-testkit/src/agent-client.ts:132-136` | One or two bytes left over take two or three characters, the same number with zero bits after it |
| `Base64Url.AlphabetInOrder` | `src/packages/aauth-testkit/src/agent-client.ts:133-133` | The alphabet is base64url's, in its order |
| `ProposalDiff.ProposalDiff` | `src/demo/src/server.ts:142-175` | One diff per proposed entry, in order: the actions, and vendors, that no derived entry of its resource lists, in their order with repeats kept, and the caps of the narrowing entries, each once under its key, in the order first met, with both texts |
| `ProposalDiff.TightenedCaps` | `src/demo/src/server.ts:152-167` | The loop reports the first cap under each key, in fragment order |
| `ProposalDiff.SplittingIsImmaterial` | `src/demo/src/server.ts:142-175` | Splitting a fragment in place, its actions covered and its resource and constraints kept, leaves the whole diff of every entry unchanged |
| `ProposalDiff.ValidatedOrderIsImmaterial` | `src/demo/src/server.ts:146-173` | Validated fragments in any order drop the same actions and vendors and report the same tightened caps, as a set |
| `ProposalDiff.EachCapReportedOnce` | `src/demo/src/server.ts:154-167` | Of validated fragments every tightening cap and no other is reported, once, in a text of its own and never the proposed one |
| `ProposalDiff.KeyNamesCap` | `src/packages/mission-core/src/decimal-amount.ts:32-53` | Of caps in the validated form, the joined key, and the text shown, name one cap each |

## Left out

- MappingContract.FillRecord: an object's members are taken in one canonical order, so of several bad members the model may name another one first; acceptance and the values loaded do not depend on it.
- ResourceContracts.AbsoluteUriExactly: an absolute URI is a scheme, a colon and characters of RFC 3986's absolute URIs; the grammar's hier-part, percent triplets and non-empty `http` host are not modelled, so the model, and with it `ResourceContracts.RefOf`, takes some malformed identifiers as well formed.
- ResourceContracts.RefOf: the identifier of a reference is such a URI.
- ResourceContracts.SupportOnlyEnds: the resources a declaration covers are a function of the declaration, for its `resource` and `resource_match`; a retention end is a number, and one that does not parse is not modelled.
- LedgerRuns.OneVersionIsOneDocument: digests are taken as collision free, one digest for one document.
- LedgerRuns.RunKeepsInv: one set of declarations is shared by all caches of a run.
- ScopeBindingLedger.SqliteLedger.Commit: SQLite's locking, timeouts, flushing and recovery are one atomic step and a flag that says whether the file is available; the `recorded_at` columns are not kept.
- ScopeBindingLedger.LedgersAgree: like the code, agreement between bindings is on the contract and not on the resource.
- MappingCache.MappingContractCache.ResolveIdentity: the record's texts (instants, reasons) are kept as values, not as formatted strings.
- LoadedDocuments.LoadsExactlyTheLoadable: which date-times the platform's calendar accepts is a parameter; numbers are mathematical, so a version has no largest safe integer.
- MappingSnapshot.ScopeMappingEntries: an entry's actions are a set, without the order they were first met in.
- Startup.StepKeepsInv: a disposer does not itself register with, cancel or release a scope, thrown errors are not nullish, and the listeners by which an abort reaches child scopes are one step over the tree of scopes; the model also lets other steps come between the start of a release and its first disposal.
- Startup.StartupScope.StartRelease: the source's `release` also begins the first disposal before it returns, and its abort reaches the child scopes; here the first disposal is a step of its own, and the abort of the children is `Startup.AbortFrom` over the tree.
- Startup.StartupScope.Register: the object-level methods cover one scope each; the tree of scopes is modelled on values.
- EvidenceKeyFiles.AtMostOneCreates: crashes are of processes, not of the machine, so flushing has no effect to state; a text that lacks only its last newline counts as whole, since it parses alike; temporary names are distinct; nobody else writes in the directory.
- EvidenceKeyFiles.LoadsTheCreatorsKeys: keys are their JWK objects, and the platform's import a function that accepts generated ones; permission changes after creation are not steps.
- DevicePolling.PollUntilEnded: discovery, the device authorization request and the members of a success response are left out; answers and clock readings are the environment's, given turn by turn.
- ApproverLogin.ApproverIdp.HandleCode: a POST that names no step is handled as a code entry, as the code does; other methods and paths are the provider's own and left out.
- ApproverLogin.EveryLoginIsBacked: the OpenID provider's own session and interaction checks, and password hashing, are left out; the clock is read once a request.
- RequestClock.CreatedStrictlyIncreases: sends are one after another; overlapping calls of `created` are not covered, since the code reads the last second only once.
- Base64Url.AcceptsExactlyCanonical: texts outside the alphabet never reach the lenient decoder, so its handling of them is not modelled.
- `evaluateJoin`'s delegate disposition, the actor records, and the environment and flag parsers: one branch each, read off the code.
- JWT, DPoP, HTTP signatures and JWKS; the Mission kernel, decision and enforcement points, and evidence stores.
- Process and listener wiring, Hono routes, user interfaces, evaluation runners and generation by language models.
