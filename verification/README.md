# Verified model of the ingest contract, the lexical owner, the installer and the retrieval evaluation

This project models the parts of `coding_agent_session_search` whose behaviour is easy to get subtly
wrong and hard to test exhaustively, and proves what they promise for all inputs, all runs and all
schedules.

* **Source-ingest contract.** The byte stream that fingerprints the producer sources: type-tagged,
  length-framed TOML (TOML v1.0.0, section "Table": unordered, unique keys), the Cargo pair with the
  release number removed, the pruned walk over the source directories, and the Cargo features. The
  encoding of a TOML value is shown to be a prefix code that identifies the value up to key order, and
  the whole stream identifies its inputs.
* **Lexical owner.** The flat guard over an index tree, the worker/guard/epoch state machine with all
  its failure exits, the protocol validators, and framed exchanges over any schedule of partial reads
  and writes.
* **Immutable installer.** A step machine in which any number of installers interleave, any operation
  may fail and any process may crash after any step.
* **Context pack.** Classification, scoring with 64-bit arithmetic, greedy selection and its summary.
* **Rank fusion and retrieval metrics.** Channels, competition ranks, the four policies, the
  rearrangement inequality behind NDCG, and the bake-off evaluation.
* **Collectors and validators.** The retained-report collector, the fsqlite lockfile pin and the
  bounded capture of a child's output.

Loops and objects of the source are Dafny methods and classes, each proved equal to, or characterised
by, a specification; pure functions are functions. Reals stand for floats; `log2` is any function that
is positive and never decreases from 2 on (and strictly increases there, where a result says so), `2^x`
any function that is 1 at 0 and strictly increases. Digests, TOML parsing, text trimming and the redactor
are arbitrary functions. System calls are nondeterministic choices.

## Where a natural claim is false

Each is kept as the code has it, with the exact condition under which the claim holds.

* Normalising a Cargo pair forgets more than the release version when the lockfile also holds a
  version-less, source-less entry with the root's name: the root and that entry can change places.
  `CargoNormalization.TwinProject` is the smallest such project; `CargoNormalization.ForgetsOnlyTheVersion`
  shows that this is the only case.
* Pruning drops files that are not listed when a listed presentation *file* name is a directory:
  `PresentationRules.FileAsDirectoryIsDropped` has a file below `src/tui_asciicast.rs`, and
  `PresentationRules.InputsAreIntended` is the exact condition.
* A guard that is refused can leave a descriptor open. It does so exactly when one of its own `fstat` calls
  on a descriptor it has just opened was not answered, before the node list has taken that descriptor over
  (`IndexGuard.Guard.Admit`, over the trace of those calls); `IndexGuard.UnstampedRoot` is such a guard.
* Two inputs can get one name in the fingerprint: a backslash in a component counts as a slash. It happens
  exactly for paths with the same pieces (`PathNames.SameRendering`), never for names without separators
  (`SourceContract.PortableSources`).
* `freshness_score` overflows `i64` for some timestamps exactly for windows of more than 152,502,844
  days that still fit `i64` (`ContextPack.FreshnessExactWindows`), and an older reference can then score
  fresher than a newer one, exactly up to 106,751,991,167 days (`PackPriority.FreshnessInvertsExactly`).
* A larger token budget can be advised in vain. It helps exactly when some scored reference costs no more
  than the largest evidence budget (`PackSummary.IncreaseBudgetHelps`); with a single candidate that needs
  the missing semantic model there is none (`PackSummary.BudgetAdvisedInVain`).
* A bake-off corpus that passes validation can still lack an NDCG, when a later judgment of the same
  document replaces the only positive one (`Bakeoff.ReplacedJudgmentHasNoNdcg`, exactly
  `Bakeoff.QueryHasNdcg`), and its NDCG can exceed 1 when a document id is listed twice and more than one
  result counts (`Bakeoff.RepeatedDocumentExceedsOne`, exactly `Bakeoff.DistinctIdsExactly`).
* A sample of the retained report can be attributed to another pinned source than the one it was written
  for: `UbsSample.LongerNameCaptures` has the pins `x` and `x:1:y`. It is attributed correctly exactly when
  no longer pinned name also begins it (`UbsSample.CitationIsRead`).

## Files

| file | contents |
|---|---|
| `Prelude`, `Sorting`, `Cutting`, `Framing`, `FramedStream` | result types, sorting and its uniqueness, cutting and joining, byte frames |
| `Toml`, `TomlReader`, `TomlTables`, `CargoNormalization` | TOML values, their encoding and how it reads back, and the Cargo pair |
| `TreeWalk`, `PresentationRules`, `PathNames`, `SourceContract`, `ContractReader` | the walk, its exclusions, the names, the whole stream and how it reads back |
| `IndexGuard`, `Protocol`, `LexicalOwner`, `GuardedOwner`, `PipeExchange` | the owner, its guard, its messages, its pipes |
| `Installer`, `InstalledExecutable`, `Conversion`, `Leftovers` | the installer's step machine and its runs |
| `ContextPack`, `PackPriority`, `PackSummary` | context packs |
| `Ndcg`, `JudgedGains`, `TitleMetrics`, `Bakeoff`, `NdcgValues`, `Fusion`, `FusionValues` | metrics and fusion |
| `UbsSample`, `UbsReport`, `FsqlitePin` | collectors and validators |

## Model

| member | source | states |
|---|---|---|
| `Framing.LittleEndianRoundTrip` | build_support/source_ingest_contract.rs:112-115 | a length written as eight little-endian bytes reads back as itself |
| `Framing.FieldPrefix` | build_support/source_ingest_contract.rs:112-115 | a framed field ends where its length says, so no field boundary can move |
| `Framing.WordReads` | build_support/source_ingest_contract.rs:112-115 | a count or an integer, reduced to 64 bits, is read back from its eight bytes |
| `Toml.EmitPrefix` | build_support/source_ingest_contract.rs:209-246 | encodings that agree in front of anything encode the same value, and what follows them is equal: the encoding is a prefix code |
| `Toml.SameEmits` | build_support/source_ingest_contract.rs:235-243 | key order never changes the bytes, at any depth |
| `Toml.EmitIdentifies` | build_support/source_ingest_contract.rs:209-246 | two well-formed values have equal encodings if and only if they are the same value up to key order; arrays stay ordered and types distinct |
| `TomlReader.ReadsBack` | build_support/source_ingest_contract.rs:209-246 | round trip: a reader of the format, given an encoded value in front of anything, returns that value up to key order, with the keys of every table ascending byte by byte, and the rest |
| `CargoNormalization.IdentifyExactly` | build_support/source_ingest_contract.rs:156-188 | a pair is recognised if and only if the manifest has a name and a version and exactly one lock entry is that root |
| `CargoNormalization.RefusedIdentity` | build_support/source_ingest_contract.rs:161-184 | which reason is given for leaving a pair as it is, as far as the manifest and the kind of the list go |
| `CargoNormalization.RefusedRoots` | build_support/source_ingest_contract.rs:185-200 | and as far as the roots in the list go: none, or more than one |
| `CargoNormalization.NormalizedCargoInputs` | build_support/source_ingest_contract.rs:154-204 | the loop that looks for the one root and removes the versions computes the specification, refusals included |
| `CargoNormalization.RenumberingIsForgotten` | build_support/source_ingest_contract.rs:150-204 | re-versioning both files consistently never changes the output |
| `CargoNormalization.OnlyRenumberingIsForgotten` | build_support/source_ingest_contract.rs:150-204 | without a twin of the root, equal outputs mean the pairs differ in the root version only |
| `CargoNormalization.TwinIsForgotten` | build_support/source_ingest_contract.rs:161-188 | with a version-less, source-less twin, a pair that is not a renumbering has the same output |
| `CargoNormalization.TwinProject` | build_support/source_ingest_contract.rs:161-188 | a manifest and a lockfile with one package and its twin: another lockfile, not a renumbering, has the same output |
| `CargoNormalization.ForgetsOnlyTheVersion` | build_support/source_ingest_contract.rs:150-204 | the release version is all that is forgotten if and only if the lockfile has no such twin |
| `CargoNormalization.CargoInputsIdentify` | build_support/source_ingest_contract.rs:124-147 | the emitted Cargo bytes are equal if and only if both pairs are raw and equal, or both normalise to the same values; a raw and a normalised pair never collide |
| `CargoNormalization.CargoInputsForgetOnlyTheVersion` | build_support/source_ingest_contract.rs:124-204 | of two normalising pairs of files, the first without a twin, the emitted bytes are equal if and only if one is a renumbering of the other |
| `TreeWalk.ReadDirectory` | build_support/source_ingest_contract.rs:64-81 | reading one directory, in any order, keeps the invariant that what is queued, visited and collected covers the reached tree |
| `TreeWalk.Walk` | build_support/source_ingest_contract.rs:60-82 | the worklist terminates on any finite tree, fails exactly when a root is missing, and collects exactly the reached files and watches exactly the reached directories, whatever the listing order |
| `TreeWalk.PruningIsExact` | build_support/source_ingest_contract.rs:28-35 | pruning during the walk equals filtering every file by the lists if and only if no listed file name is a directory with files below it |
| `PresentationRules.InputsAreIntended` | build_support/source_ingest_contract.rs:28-35 | the same for the repository's own lists and roots |
| `PresentationRules.FileAsDirectoryIsDropped` | build_support/source_ingest_contract.rs:28-35 | a file below a directory named like a presentation file is dropped although no list names it |
| `PathNames.RenderMeans` | build_support/source_ingest_contract.rs:86-88 | the name of an input, cut at its slashes, is its path, cut again where a component holds a slash or a backslash itself |
| `PathNames.SameRendering` | build_support/source_ingest_contract.rs:86-88 | two inputs get the same name if and only if they have the same pieces |
| `PathNames.PortableRoundTrip` | build_support/source_ingest_contract.rs:86-88 | without separators in its components, a path is read back from its name |
| `SourceContract.EmitListing` | build_support/source_ingest_contract.rs:84-99 | the input loop frames the number of inputs and every name and content in path order, and fails exactly on the first kind of unreadable input |
| `SourceContract.EmitFeatures` | build_support/source_ingest_contract.rs:100-109 | the feature loop frames their number and every pair in order |
| `SourceContract.EmitContract` | build_support/source_ingest_contract.rs:46-110 | the stream is produced exactly for projects whose roots exist and whose inputs can be read, and is the specified one |
| `SourceContract.InputsAre` | build_support/source_ingest_contract.rs:46-82 | with presentation files that are files, the inputs are the three top-level files and everything below the two source directories that is not listed as presentation |
| `ContractReader.ContractReadsBack` | build_support/source_ingest_contract.rs:84-109 | round trip: a reader of the stream finds the header, the list of the inputs and the list of the features, and nothing else |
| `ContractReader.InputsInOrder` | build_support/source_ingest_contract.rs:84-86 | the inputs come in ascending order of their paths, component by component |
| `ContractReader.FeaturesInOrder` | build_support/source_ingest_contract.rs:100-109 | the features come in ascending order of name and value |
| `ContractReader.FeaturesAreListed` | build_support/source_ingest_contract.rs:100-104 | they are the environment variables whose names begin with `CARGO_FEATURE_`, each once |
| `SourceContract.ContractDecodes` | build_support/source_ingest_contract.rs:84-109 | streams are equal if and only if they carry the same inputs and the same set of features: no boundary between names, contents and features can shift |
| `SourceContract.ContractIdentifies` | build_support/source_ingest_contract.rs:46-147 | two projects have equal streams if and only if they have the same slash-normalised names, the same file bytes, the same Cargo pair up to normalisation and the same features |
| `SourceContract.ContractForgetsOnlyTheVersion` | build_support/source_ingest_contract.rs:46-204 | when both Cargo pairs normalise and the first has no twin, streams are equal if and only if sources and features are the same and one release is a renumbering of the other |
| `SourceContract.PortableSources` | build_support/source_ingest_contract.rs:84-99 | without slashes and backslashes in names, the same listed sources are the same paths with the same bytes |
| `IndexGuard.DirectoryNames` | scripts/cass_lexical_ipc.py:46-53 | a directory lists exactly its names, within the limit |
| `IndexGuard.NamesInOrder` | scripts/cass_lexical_ipc.py:46-53 | the names are in ascending order |
| `IndexGuard.FlatCheckSeesTheTree` | scripts/cass_lexical_ipc.py:219-239 | on a file system that stands still, the flat node check passes if and only if the whole tree at the path is the captured one, in names, inodes and stamps at every depth |
| `IndexGuard.Guard.Capture` | scripts/cass_lexical_ipc.py:203-217 | while the file system moves, what the recursive capture appends is some tree laid out flat, within the file and depth limits; the open descriptors are those of the nodes, in order, and one more if and only if one of the capture's own `fstat` calls was not answered; a still tree within the limits is captured exactly |
| `IndexGuard.Guard.Unchanged` | scripts/cass_lexical_ipc.py:219-239 | the loop with its early exits decides the flat check |
| `IndexGuard.Guard.Close` | scripts/cass_lexical_ipc.py:245-251 | the nodes' descriptors are closed one by one, last first, each being open when it is closed, and nothing else is |
| `IndexGuard.Guard.Admit` | scripts/cass_lexical_ipc.py:189-201 | an admitted guard is a snapshot of the whole tree as it finally stands, and its nodes own exactly the open descriptors; a refused one leaves none open if and only if every `fstat` it made on a descriptor it had just opened was answered, and otherwise exactly the descriptor of the last one; a still tree within the limits is admitted |
| `IndexGuard.UnstampedRoot` | scripts/cass_lexical_ipc.py:203-206 | a path that opens and whose `fstat` fails: the guard is refused and its descriptor stays open |
| `Protocol.AugmentedIsValid` | scripts/cass_lexical_ipc.py:292-330 | a valid native answer, augmented by the owner, passes the client's validator if and only if the epoch is positive and fits 64 bits and a full verification was not answered by a reused reader |
| `Protocol.NativeExactly` | scripts/cass_lexical_ipc.py:292-315 | what the worker's side of the validator accepts: at most the five keys, the request's number, and either a result that says whether the reader was reused or an error |
| `Protocol.ClientExactly` | scripts/cass_lexical_ipc.py:292-330 | what the client's side accepts: the same with exactly the admission that goes with the result and the request, and none beside an error |
| `Protocol.AcceptedAnswer` | scripts/cass_lexical_ipc.py:292-330 | an accepted answer is retained if and only if its reader was reused, and a full verification is strict |
| `LexicalOwner.Owner.CloseWorker` | scripts/cass_lexical_ipc.py:404-416 | closing ends the worker and drops the guard, except that a worker that is not reaped leaves the guard |
| `LexicalOwner.Owner.OpenWorker` | scripts/cass_lexical_ipc.py:423-443 | replacing worker and guard, with the state left by each failure on the way |
| `LexicalOwner.Owner.ExchangeReply` | scripts/cass_lexical_ipc.py:444-477 | the exchange and its checks, each failure ending in the handler that closes the worker |
| `LexicalOwner.Owner.ConcludeReply` | scripts/cass_lexical_ipc.py:451-473 | error replies, lifecycle violations, epochs and oversized answers |
| `LexicalOwner.Owner.Serve` | scripts/cass_lexical_ipc.py:418-477 | one request takes the object from its old state to the specified new state and outcome |
| `LexicalOwner.Owner.ServeAll` | scripts/cass_lexical_ipc.py:397-477 | a whole sequence of requests and closes takes the object through the specified run, outcome by outcome |
| `LexicalOwner.AnswerShape` | scripts/cass_lexical_ipc.py:444-477 | whatever the worker claims, an answer passes the client's validator, carries the owner's epoch, and is retained only from the worker that was there before |
| `LexicalOwner.RunKeepsInvariant` | scripts/cass_lexical_ipc.py:397-477 | the invariant of every run of requests, failures and closes |
| `LexicalOwner.LiveWorkerIsVouchedFor` | scripts/cass_lexical_ipc.py:404-477 | after any run, a live worker has a guard and has itself given a strict answer |
| `LexicalOwner.StrictEpochsIncrease` | scripts/cass_lexical_ipc.py:458-470 | strict answers carry strictly increasing epochs |
| `LexicalOwner.RetainedContinues` | scripts/cass_lexical_ipc.py:418-470 | a retained answer repeats epoch and worker of the preceding outcome, rejected requests aside, and that outcome was an answer |
| `LexicalOwner.FirstAnswerIsStrict` | scripts/cass_lexical_ipc.py:418-470 | a newly spawned worker never yields a retained answer |
| `LexicalOwner.FullVerificationIsFresh` | scripts/cass_lexical_ipc.py:418-470 | a full verification is strict and comes from a worker that never answered before |
| `LexicalOwner.RetainedExactly` | scripts/cass_lexical_ipc.py:418-470 | a request is answered from the reader that is there if and only if it finds a live worker on an unchanged index whose reply says so, in time and within the limits; nothing but the sequence number changes |
| `LexicalOwner.StrictExactly` | scripts/cass_lexical_ipc.py:418-470 | it is answered strictly if and only if a worker, found or started by a complete sequence of steps, replies without a reused reader; which worker, which epoch and which state follow |
| `LexicalOwner.ErrorReplyExactly` | scripts/cass_lexical_ipc.py:451-457 | a worker's error reaches the client if and only if it was well-formed and timely and the worker could be closed; it is valid for the client's request |
| `LexicalOwner.FailureLeaves` | scripts/cass_lexical_ipc.py:404-477 | a failed request leaves no worker, and its guard only if the worker could not be reaped at the end |
| `LexicalOwner.UndisturbedRun` | scripts/cass_lexical_ipc.py:418-470 | over any undisturbed run one worker is started, and every request after the first is answered from its reader under the first epoch |
| `GuardedOwner.HistoryExists` | scripts/cass_lexical_ipc.py:418-477 | every sequence of requests and closes has a run of the owner together with the tree its guard captured |
| `GuardedOwner.GuardedRunsAreRuns` | scripts/cass_lexical_ipc.py:418-477 | such a run, with every question about the index answered by the flat check, is a run of the owner, so all the above holds of it |
| `GuardedOwner.AdmitIndex` | scripts/cass_lexical_ipc.py:189-201 | what the guard's own capture and check admit is an admission as those runs assume it: a bounded tree that was there at the final check, held by the new guard |
| `GuardedOwner.AskGuarded` | scripts/cass_lexical_ipc.py:418-477 | one request over the owner's and the guard's own code, from the check before reuse over admission to the check after the exchange, takes state, guarded tree and outcome through one step of such a run |
| `GuardedOwner.RetainedGuardedExactly` | scripts/cass_lexical_ipc.py:418-470 | over the index: a request is answered from the reader that is there if and only if the guarded tree is at the path before and after, and the rest is in place; the same tree stays guarded |
| `GuardedOwner.StrictGuardedExactly` | scripts/cass_lexical_ipc.py:418-470 | and strictly if and only if the tree held, or newly admitted, is at the path after the exchange, and the rest is in place |
| `GuardedOwner.EveryAnswerWasChecked` | scripts/cass_lexical_ipc.py:187-251 | every answer, retained or strict, was given while the tree at the guarded path, after the exchange, was the very tree captured when its worker was started |
| `PipeExchange.Receive` | scripts/cass_lexical_ipc.py:499-513 | for every schedule of partial reads the result is one whole frame within the limit, or says exactly why not; a stream that is a single frame is received whole unless time runs out |
| `PipeExchange.ExchangePipes` | scripts/cass_lexical_ipc.py:333-369 | for every schedule, success means the whole request was written and exactly one frame came back; what was written is always a prefix of the request |
| `PipeExchange.RunBounded` | scripts/benchmark_quill_query_fuel.py:79-158 | both streams are retained as exact prefixes within the limit, and the limit is reported exactly when it is exceeded, for every schedule |
| `Installer.NextConfined` | scripts/install_shared_cass.py:52-153 | one operation of one installer touches only its own staging names, new targets and the link |
| `Installer.StepKeepsSound` | scripts/install_shared_cass.py:82-144 | every operation, crash and new installer keeps the invariant |
| `Installer.RunIsSafe` | scripts/install_shared_cass.py:52-153 | every run is a sequence of sound states and safe steps |
| `Installer.TargetsAreForever` | scripts/install_shared_cass.py:96-125 | over any run, an immutable target is never removed and always holds the same bytes, of its digest |
| `Installer.LinkAlwaysResolves` | scripts/install_shared_cass.py:82-137 | over any run, the installed name always resolves, to the previous file or to a complete verified target, and a regular file is replaced only once it is retained |
| `InstalledExecutable.StepKeepsFit` | scripts/install_shared_cass.py:102-125 | every operation, crash and new installer keeps the invariant that complete staged files, and targets that appear after an installer found none, are executable |
| `InstalledExecutable.ReturnMeansExecutable` | scripts/install_shared_cass.py:102-144 | at a normal return of any run the name resolves to an executable file with the source digest, although a target published by another installer is accepted without looking |
| `InstalledExecutable.IncompleteIsNotExecutable` | scripts/install_shared_cass.py:112-117 | no incomplete copy can be executed, in any state of any run |
| `Conversion.StartExactly` | scripts/install_shared_cass.py:58-101 | the first operation goes on, or keeps a regular destination, or refuses, each if and only if its condition holds |
| `Conversion.WrongTargetsAreRefused` | scripts/install_shared_cass.py:83-125 | an entry that stands where a target should be is refused unless it is what its name says; the directory stays as it is |
| `Conversion.ConversionNeedsConsent` | scripts/install_shared_cass.py:60-132 | over any run a regular destination stays what it was until an installer started with `--bootstrap-regular` has found it idle at its start and again before it made the link |
| `Conversion.NoConsentNoConversion` | scripts/install_shared_cass.py:60-64 | without `--bootstrap-regular` no run ever touches a regular destination |
| `Leftovers.FailureGivesUp` | scripts/install_shared_cass.py:52-144 | a failing system call changes nothing on disk and leads out of the installation, through the removals it owes |
| `Leftovers.NothingStaysBehind` | scripts/install_shared_cass.py:110-137 | over any run, an installer that was not killed and could remove its files leaves none of its staging names behind |
| `Installer.InstallAlone` | scripts/install_shared_cass.py:52-153 | an installer that is not disturbed returns normally, however the source is cut into chunks, with the name pointing at the target of the source and older targets untouched |
| `ContextPack.FreshnessExactWindows` | src/context_pack.rs:263-281 | the decay never overflows `i64`, for all timestamps, if and only if the window is at most 152,502,844 days or wraps negative |
| `PackPriority.FreshnessInvertsExactly` | src/context_pack.rs:263-281 | an older reference can score fresher than a newer one if and only if the window is longer than 152,502,844 days and at most 106,751,991,167 |
| `ContextPack.FreshnessDecays` | src/context_pack.rs:263-281 | known ages score 100 exactly when stale, else 300 to 1000, and never higher when older |
| `ContextPack.CombineMonotone` | src/context_pack.rs:240-247 | the combined score stays within 1000 and is monotone in relevance, freshness and authority, non-finite inputs included |
| `PackPriority.PerMilleMeans` | src/context_pack.rs:240-248 | a signal counts in per mille, rounded down, out of range ones as the nearer end and NaN as none |
| `PackPriority.ScoreMeans` | src/context_pack.rs:240-252 | the score is half relevance, three tenths freshness and a fifth authority, rounded down; the cost is a token for every four characters, rounded up, and eight more |
| `PackPriority.FreshnessMeans` | src/context_pack.rs:263-281 | freshness falls linearly from 1000 to 300 across the window, rounded down, is 100 past it and 400 when unknown |
| `ContextPack.Classify` | src/context_pack.rs:118-137 | the first loop sorts every candidate into excluded, degraded or scored |
| `ContextPack.Fill` | src/context_pack.rs:149-161 | the loop selects greedily with saturating comparison, and its unchecked addition never overflows |
| `ContextPack.Render` | src/context_pack.rs:116-161 | the plan as a whole: the four lists and the tokens used |
| `PackPriority.PlanMembers` | src/context_pack.rs:118-137 | where each candidate ends up, by its risk and its need of the semantic model |
| `PackPriority.RankedInOrder` | src/context_pack.rs:139-145 | references are considered by score, then freshness, then id |
| `PackPriority.OmittedIsCrowdedOut` | src/context_pack.rs:147-161 | whatever is omitted does not fit beside the selected references that are preferred to it |
| `PackPriority.EvidenceBudgetMeans` | src/context_pack.rs:147-148 | 64 tokens are set aside |
| `ContextPack.NothingIsLost` | src/context_pack.rs:118-161 | the four lists together are the candidates, each once |
| `ContextPack.NoOmittedFits` | src/context_pack.rs:152-161 | no omitted reference fits into what is left at the end |
| `ContextPack.SelectionForgetsOrder` | src/context_pack.rs:139-161 | with distinct ids, selection and omission do not depend on the input order |
| `PackSummary.CountsAddUp` | src/context_pack.rs:163-171 | the four counts add up to the number of candidates |
| `PackSummary.SummaryMeans` | src/context_pack.rs:332-361 | the status is ok if and only if every candidate was selected, and each of the six advices is given if and only if its condition on the candidates and lists holds: a privacy review when every candidate was excluded, a larger budget when nothing was selected although some candidate was not excluded |
| `PackSummary.IncreaseBudgetHelps` | src/context_pack.rs:355-356 | when a larger budget is advised, some budget selects something if and only if some scored reference costs no more than the largest evidence budget |
| `PackSummary.BudgetAdvisedInVain` | src/context_pack.rs:355-356 | a plan for which a larger budget is advised although no budget selects anything |
| `PackSummary.UtilizationIsPercentage` | src/context_pack.rs:371 | a plan whose excerpts and candidates stay below about 7.4e17 characters reports the rounded-down percentage of the budget used, at most 100: the product fits 64 bits |
| `Ndcg.SelectionBelowTop` | src/bakeoff.rs:245-256 | any members of a descending list sum to at most its first members |
| `Ndcg.DcgBelowIdeal` | src/bakeoff.rs:228-282 | rearrangement: a ranking that selects from the judged gains never beats the gains in descending order |
| `Ndcg.DcgMeetsIdeal` | src/bakeoff.rs:228-282 | strict rearrangement: it equals the ideal if and only if its counted gains are the ideal ones, position by position |
| `JudgedGains.DistinctRankingSelects` | scripts/evaluate_title_retrieval.py:414-418 | the positive gains of a ranking without repetitions are a sub-multiset of the judgments |
| `JudgedGains.RankingBelowIdeal` | scripts/evaluate_title_retrieval.py:414-421 | its DCG is at most the ideal |
| `JudgedGains.RankingMeetsIdeal` | scripts/evaluate_title_retrieval.py:414-421 | it equals the ideal if and only if the counted relevances are the largest judged ones, in order |
| `TitleMetrics.DistinctHits` | scripts/evaluate_title_retrieval.py:340-344 | the loop keeps first occurrences in order and cuts at ten |
| `TitleMetrics.FirstOccurrencesInOrder` | scripts/evaluate_title_retrieval.py:340-344 | distinct documents come in the order of their first occurrence |
| `TitleMetrics.NdcgInUnitInterval` | scripts/evaluate_title_retrieval.py:414-421 | NDCG lies in [0, 1] for every ranking, repetitions included |
| `TitleMetrics.NdcgVanishesExactly` | scripts/evaluate_title_retrieval.py:414-421 | NDCG is zero if and only if there is no hit among the first ten |
| `TitleMetrics.NdcgOneExactly` | scripts/evaluate_title_retrieval.py:414-421 | NDCG is 1 if and only if some judgment is positive and the first ten distinct documents have the largest judged relevances, in order |
| `NdcgValues.TitleFormula` | scripts/evaluate_title_retrieval.py:414-421 | NDCG is the sum of (2^relevance - 1) / log2(position + 1) over the first ten distinct documents, over the same sum for the judged relevances in descending order |
| `NdcgValues.SwappedTitles` | scripts/evaluate_title_retrieval.py:414-421 | its closed form for two judged documents in the wrong order |
| `TitleMetrics.MetricsAgree` | scripts/evaluate_title_retrieval.py:414-421 | the hit flags, the reciprocal rank and the recall agree with each other and stay in range |
| `TitleMetrics.HitMeans` | scripts/evaluate_title_retrieval.py:414-421 | the hit flags and the reciprocal rank follow from the position of the first judged document |
| `TitleMetrics.MissMeans` | scripts/evaluate_title_retrieval.py:414-421 | they are zero without one; recall is the part of the judged documents found |
| `TitleMetrics.GainsLosses` | scripts/evaluate_title_retrieval.py:398-405 | the loop lists exactly the gained and the lost queries, in record order |
| `TitleMetrics.RecordContributes` | scripts/evaluate_title_retrieval.py:398-405 | each record contributes its query to exactly the list its two flags say, in its place |
| `TitleMetrics.NetChange` | scripts/evaluate_title_retrieval.py:398-405 | gains minus losses is the change in the number of first hits |
| `Bakeoff.Validate` | src/bakeoff.rs:380-428 | validation succeeds if and only if the corpus is sound, and otherwise reports the first unsound query truthfully |
| `Bakeoff.SoundCorpusMeans` | src/bakeoff.rs:380-428 | soundness spelled out, judgment by judgment |
| `Bakeoff.DcgAtK` | src/bakeoff.rs:259-282 | the accumulation loop computes the discounted sum, refusing non-finite and negative relevances and empty input |
| `NdcgValues.DcgFormula` | src/bakeoff.rs:259-282 | that outcome is the sum of (2^relevance - 1) / log2(position + 1), or the refusal, or no value |
| `Bakeoff.NdcgAtK` | src/bakeoff.rs:228-257 | sorting the whole ground truth and dividing computes the specified outcome, no-data cases included |
| `NdcgValues.NdcgFormula` | src/bakeoff.rs:228-257 | that outcome is the formula for the results over the formula for the judgments in descending order, with every refusal and every case without a value |
| `Bakeoff.QueryHasNdcg` | src/bakeoff.rs:656-690 | a query of a sound corpus has an NDCG if and only if its collected judgments contain a positive one |
| `Bakeoff.QueryInUnitInterval` | src/bakeoff.rs:656-690 | with distinct document ids it lies in [0, 1], whatever the embedder ranks first |
| `Bakeoff.QueryOneExactly` | src/bakeoff.rs:656-690 | and it is 1 if and only if the first `k` documents have the largest judged relevances, in order |
| `NdcgValues.QueryFormula` | src/bakeoff.rs:656-690 | it is the formula for the first `k` documents over the formula for the collected judgments in descending order |
| `NdcgValues.LastJudgmentCounts` | src/bakeoff.rs:629-635 | of several judgments of one document the last counts |
| `NdcgValues.SwappedDocuments` | src/bakeoff.rs:656-690 | its closed form for two judged documents in the wrong order |
| `Bakeoff.DistinctJudgmentsStayPositive` | src/bakeoff.rs:395-426 | with distinct judged ids, validation guarantees the positive judgment |
| `Bakeoff.ReplacedJudgmentHasNoNdcg` | src/bakeoff.rs:395-426 | a concrete query that passes validation and has no NDCG, for any number of counted results |
| `Bakeoff.RepeatedDocumentExceedsOne` | src/bakeoff.rs:656-690 | a repeated document id and more than one counted result let an NDCG exceed 1 |
| `Bakeoff.DistinctIdsExactly` | src/bakeoff.rs:656-690 | NDCG stays in [0, 1] for all sound queries and rankings if and only if the ids are distinct or only the first result counts |
| `Bakeoff.EvaluateQuery` | src/bakeoff.rs:656-690 | one round of the loop has the specified outcome, a number exactly under that condition |
| `Bakeoff.Evaluate` | src/bakeoff.rs:590-710 | the evaluation succeeds if and only if the corpus is sound and every query keeps a positive judgment; the aggregate is the mean, in [0, 1] for distinct ids |
| `Fusion.BestIsMaximum` | scripts/evaluate_title_retrieval.py:367-371 | the deduplicating dictionary holds each document's maximum |
| `Fusion.RetainChannel` | scripts/evaluate_title_retrieval.py:367-372 | the loop and the cut produce the ordered channel |
| `FusionValues.ChannelMeans` | scripts/evaluate_title_retrieval.py:367-372 | a channel holds a document with its best score if and only if fewer documents than the budget come before it |
| `FusionValues.ActiveChannelsMean` | scripts/evaluate_title_retrieval.py:366-372 | and only if its weight is not zero |
| `Fusion.CompetitionRanks` | scripts/evaluate_title_retrieval.py:373-381 | the loop over positions computes the closed form: one plus the number of strictly better documents, or the position |
| `Fusion.RanksDistinguish` | scripts/evaluate_title_retrieval.py:373-381 | ordinal ranks are strictly increasing up to the number of documents; competition ranks are equal exactly for equal scores |
| `Fusion.ShareOrder` | scripts/evaluate_title_retrieval.py:391-393 | a better position never contributes less, and ties contribute equally if and only if ranks are not ordinal |
| `Fusion.FuseChannels` | scripts/evaluate_title_retrieval.py:382-395 | the output loop over the union, in any order, produces the fused list |
| `Fusion.Fuse` | scripts/evaluate_title_retrieval.py:347-395 | fusion is refused exactly for invalid parameters, and otherwise is the specified list for every policy |
| `FusionValues.FusedExactly` | scripts/evaluate_title_retrieval.py:366-395 | a document and a value are in the fused list if and only if the value is what the policy makes of its scores or ranks in the two channels, the absent one adding nothing, and fewer documents than the limit are worth more |
| `FusionValues.FusedInOrder` | scripts/evaluate_title_retrieval.py:395 | the list is in order of value, then id |
| `FusionValues.ReporterMaxMeans` | scripts/evaluate_title_retrieval.py:365-366 | the unweighted policy returns the best hits of both lists together, repetitions included, in order |
| `Fusion.PermutationSameBests` | scripts/evaluate_title_retrieval.py:367-371 | permuting the hits keeps every best score |
| `Fusion.WorseDuplicateSameBests` | scripts/evaluate_title_retrieval.py:367-371 | a duplicate that is no better keeps every best score |
| `Fusion.OnlyBestScoresMatter` | scripts/evaluate_title_retrieval.py:347-395 | fusion depends on the hits only through each channel's best scores |
| `Fusion.OutputIsOrdered` | scripts/evaluate_title_retrieval.py:382-395 | the output lists distinct documents of the channels in (-value, id) order, and leaves one out only for better ones at the limit |
| `Fusion.ExtremeWeightsKeepOrder` | scripts/evaluate_title_retrieval.py:366-395 | at weight 0 or 1 all four policies return the active channel's document order |
| `Fusion.NeverPunishesTheBetter` | scripts/evaluate_title_retrieval.py:382-395 | a document that leads in both channels never gets a lower value |
| `UbsSample.LinesConserve` | scripts/collect_ubs_report.py:106-109 | splitting loses nothing but a final line feed, and no line contains one |
| `UbsSample.LineAndCodeExactly` | scripts/collect_ubs_report.py:155-163 | a suffix is read as a line and a code if and only if it is positive digits, a colon and that code |
| `UbsSample.NumeralReadsBack` | scripts/collect_ubs_report.py:155-160 | the decimal numeral of a number is read back as that number |
| `UbsSample.PinnedSources` | scripts/collect_ubs_report.py:77-121 | the pins are rejected exactly when one is not acceptable; otherwise the readable ones become sources, and each is reported if and only if it is unavailable or changed |
| `UbsSample.AcceptableExactly` | scripts/collect_ubs_report.py:80-102 | a pin is acceptable if and only if its path is a chain of proper names joined by slashes, its digest is 64 hexadecimal digits, and it follows no link |
| `UbsSample.ReadableMembers` | scripts/collect_ubs_report.py:103-120 | the sources are what the readable pins say |
| `UbsSample.PinsStayApart` | scripts/collect_ubs_report.py:77-121 | distinct pins are read as sources with distinct paths |
| `UbsSample.AddressRecord` | scripts/collect_ubs_report.py:155-216 | the record of a sample that names a source: its address, and verification if and only if the pinned line confirms it |
| `UbsSample.ConfirmedExactly` | scripts/collect_ubs_report.py:170-213 | the pinned line confirms a code if and only if it is the same after trimming, tabs possibly written as two spaces, or is followed in the code by an annotation that the rule's grammar has |
| `UbsSample.SampleRecord` | scripts/collect_ubs_report.py:124-218 | the longest pinned name decides, and every other sample is retained unverified |
| `UbsSample.VerifiedQuotesThePin` | scripts/collect_ubs_report.py:124-218 | a verified record quotes an unchanged pinned source at an existing line that agrees with it |
| `UbsSample.CitationIsRead` | scripts/collect_ubs_report.py:145-163 | a citation is attributed to its source, line and code if and only if no longer pinned name begins it |
| `UbsSample.LongerNameCaptures` | scripts/collect_ubs_report.py:145-163 | a sample written for one pinned source that is attributed to another |
| `UbsReport.CollectSamples` | scripts/collect_ubs_report.py:277-281 | the inner loop records every sample of a finding in order and counts the verified ones |
| `UbsReport.CollectFindings` | scripts/collect_ubs_report.py:258-298 | the outer loop keeps every counter, group and record accounting for the findings seen, and stops at a finding it cannot interpret |
| `UbsReport.GroupsAddUp` | scripts/collect_ubs_report.py:258-298 | every counter is the sum of what the groups say |
| `UbsReport.RuleOfExactly` | scripts/collect_ubs_report.py:258-276 | which findings carry annotations |
| `UbsReport.Collect` | scripts/collect_ubs_report.py:221-318 | the collection is refused exactly for input it cannot interpret; otherwise each error is listed if and only if it applies, and the verdict is "verified" if and only if its declarative statement holds |
| `UbsReport.VerifiedConserves` | scripts/collect_ubs_report.py:299-304 | a verified report conserves every severity: declared is emitted plus missing, and verified is emitted |
| `UbsReport.EveryEmissionRecorded` | scripts/collect_ubs_report.py:277-298 | per severity there are as many records as emitted samples, always |
| `UbsReport.UnitsSplit` | scripts/collect_ubs_report.py:268-271 | per severity, units are emitted plus missing if and only if no finding over-emits |
| `UbsReport.RecordsAreTiled` | scripts/collect_ubs_report.py:272-298 | every record lies in exactly one group's range, at the offset of its sample in that finding |
| `FsqlitePin.CheckPackage` | build.rs:653-674 | one member's violations and remediation, in order |
| `FsqlitePin.FamilyMeans` | build.rs:648-651 | the family is `fsqlite` and every name that goes on after `fsqlite-` |
| `FsqlitePin.EntryViolationsInOrder` | build.rs:655-674 | one member's violations come once each, in the order they are pushed |
| `FsqlitePin.OneUpdate` | build.rs:661-667 | one entry is updated at most once |
| `FsqlitePin.Validate` | build.rs:644-681 | no violation is recorded if and only if every family member resolves once, at 0.4.12, from the registry, and the engine is present |
| `FsqlitePin.ViolationsAreRaised` | build.rs:647-675 | a violation is listed if and only if some entry gives rise to it |
| `FsqlitePin.OffVersionMembers` | build.rs:659-667 | an update is listed if and only if some family member is off-version and the update names it and its version |

## Left out

- IEEE rounding, and `2^x` or a sum overflowing to infinity: reals are used, so a bake-off relevance too large for `exp2` is not the error it is in `src/bakeoff.rs`. NaN similarities are not modelled; the ranking of a query is an arbitrary arrangement of the documents.
- The text of TOML and JSON documents: parsing is an arbitrary function whose results are well-formed values, and the injectivity of the printed form of a TOML date is taken from the value model.
- `Path::to_string_lossy` on names that are not UTF-8: names are byte strings.
- Symbolic links and unreadable entries inside the source tree: an entry is a file or a directory, and an input that is absent or a directory cannot be read.
- `LocalMounts`, mount tables and `/proc` parsing: whether local reuse is possible is an arbitrary choice at every consultation, so the safety of the owner does not rest on it.
- `validate` of an incoming request is reduced to its verdict; the protocol's message fields are those the validators read.
- Wall-clock deadlines: they are choices that may strike at any step; no latency is claimed.
- Sockets, peer credentials, locks, signals, argument parsing and the `query` client.
- Toml.EmitIdentifies: values are well-formed, that is, keys are unique in every table and every length and count is below 2^64; the same bound is the only condition of this kind on the Cargo pair and the whole stream.
- IndexGuard.FlatCheckSeesTheTree: the file system stands still during the check, and a stamp identifies its inode while the guard holds it open.
- IndexGuard.Guard.Admit: the descriptors that opening the guarded path uses on the way, and the one the check itself opens and closes again, are not in the table; closing never fails.
- GuardedOwner.EveryAnswerWasChecked: each of the two checks and the final one of an admission sees one state of the file system, and the local mounts remain a choice.
- GuardedOwner.AskGuarded: the guard is checked after every exchange, also after one that failed, where the source no longer asks and the answer changes nothing; an absent guard is one without nodes.
- PipeExchange.ExchangePipes: a schedule that ends without a deadline counts as one that has run out of time, and the process state is not part of the model.
- Installer.RunIsSafe: crashes are process crashes (no power loss, so `fsync` is a step without effect); nothing but installers writes the directory; staging names are unique; the one-time conversion of a regular destination runs without other active installers; service checks are a single choice.
- Installer.InstallAlone: it assumes that every system call of this installer succeeds, that no installer is converting a regular destination, and that whatever already has the source digest is executable.
- The directory-creation and name checks at the start of `install`.
- ContextPack.Render: privacy labels arrive trimmed and case-folded, the redactor is an arbitrary function, and the rendered JSON, its final redaction and the fixture parser are not modelled.
- PackSummary.UtilizationIsPercentage: beyond the stated size the product wraps as in release builds; a debug build stops instead.
- Fusion.Fuse: scores are reals, so the check for non-finite scores and an unknown policy name is outside the model.
- Bakeoff.Evaluate: embedding, latency, memory and the report fields other than NDCG; `percentile`, `find_winner` and `check_criteria`.
- UbsReport.Collect: the shape checks on the document before its findings are read, and the fixed text of the report.
- UbsSample.SampleRecord: the rule grammars and Unicode trimming are arbitrary functions.
- FsqlitePin.Validate: the manifest patch check before the loop and the text of the failure message.
- The other dependency contracts of `build.rs`, the patch scripts, benches, regression and feature checks, and the Rust modules whose sources this project does not cover (search, storage, connectors, redaction).
