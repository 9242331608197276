# runvault, modelled and proved

runvault records one execution of an experiment in one directory. It decides by
comparing hashes whether two runs had the same condition or were the same
execution; it copies records into a vault, deletes them deliberately, reaps runs
that were killed, and reads records older than its own format. This project
models those decisions in Dafny and proves what they promise, for all inputs,
runs and interleavings.

`dafny verify dfyconfig.toml` checks everything.

## What is here

- **Identity.** `Canonical`, `CanonicalParser`, `CanonicalReader`,
  `CanonicalWriter` and `PythonWriter` define the canonical text of a JSON value,
  a parser that recovers the value's normal form and reads no other text, and the
  two writers, of the Rust crate and of the Python package.
  `Framing`, `KeyedSort`, `HashPreimages` and `HashLayout` show that the byte
  strings fed to the hashes decode uniquely, and to what. `Pointers`, `PruneForms`, `PointerSyntax`,
  `PythonPrune` and `Exclusions` cover JSON Pointers (RFC 6901), the removal of
  excluded positions and the precedence of the exclusion lists. `Identity` puts
  them together: what makes two runs the same condition or the same execution.
  `DocumentEdits` and `SeedTraces` decide when an excluded value leaves a trace.
- **Checks of a record.** `Lineage` is the iterative depth-first search for a
  cycle among runs; `RecordChecks` are two streaming checks.
- **Preservation.** `PrefixCheck`, `SyncSteps`, `SyncReceipts`, `SyncRecords`,
  `SyncLeftBehind` and `Destination` are the copy into the vault and its receipt. `SyncHistory`, `SyncBindings`
  and `SyncChains` follow the guards over whole histories of one destination, and
  `SyncWitnesses` has a history for each way round them. `Deletion` and
  `DeletionStore` are the deletion protocol. `DeletionPlans` and
  `DeletionRefusals` say when a request is planned, as what, and why else it is
  refused; `DeletionEffects` what is left wherever it stops. `DeletionScan`, `DeletionProgress`,
  `DeletionAgain` and `DeletionRestart` say what a stopped command has done, what
  the scans then find and what is planned again; `DeletionRepeat` and
  `DeletionOneRun` decide exactly when repeating it works, and
  `DeletionWitnesses` has a repository for each way it does not. `VaultHistory`
  mixes deletions with syncs.
- **Concurrency.** `Lifecycle` (a run and its heartbeat thread), `Gc` (the
  collector and a heartbeat) and `LatestLink` (any number of finishers under a
  mutex file) are state machines over atomic steps.
- **Older records and descriptions.** `LegacyCsv`, `LegacyKeys` and `MetricDocs`.

`Wrappers`, `Sequences`, `TextOrder`, `Decimal` and `Json` hold what these share.

Code that changes state is a class or a method with loops, proved against a
function of its inputs or its old state; the theorems are about those functions.
The hash functions are not modelled: all statements are about the bytes they are
fed, since no function into a fixed number of bytes is injective. NFC, zstd, the
digest and the receipt's JSON form are parameters, assumed to do no more than
decode what they encoded or to be idempotent, where a theorem says so. A float is
named by its shortest decimal, and numbers, lock ages and instants are exact.

## Where the code and its description differ

The model follows the code. These are the places where a stated promise does not
hold of it; each has a proof of what does hold.

- `docs/identity.md:24-27` says that an absent field and an empty one stay
  distinguishable. They give the same bytes
  (`HashPreimages.AbsentAndEmptyShareAnIdentity`); the exact equivalence is
  `HashPreimages.DataIdentityDecodes`.
- `crates/runvault/src/pointer.rs:3-5` and `config.rs:73-75` say that an
  exclusion cannot silently fail to apply. A pointer with an index such as `+1`
  resolves and removes nothing; a resolving pointer applies if and only if its
  indices are plain numerals (`PruneForms.ResolvingPointerAppliesIffPlain`).
- `crates/runvault/src/config.rs:29-30` says that `hash_exclude` is removed from
  every hash. The seeds are read from the unpruned parameters, and a signed index
  removes nothing; the promise holds if and only if every position the excluding
  pointers lead to is removed and no seed is nested with one
  (`SeedTraces.NoTraceIff`, `SeedTraces.NoteInsideASeed`,
  `SeedTraces.SignedExclusionShows`).
- The append-only guard of `sync` looks only at the form its last receipt lists.
  Successful syncs that send the file keep it (`SyncChains.SuccessfulSyncsChain`),
  unless a file with its compressed name is sent beside it
  (`SyncWitnesses.OverriddenGuardAcceptsAnything`) or it is left out in between
  (`SyncWitnesses.OmittedLogIsForgotten`). A sync killed after it moved the file
  across the compression threshold leaves nothing there to compare with
  (`SyncWitnesses.DisarmedGuardAcceptsAnything`), and a second one can leave other
  bytes there (`SyncWitnesses.GuardOfOtherBytes`). Exactly which syncs leave a
  guard that binds is `SyncBindings.CompletedBindsIff` and
  `SyncBindings.StoppedBindsIff`; after which histories the next content continues
  the last is `SyncChains.ChainGoesOnIff`.
- `crates/runvault/src/sync.rs:813-819` says that files left behind are never
  deleted. One whose name is a temporary name of this sync, or the superseded
  form of a file it sends, is (`SyncLeftBehind.LeftBehindExactly`,
  `SyncLeftBehind.DisplacedIsUnreported`).
- A planned file with the compressed name of another, or the receipt's own name,
  cannot be kept beside it (`SyncReceipts.ReceiptHoldsIff`,
  `SyncReceipts.ClashingPlanSucceeds`, `SyncReceipts.CompressedNamesakeIsLost`).
- A deletion removes the last source directory and the last vault directory its
  selection takes of a run; others stay (`DeletionOneRun.GoneIffWhollyTaken`,
  `DeletionWitnesses.TwoSourcesLeaveOne`, `DeletionWitnesses.ElsewhereStays`).
- `docs/preservation.md:69-70` says that repeating a deletion completes what an
  interruption left. It does if and only if the command leaves nothing out
  (`DeletionRepeat.RestartsIffNothingLeftOut`); a run of the command can be taken
  up by its uid under a stronger condition (`DeletionOneRun.RestartsOneIff`,
  `DeletionWitnesses.DisagreeingCannotBeNamed`).
- `crates/runvault/src/run.rs:575-577` takes care that a failed start never leaves
  neither a status nor a lock, since nothing would ever report it. A run killed
  between removing its lock and recording its status is left so, and so is one
  whose last attempt to record fails (`Lifecycle.UnreportedIff`).
- `crates/runvault/src/gc.rs:81-82` says that a run whose heartbeat moved must
  be left alone. One that moves between the second read and the removal is
  reaped, and only that one (`Gc.SwallowedExactly`), and one that moves after the
  last read is left with both files (`Gc.ReapedIsFailed`).
- The link mutex judges a file abandoned and removes it in two steps. Two
  waiters that judge at once can both enter even though the holder is dead
  (`LatestLink.BothEnter`, `LatestLink.LinkGoesBack`). Exclusion holds along a run
  if and only if its takeovers are sound (`LatestLink.ExclusionIff`), the link's
  order follows from exclusion (`LatestLink.LinkNeverGoesBack`), and takeovers are
  sound when judgements are right and never overlap
  (`LatestLink.CarefulRunsAreSound`).
- `crates/runvault/src/legacy.rs:492-493` says that the file prefix keeps two
  files of a run from claiming the same metric. Two stems that differ by what
  follows a dot can (`LegacyCsv.TwoFilesClaimOneMetric`); which names, candidates
  and headers meet is decided by `LegacyCsv.NamesMeetIff`,
  `LegacyCsv.KeysMeetIff` and `LegacyCsv.HeadersDecide`.
- A legacy run with a compressed file loses its experiment in the index unless it
  lay directly below the results root (`LegacyKeys.VaultKeepsIdentityIff`).
- `crates/runvault/src/run.rs:992-996` gives the repository's declaration the
  first word on a name; the code asks the core vocabulary first. The three
  decisions agree all the same (`MetricDocs.AllowedIffClassified`).

## Model

| member | source | states |
|---|---|---|
| Lineage.CheckNoCycle | crates/runvault/src/verify.rs:520-577 | Ends with an error if and only if a run that can be reached by following the three fields of the records reaches itself; the run's own record is the one passed in, other runs' are what their siblings' files hold, and unknown or unreadable runs lead nowhere. |
| Lineage.NextIsWhereItLeads | crates/runvault/src/verify.rs:530-565 | The successors the search follows are exactly the runs named as parent, as resumed or as derived from by the record in force: the one passed in for the run itself, the one read for a sibling. |
| Lineage.Turn | crates/runvault/src/verify.rs:542-575 | One turn of the search keeps the invariant: leave entries are the current path, every enter entry is a successor of the nearest leave entry below it, and finished runs are ranked below all that reach them. |
| Lineage.ClosingEdgeIsCycle | crates/runvault/src/verify.rs:547-552 | Meeting a run already on the current path closes a walk from that run to itself. |
| Lineage.PathReaches | crates/runvault/src/verify.rs:572-574 | Everything on the current path reaches the entry waiting above it. |
| Lineage.RankDropsAlongWalk | crates/runvault/src/verify.rs:543-545 | Along any walk from a finished run the finishing order drops at every edge. |
| Lineage.RankedHasNoCycle | crates/runvault/src/verify.rs:576 | When every reachable run is finished, no reachable run lies on a cycle. |
| TextOrder.Utf8KeepsOrder | crates/runvault/src/canonical.rs:45-46 | Comparing keys by the bytes of their UTF-8 encoding and by code point gives the same answer for every pair of strings. |
| TextOrder.Utf8Injective | crates/runvault/src/canonical.rs:46 | Different strings have different UTF-8 encodings. |
| TextOrder.AscendingUnique | python/src/runvault/canonical.py:69-70 | A set of keys has only one ascending enumeration. |
| Decimal.NumeralRoundTrip | crates/runvault/src/canonical.rs:70-76 | The decimal digits of a number read back as that number. |
| Canonical.FailsExactlyWhenUnwritable | crates/runvault/src/canonical.rs:27-68 | Writing fails exactly when some node is a non-finite number or an object two of whose keys become equal under NFC, and the error it reports is about such a node. |
| CanonicalParser.CanonicalRoundTrip | crates/runvault/src/canonical.rs:21-117 | A strict parser, which takes keys only in ascending order and refuses every other spelling of a string or number, recovers from the canonical text exactly the normal form: NFC strings and keys, unordered members, negative zero folded, whole and fractional numbers kept apart. |
| CanonicalReader.CanonicalIffRead | crates/runvault/src/canonical.rs:21-117 | A text is read by that parser as a document if and only if it is that document's canonical text and the document is in normal form: no other text is canonical, in the order of keys, the escapes or the digits. |
| CanonicalReader.NormalHasTheSameText | crates/runvault/src/canonical.rs:97-99 | Writing a document and writing its normal form without normalizing give the same text. |
| CanonicalParser.SameTextIffSameNormal | crates/runvault/src/canonical.rs:12-25 | Two writable values have the same canonical text if and only if they have the same normal form. |
| CanonicalParser.NormalIsNormal | crates/runvault/src/canonical.rs:97-99 | If NFC is idempotent, normalizing twice is normalizing once. |
| CanonicalParser.TextReadsBack | crates/runvault/src/canonical.rs:101-117 | An escaped string reads back as the string, whatever follows it. |
| CanonicalParser.NumberReadsBack | crates/runvault/src/canonical.rs:70-95 | A written number reads back as itself with its kind, up to the sign of zero. |
| CanonicalWriter.SortPairs | crates/runvault/src/canonical.rs:45-46 | Sorting key-value pairs under a key order gives an ordered permutation of them. |
| CanonicalWriter.SortedPairs | crates/runvault/src/canonical.rs:45-54 | Sorting first and comparing neighbours finds a collision exactly when two keys collide under NFC, and otherwise yields each normalized key once, in code point order, with its value. |
| CanonicalWriter.SortedItems | python/src/runvault/canonical.py:60-70 | Filling a dictionary first and sorting after meets the same specification. |
| CanonicalWriter.SameSequence | python/src/runvault/canonical.py:60-70 | Any two lists that meet that specification are equal, so both implementations emit members in one sequence. |
| PythonWriter.Canonicalize | python/src/runvault/canonical.py:22-57 | If NFC is idempotent, the second writer joins exactly the canonical text, though it normalizes keys twice, and raises exactly where the first writer fails. |
| PythonWriter.EscapesAgree | python/src/runvault/canonical.py:73-86 | The two writers escape every character alike. |
| CanonicalWriter.Buffer.WriteString | crates/runvault/src/canonical.rs:101-117 | Appends exactly the quoted and escaped string to the buffer. |
| CanonicalWriter.Buffer.WriteValue | crates/runvault/src/canonical.rs:27-68 | Appends exactly the canonical text of the value, or reports its error. |
| CanonicalWriter.Buffer.WriteMembers | crates/runvault/src/canonical.rs:44-65 | Appends an object member by member in key order, or reports the first error. |
| Framing.JoinRoundTrip | crates/runvault/src/canonical.rs:127-140 | A length-prefixed concatenation splits back into its inputs. |
| Framing.JoinInjective | crates/runvault/src/canonical.rs:123-126 | Two lists of inputs have the same concatenation if and only if they are the same list. |
| Framing.Blob.PushLp | crates/runvault/src/canonical.rs:127-131 | Appends one input with its decimal length and a colon, and changes nothing before it. |
| Framing.JoinLp | crates/runvault/src/canonical.rs:134-140 | The loop produces the concatenation of the framed inputs. |
| KeyedSort.SortSpec | crates/runvault/src/hash.rs:27-28 | The stable sort by key is an ordered permutation. |
| KeyedSort.SortKeepsGroups | crates/runvault/src/hash.rs:54-55 | Among elements with equal keys the sort keeps the order they were listed in. |
| KeyedSort.OrderFreeIffKeyIdentifies | crates/runvault/src/hash.rs:54-55 | Every reordering of a list sorts to the same list if and only if elements with equal keys are equal. |
| HashPreimages.BuildDataIdentity | crates/runvault/src/hash.rs:53-78 | The loop over the sorted records builds the data identity. |
| HashPreimages.DataIdentityDecodes | crates/runvault/src/hash.rs:53-78 | Two dataset lists have the same identity if and only if, sorted by role and name, they agree record by record in all ten fields, an absent field counting as an empty one. |
| HashPreimages.AbsentAndEmptyShareAnIdentity | crates/runvault/src/hash.rs:65-74 | An absent version and an empty one give the same identity, so the documentation's promise that the two stay distinguishable does not hold of the code. |
| HashPreimages.OrderFreeIffRoleAndNameIdentify | crates/runvault/src/hash.rs:54-55 | Relisting the datasets never changes the identity if and only if records with equal role and name are the same record. |
| HashPreimages.BuildConfigPreimage | crates/runvault/src/hash.rs:86-92 | Builds the two framed inputs of the condition hash. |
| HashPreimages.ConfigPreimageDecodes | crates/runvault/src/hash.rs:81-93 | Two condition preimages are equal if and only if the canonical parameters and the data are. |
| HashPreimages.BuildEnvPreimage | crates/runvault/src/hash.rs:20-46 | Builds the five framed inputs of the environment hash, the locks sorted by kind and file. |
| HashPreimages.EnvPreimageDecodes | crates/runvault/src/hash.rs:20-46 | Two environment preimages are equal if and only if system, architecture, both versions and the sorted locks are. |
| HashPreimages.BuildExecutionPreimage | crates/runvault/src/hash.rs:114-142 | Builds the six framed inputs of the execution hash, three of them empty when there is no code. |
| HashPreimages.ExecutionPreimageDecodes | crates/runvault/src/hash.rs:114-142 | Two execution preimages are equal if and only if condition hash, seeds, commit, dirty flag, dirty hash and environment hash are; so a run without code never matches one with code. |
| HashLayout.FrameLooks | crates/runvault/src/canonical.rs:127-131 | One input stands in the bytes as its length in decimal digits, a colon and itself. |
| HashLayout.DataLayout | crates/runvault/src/hash.rs:53-78 | Read back from the data identity, the datasets come sorted by role and name, and of each its ten fields in the order of the format. |
| HashLayout.ConfigLayout | crates/runvault/src/hash.rs:81-93 | Read back from the condition preimage: the canonical parameters, then the data identity. |
| HashLayout.EnvLayout | crates/runvault/src/hash.rs:20-46 | Read back from the environment preimage: system, architecture, the two versions, then the lock files sorted by kind and file with four fields each. |
| HashLayout.ExecutionLayout | crates/runvault/src/hash.rs:114-142 | Read back from the execution preimage: the condition hash, the seeds sorted by pointer, commit, dirty flag and dirty hash or three empty inputs, and the environment hash. |
| Pointers.ResolvePointer | crates/runvault/src/pointer.rs:59-69 | The cursor loop ends at the node the tokens lead to, or at none. |
| Pointers.ResolveIsAt | crates/runvault/src/pointer.rs:59-88 | Where every array token is a plain index, following a pointer gives the node at that position. |
| Pointers.IndexSpellings | crates/runvault/src/pointer.rs:83-88 | A token is accepted as an index if and only if the index fits 64 bits and the token is its numeral, or a plus followed by any zeros and the numeral. |
| Pointers.PrunedEqualIffAgree | crates/runvault/src/pointer.rs:90-126 | Two documents have the same pruned form if and only if they have the same node kind or scalar at every position that no removed path covers. |
| PruneForms.PathStack.Rebuild | crates/runvault/src/pointer.rs:100-126 | The recursion with one shared path, pushed and popped, returns the pruned value and leaves the path as it found it. |
| PruneForms.PruneDocument | crates/runvault/src/pointer.rs:94-98 | Pruning a document by a list of pointers depends only on the set of their paths. |
| PruneForms.ShallowSubsumesDeep | crates/runvault/src/pointer.rs:94-126 | Adding a path below one already removed changes nothing. |
| PruneForms.AbsentPathRemovesNothing | crates/runvault/src/pointer.rs:100-126 | A path that names no position removes nothing. |
| PruneForms.PresentPathRemovesSomething | crates/runvault/src/pointer.rs:100-126 | A path that names a position changes the document. |
| PruneForms.ResolvingPointerAppliesIffPlain | crates/runvault/src/pointer.rs:83-125 | A pointer that resolves takes effect if and only if its array tokens are written as plain numerals. |
| PruneForms.PlusIndexIsAcceptedAndIgnored | crates/runvault/src/pointer.rs:83-117 | A pointer with a signed index resolves and removes nothing, so an exclusion can silently fail to apply. |
| PointerSyntax.UnescapeSegment | crates/runvault/src/pointer.rs:31-45 | The character loop unescapes a segment in one pass, or refuses it. |
| PointerSyntax.ParsePointer | crates/runvault/src/pointer.rs:23-51 | The parser yields the unescaped segments, or refuses the pointer. |
| PointerSyntax.RefusesExactlyMalformed | crates/runvault/src/pointer.rs:35-44 | A segment is refused exactly when some tilde is not followed by 0 or 1. |
| PointerSyntax.TwoPassesAreOne | python/src/runvault/pointer.py:25-28 | On well-formed segments the two replacements of the second implementation give what the single pass gives. |
| PointerSyntax.RawFromTokens | crates/runvault/src/pointer.rs:14-18 | A pointer's text can be rebuilt from its tokens. |
| PointerSyntax.SameTokensSameText | crates/runvault/src/config.rs:82-84 | Pointers with equal tokens have equal text, so removing duplicates by either is the same. |
| PythonPrune.PythonPruneIsRustPrune | python/src/runvault/pointer.py:46-83 | Grouping pointers by their first token and recursing gives the same value as rebuilding under a set of full paths, for every document in which every path is present. |
| Exclusions.ParseList | crates/runvault/src/config.rs:77-87 | One list parses exactly when all its pointers resolve, and keeps each once, in order of first mention; otherwise the error names the first pointer that does not resolve and says whether its syntax or the document is at fault. |
| Exclusions.ResolveBlock | crates/runvault/src/config.rs:76-104 | The three lists resolve exactly when every pointer of every list does, with the precedence applied; otherwise the error is about the first bad pointer of the first bad list. |
| Exclusions.EachPointerHasOneHome | crates/runvault/src/config.rs:73-97 | Every listed pointer ends in exactly one list: excluded before seed before invariant, without duplicates. |
| Exclusions.RemovedIsEverythingNamed | crates/runvault/src/config.rs:107-112 | What is removed before the condition hash is everything any of the three lists names, and nothing else. |
| Exclusions.PyDedup | python/src/runvault/pointer.py:125-132 | Keeps the pointers not seen before, each once, in order. |
| Exclusions.PyResolve | python/src/runvault/pointer.py:109-122 | The second implementation returns if and only if every declared pointer resolves by its own rules, and then with each pointer once, in the first list that names it. |
| Exclusions.SameLists | python/src/runvault/pointer.py:109-122 | Where the first implementation resolves the block, the lists of the second are its lists. |
| Exclusions.PythonResolvesIff | python/src/runvault/pointer.py:31-43 | Of the pointers whose syntax the first implementation accepts, the second resolves exactly those that the first resolves and that spell array indices without a plus. |
| Identity.SameConditionIff | crates/runvault/src/hash.rs:81-93 | Two runs feed the condition hash the same bytes if and only if their pruned parameters have the same normal form and their data are the same. |
| Identity.ExcludedPositionsAreInvisible | crates/runvault/src/hash.rs:86-87 | Parameters that agree outside the excluded positions feed the condition hash the same bytes. |
| Identity.SameConditionIffAgreeOutside | crates/runvault/src/hash.rs:81-93 | Two runs feed the condition hash the same bytes if and only if the normal forms of what their blocks leave show the same at every position and the data are the same; for parameters in normal form and one block, if and only if the parameters agree at every position the block does not name. |
| Identity.ReplicatesDifferInTheirSeeds | crates/runvault/src/hash.rs:96-142 | Runs that differ only at excluded positions share their condition, and share their execution if and only if every seed has the same normal form. |
| SeedTraces.NoTraceIff | crates/runvault/src/hash.rs:81-142 | The values excluded from every hash leave no trace in the bytes that either hash is fed if and only if pruning removes every position the excluding pointers lead to, however they are spelled, and no seed's position is nested with one of those. |
| SeedTraces.PlainPointersRemove | crates/runvault/src/pointer.rs:94-126 | Pointers that spell their indices plainly lead to the positions they name, and pruning removes all of those. |
| DocumentEdits.UncoveredShows | crates/runvault/src/pointer.rs:94-126 | A node at a position that no removed path covers can be changed so that every pointer still resolves and the canonical text of what pruning leaves changes. |
| SeedTraces.NoteInsideASeed | crates/runvault/src/config.rs:29-30 | A block that resolves, with an excluded note inside an object of seeds: the note leaves its trace. |
| SeedTraces.SignedExclusionShows | crates/runvault/src/pointer.rs:83-117 | A block that resolves, with no seed and one exclusion whose index has a plus: the excluded value stays in the bytes the condition is hashed from. |
| PrefixCheck.Reader.Read | crates/runvault/src/sync.rs:748-757 | A reader that may deliver fewer bytes than asked for, and none only at its end. |
| PrefixCheck.ReadFull | crates/runvault/src/sync.rs:748-757 | Fills the buffer from the bytes that are left, stopping short only where they end, whatever the pattern of short reads. |
| PrefixCheck.StoredIsPrefixOf | crates/runvault/src/sync.rs:728-745 | Comparing fixed-size chunks answers true if and only if the stored bytes are a prefix of the others, for all contents and all patterns of short reads. |
| Destination.Directory.GuardRewrite | crates/runvault/src/sync.rs:701-725 | Refuses exactly a log that does not continue the stored one, or an identifying file that differs, or a stored form that does not decode. |
| Destination.Directory.CopyInto | crates/runvault/src/sync.rs:778-799 | Writes the file under its temporary name and renames it into place; only those two names change. |
| Destination.Directory.RemoveOtherForm | crates/runvault/src/sync.rs:802-811 | Removes the other spelling of the file, if it is there. |
| Destination.Directory.PlaceFiles | crates/runvault/src/sync.rs:614-643 | The loop places the planned files in order up to the first refusal, and leaves those already placed. |
| Destination.Directory.Execute | crates/runvault/src/sync.rs:610-671 | A whole sync: files placed, what was left behind, a receipt one generation on; a refused one writes no receipt. What the receipt holds is SyncRecords.ReceiptTellsWhatHappened. |
| SyncRecords.ReceiptTellsWhatHappened | crates/runvault/src/sync.rs:625-664 | After a sync that succeeds the receipt has the run key and one entry for each planned file in turn: its path and form, the hash and length of the bytes at the source, and of the bytes that are at the stored name afterwards, unless the plan or the receipt itself puts other bytes there. |
| SyncRecords.GuardSaysWhy | crates/runvault/src/sync.rs:701-725 | For each path and any stored bytes: a log is refused as rewritten exactly when the stored content is no prefix of the new, an identifying file as contradicting exactly when the two differ, either as unreadable when the stored form does not decode, and nothing else is ever refused. |
| SyncRecords.SucceedsIff | crates/runvault/src/sync.rs:610-643 | A sync succeeds if and only if the old receipt is absent or readable, every planned file is at the source, and at its turn each finds nothing it would rewrite or contradict. |
| SyncRecords.FailureSaysWhy | crates/runvault/src/sync.rs:610-643 | A copying loop that fails has stopped before one planned file, with the destination as the files before it left it: either the source lacks that file, or the error is the reason its guard gives there. |
| SyncSteps.PartPathComesLater | crates/runvault/src/sync.rs:781-784 | A temporary name sorts after the planned path it serves, so it can only be taken from a file that is still to be placed. |
| SyncSteps.PartNameExtends | crates/runvault/src/sync.rs:781-784 | A temporary name is the name with its extension lengthened, or with a new extension when what follows the last slash has no dot but a first character. |
| SyncReceipts.StepsPlaceEverything | crates/runvault/src/sync.rs:615-643 | A loop that is not refused has placed every file and recorded each in order. |
| SyncReceipts.KeptIffNoClash | crates/runvault/src/sync.rs:571-585 | After all files are placed and before the receipt is written, every file is there in its planned form only and reads back, if and only if no two planned files meet in one compressed name. |
| SyncReceipts.ReceiptHoldsIff | crates/runvault/src/sync.rs:610-671 | After any sync that succeeds, what its receipt lists is on disk in exactly one of its two forms with the bytes that were sent, if and only if no two planned files clash and none has the receipt's own name, unless it is stored uncompressed and holds the receipt's very bytes. |
| SyncReceipts.ClashingPlanSucceeds | crates/runvault/src/sync.rs:571-585 | A plan that sizes decide, of a file and of another named as the first is when compressed: the sync succeeds with a receipt, and the first file does not read back. |
| SyncReceipts.CompressedNamesakeIsLost | crates/runvault/src/sync.rs:625-664 | A file under the receipt's own name that is sent compressed is never kept, whatever it holds. |
| SyncHistory.RefusedIsStopped | crates/runvault/src/sync.rs:615-623 | A refused sync leaves what a sync stopped before that file leaves. |
| SyncHistory.CompletedTracks | crates/runvault/src/sync.rs:615-664 | Whatever the destination held, after a completed sync its receipt lists each guarded file sent, in the form it was sent in, and that form has the bytes the ledger notes. |
| SyncHistory.StoppedTracks | crates/runvault/src/sync.rs:615-643 | A sync that stops anywhere, even between the two renames or inside a temporary file, leaves in the listed form exactly what the ledger notes. |
| SyncBindings.CompletedLeaves | crates/runvault/src/sync.rs:615-643 | What a completed sync leaves under the name its receipt lists for a guarded file: the content it sent, or what another file of the plan with the compressed name makes of it. |
| SyncBindings.CompletedBindsIff | crates/runvault/src/sync.rs:615-664 | After a sync that completes, the guard binds the next content to what was sent if and only if the plan does not override it: the file is not stored compressed beside one with its compressed name that removes that form or puts bytes there which do not continue it. |
| SyncBindings.StoppedBindsIff | crates/runvault/src/sync.rs:615-643 | From a guard that binds, a sync that stops anywhere leaves one that binds if and only if it had not moved the file to its other form, nor put another file's bytes under its name. |
| SyncHistory.GuardBindsIff | crates/runvault/src/sync.rs:618-725 | The guard accepts only continuations of a content if and only if that content is empty and the file append-only, or the listed form is there and holds, decoded, a continuation of it, or nothing that decodes. |
| SyncChains.SuccessfulSyncsChain | crates/runvault/src/sync.rs:701-725 | From any destination, over any number of successful syncs that send the file and do not override it, whatever else they send and whichever form each stores: every log sent begins with all sent before it, and run.json and config.json never change. |
| SyncChains.NextAfterCompletedIff | crates/runvault/src/sync.rs:610-725 | After a successful sync, every sync that can complete next continues what it sent of a guarded file if and only if the file is an empty log or the plan did not override it. |
| SyncChains.NextAfterOmissionIff | crates/runvault/src/sync.rs:610-725 | After a successful sync that does not send the file, every sync that can complete next continues a given content if and only if that is an empty log. |
| SyncChains.NextContinuesIff | crates/runvault/src/sync.rs:610-725 | In a destination as the ledger says, every sync that can complete next, whatever else it sends, continues what was last sent if and only if the ledger is safe. |
| SyncChains.ChainGoesOnIff | crates/runvault/src/sync.rs:610-725 | After any history of completed, refused and killed syncs whose contents form a chain so far, they still do after every sync that can complete next, if and only if the ledger of the history is safe. |
| SyncChains.GuardedContentsChain | crates/runvault/src/sync.rs:701-725 | From any destination, over any history of completed, refused and killed syncs in which no completed one overrides the guarded file and no stopped one had moved it, contents of a log are a chain of prefixes and an identifying file never changes. |
| SyncChains.NeverMovedChains | crates/runvault/src/sync.rs:701-725 | The same from the plans alone: no plan names the compressed name of the file, and no sync that stopped had placed it in its other form. |
| SyncChains.LogsGrow | crates/runvault/src/sync.rs:701-725 | Over syncs that succeed and never override it, what is sent of events.jsonl or metrics.csv continues what was sent before. |
| SyncChains.IdentityStays | crates/runvault/src/sync.rs:701-725 | Over syncs that succeed and never override it, what is sent of run.json or config.json is what was sent before. |
| SyncHistory.GuardIsIdleIff | crates/runvault/src/sync.rs:618-623 | The guard lets every content through if and only if the receipt does not list the file, its listed form is gone, or that form holds an empty append-only file. |
| SyncWitnesses.DisarmedGuardAcceptsAnything | crates/runvault/src/sync.rs:618-637 | For any two contents there is a history with one killed sync after which the second is accepted in place of the first. |
| SyncWitnesses.GuardOfOtherBytes | crates/runvault/src/sync.rs:618-637 | With a second killed sync the guard refuses again, and yet lets the next sync send bytes that do not continue what the receipt recorded. |
| SyncWitnesses.OverriddenGuardAcceptsAnything | crates/runvault/src/sync.rs:571-643 | Two successful syncs, the first of a log and a file with its compressed name: the second sends any other log. |
| SyncWitnesses.OmittedLogIsForgotten | crates/runvault/src/sync.rs:618-637 | Three successful syncs, the second without the log: the third sends any other log. |
| SyncHistory.GenerationCountsCompletions | crates/runvault/src/sync.rs:646-664 | The receipt's generation counts exactly the completed syncs. |
| SyncLeftBehind.RestOfTheDestination | crates/runvault/src/sync.rs:778-811 | A name the plan does not store under keeps its bytes, unless the plan uses it as a temporary name or removes it as a superseded form. |
| SyncLeftBehind.LeftBehindExactly | crates/runvault/src/sync.rs:820-833 | The report names exactly the files placed earlier, there before, not stored now and not displaced. |
| SyncLeftBehind.LeftBehindKeepsItsBytes | crates/runvault/src/sync.rs:813-833 | What the report names is still there with the bytes it had. |
| SyncLeftBehind.DisplacedIsUnreported | crates/runvault/src/sync.rs:802-835 | Two syncs that succeed: the second deletes a file that the first had sent and it does not, and does not report it. |
| Deletion.ReadFindsEveryRecord | crates/runvault/src/delete.rs:135-169 | A readable tombstone file yields exactly the recorded uids, each with a valid record. |
| Deletion.ReadAppended | crates/runvault/src/delete.rs:524-543 | Appending a valid tombstone for a new uid keeps the file readable and adds just that uid. |
| Deletion.BuriedOnce | crates/runvault/src/delete.rs:524-543 | Even by a plan that is out of date, a run is buried by one valid line and only if none records it. |
| DeletionStore.InOrder | crates/runvault/src/delete.rs:202-214 | The targets are taken in ascending order, each once. |
| DeletionStore.Repository.ReadTombstones | crates/runvault/src/delete.rs:135-169 | The line loop reads the file, keeping the first record of each uid, or refuses it. |
| DeletionStore.Repository.FindSources | crates/runvault/src/delete.rs:299-335 | The scan merges every selected source directory into what is known of its run, or stops at the first disagreement. |
| DeletionStore.Repository.FindVault | crates/runvault/src/delete.rs:361-412 | The vault scan does the same for aggregation copies. |
| DeletionStore.Repository.PlanDeletion | crates/runvault/src/delete.rs:172-259 | Resolves and validates every target in uid order and changes nothing. When it plans is DeletionPlans.PlanIff, what it plans DeletionRefusals.PlansSay. |
| DeletionPlans.ScanIff | crates/runvault/src/delete.rs:299-412 | The scans succeed if and only if no selected directory is a run without run.json, of another repository, misnamed, unreadable or badly named, and the selected directories of each run agree on its identity and state. |
| DeletionPlans.ReadIff | crates/runvault/src/delete.rs:135-169 | The tombstone file is read if and only if every line is blank or a valid record of this repository, and of each run the first record counts. |
| DeletionPlans.PlanIff | crates/runvault/src/delete.rs:172-297 | A request is planned if and only if it is well-formed, the file and the scans can be read, and every run it is about may go: it is there with its state recorded, failed, or finished with the flag or a tombstone; or only its tombstone is there. |
| DeletionRefusals.PlansSay | crates/runvault/src/delete.rs:214-256 | What each plan holds, from the directories themselves: the identity they agree on, the last selected source and vault directory, an old tombstone as it is or a new one with the state of the directories and the reason and time of the request. |
| DeletionRefusals.SuccessIsProtected | crates/runvault/src/delete.rs:289-296 | Without the flag, a planned run that has no tombstone has its state recorded in a selected directory, and every selected directory that records one says failed. |
| DeletionRefusals.SuccessStopsTheRequest | crates/runvault/src/delete.rs:289-296 | Without the flag, a finished run among the targets that has no tombstone stops the whole request. |
| DeletionRefusals.RefusalHasItsReason | crates/runvault/src/delete.rs:172-297 | Each kind of error a request can be refused with has its cause in the request, the tombstone file or the directories. |
| DeletionStore.Repository.Bury | crates/runvault/src/delete.rs:524-543 | Appends one line, and only for a run not yet recorded. |
| Deletion.PlacesLeft | crates/runvault/src/delete.rs:545-551 | Removing places leaves exactly the vault directories that lie at none of them. |
| Deletion.DirsLeft | crates/runvault/src/delete.rs:574-581 | Removing directories leaves exactly the source directories that are none of them. |
| DeletionRepeat.DoneLeaves | crates/runvault/src/delete.rs:505-581 | Of the copies of each planned run, a whole command leaves exactly those its plan does not name, and brings none in. |
| DeletionEffects.EveryStopLeaves | crates/runvault/src/delete.rs:505-581 | Wherever the planned deletions stop, the plans have come one after the other through burying, the vault and the source: those past each stage have their line appended, their vault directory and their own link gone, their source directory gone, and nothing else has changed. |
| DeletionStore.Repository.Carry | crates/runvault/src/delete.rs:511-522 | Carries the stages out in order and stops after any of them; a failed append changes nothing. |
| DeletionOneRun.GoneIffWhollyTaken | crates/runvault/src/delete.rs:299-412 | A command of either selection, with any number of targets, leaves no copy of a run it plans for if and only if the selection takes every copy of the run, and there is one source directory and one vault directory at most. |
| DeletionScan.ScanKeeps | crates/runvault/src/delete.rs:299-412 | In what is left after some directories are gone, a run that loses no source directory keeps its source, and one that loses no vault directory either is found as it was found before. |
| DeletionRestart.PlanAgainIs | crates/runvault/src/delete.rs:172-259 | After any number of stages of a command that leaves nothing out, the same selection plans again, and each plan is the first one with what is gone removed from it. |
| DeletionRepeat.RestartsIffNothingLeftOut | crates/runvault/src/delete.rs:172-259 | A command of either selection, stopped after any number of stages of any of its targets, can be planned again by the same selection and carried out to the state it would have reached uninterrupted, if and only if the selection takes no run twice and, where uids are named, no tombstone names a link that is there and not the run's own. |
| DeletionRepeat.SameWordsSameEnd | crates/runvault/src/delete.rs:505-522 | When the repetition gives the same reason at the same time, the two end states are equal; otherwise they differ at most in those of the tombstones it wrote. |
| DeletionOneRun.RestartsOneIff | crates/runvault/src/delete.rs:172-259 | After any number of stages of a command of either selection, one of its runs can be planned by its uid and finished, if and only if the command takes every copy of it, one of each kind, no directory without run.json names it, and its tombstone names no other link that is there. |
| DeletionOneRun.UnreadableCopyBlocksDeletion | crates/runvault/src/delete.rs:478-503 | A copy without a readable receipt stops every request that selects its run. |
| DeletionWitnesses.TwoSourcesLeaveOne | crates/runvault/src/delete.rs:323-332 | A run with two source directories is planned, loses one of them, and the repeated command ends elsewhere. |
| DeletionWitnesses.DisagreeingCannotBeNamed | crates/runvault/src/delete.rs:439-452 | A failed run whose two copies name different experiments is deleted by experiment; stopped after its tombstone, it cannot be planned by its uid. |
| DeletionWitnesses.ElsewhereStays | crates/runvault/src/delete.rs:361-419 | A failed run deleted by experiment keeps the copy that lies in the directory of another experiment. |
| DeletionWitnesses.RenamedLosesALink | crates/runvault/src/delete.rs:239-256 | A run whose old tombstone names another link: repeating a deletion that was complete takes that link away. |
| VaultHistory.PlansAreSound | crates/runvault/src/delete.rs:214-256 | For every selection a plan names one run, by a tombstone that the reader accepts. |
| VaultHistory.SyncSendsIff | crates/runvault/src/sync.rs:376-409 | A sync sends exactly the admitted runs that have no tombstone, and none at all if the tombstone file cannot be read or a run belongs to another repository. |
| VaultHistory.SendLeaves | crates/runvault/src/sync.rs:872-893 | A send puts the copy, and the link if it gets so far, in the place of the run's own directory and changes nothing else. |
| VaultHistory.EventKeeps | crates/runvault/src/sync.rs:376-409 | One command, stopped anywhere, loses no copy without a tombstone, keeps the tombstone file growing and readable with one line for each run, and touches no copy of a buried run. |
| VaultHistory.HistoryKeeps | crates/runvault/src/delete.rs:511-581 | The same over any sequence of syncs, deletions that stop after any stage of any target, and run directories that appear or change. |
| VaultHistory.DeletedStaysAbsentIff | crates/runvault/src/sync.rs:382-396 | After a whole command of either selection, a run it planned for is absent from the vault through every history that follows, if and only if the selection took all of its vault directories, one at most. |
| VaultHistory.StaleSendReturnsTheRun | crates/runvault/src/sync.rs:872-893 | A send planned before a deletion and carried out after its vault stage puts the buried run back. |
| Lifecycle.StepKeepsInv | crates/runvault/src/lockfile.rs:134-199 | Every step of either thread keeps the mutex, the stop flag, the lock and the status consistent. |
| Lifecycle.StatusExcludesLock | crates/runvault/src/run.rs:821-877 | In every interleaving and every ending, beside a status there is a lock exactly when a failed removal of it was passed over. |
| Lifecycle.StatusTellsTheEnding | crates/runvault/src/run.rs:841-877 | In every interleaving a status is recorded by one step of a run that is then over: as succeeded only if the run ended by finishing and its verification passed at that step, as failed in every other case. |
| Lifecycle.EndingWasChosen | crates/runvault/src/run.rs:821-877 | How a run ends was chosen by one step: a failed start, a malformed declaration, the call to finish or to fail, or a drop, which is also what a failed removal or recording makes of it. |
| Lifecycle.UndisturbedRunIsRecorded | crates/runvault/src/run.rs:841-877 | For each ending an undisturbed run ends so, without a lock, recorded as succeeded exactly if it finished and was verified. |
| Lifecycle.FailedStartIsRecorded | crates/runvault/src/run.rs:575-617 | A start that fails before or after the lock is written is recorded as failed and leaves no lock. |
| Lifecycle.EndedAsToldIsRecorded | crates/runvault/src/run.rs:841-877 | A run that is over and was not dropped on the way has its status, no lock and no heartbeat. |
| Lifecycle.OneFailureIsMadeGood | crates/runvault/src/run.rs:1070-1089 | A finishing or failing run whose removal or recording fails once is dropped, and the drop leaves it recorded as failed without a lock. |
| Lifecycle.MalformedLeavesTheLock | crates/runvault/src/run.rs:609-617 | A run refused for a malformed declaration leaves its lock, no status, and no thread that refreshes the lock. |
| Lifecycle.NoLockWriteAfterJoin | crates/runvault/src/lockfile.rs:186-199 | Once the heartbeat has been joined no step writes the lock again. |
| Lifecycle.JoinGetsCloser | crates/runvault/src/lockfile.rs:148-171 | While the main thread waits to join, every step of the heartbeat brings it closer to its end. |
| Lifecycle.JoinEnds | crates/runvault/src/lockfile.rs:148-171 | Given that many steps the heartbeat has ended, whatever its writes do. |
| Lifecycle.UnreportedIff | crates/runvault/src/run.rs:821-877 | Whatever fails and whenever the process is killed, a run has neither lock nor status if and only if no failed removal left its lock behind and it has not written the lock, is between removing the lock and recording, or failed in its last attempt to record. |
| Lifecycle.UnreportedExactly | crates/runvault/src/run.rs:841-877 | When every operation succeeds, that is exactly a kill before the lock is written, or between removing the lock and recording the status. |
| Lifecycle.IgnoredRemovalLeavesBoth | crates/runvault/src/run.rs:1070-1089 | A dropped run whose lock cannot be removed records its failure beside the lock. |
| Lifecycle.KilledBetweenLeavesNeither | crates/runvault/src/run.rs:852-858 | A finishing run killed between the two operations leaves nothing for the collector to find. |
| Lifecycle.FailedRecordingsLeaveNeither | crates/runvault/src/run.rs:852-877 | A run that is never killed and cannot record its status, neither when it finishes nor when it is dropped, ends with neither file. |
| Gc.StatusFoundIsKept | crates/runvault/src/gc.rs:52-60 | A status found on entry is never altered, at any point of any interleaving. |
| Gc.RunningIsUntouched | crates/runvault/src/gc.rs:73-85 | A run judged alive, and any directory on a dry run, is left as the heartbeat alone would leave it. |
| Gc.ReapedOnlyIfStale | crates/runvault/src/gc.rs:73-76 | A run is reaped or contested, or changed at all if it had no status, only if the lock was judged stale at the step that judges. |
| Gc.LivingRunIsUntouched | crates/runvault/src/gc.rs:73-76 | If no step of the collector judges the lock of a run without a status stale, then under any interleaving, on any lock, it stays without one and its lock is as the heartbeat left it. |
| Gc.UndisturbedVerdict | crates/runvault/src/gc.rs:52-100 | The verdict, status and lock the collector ends with when nothing interferes, for every lock, status, judgement and for a dry run. |
| Gc.LeftoverIsRemoved | crates/runvault/src/gc.rs:53-58 | A lock found beside a status is gone at the end, unless the heartbeat wrote after the collector was done. |
| Gc.ContestedIsWithdrawn | crates/runvault/src/gc.rs:90-98 | A contested verdict has been taken back: no status, and the lock is the one the heartbeat last wrote. |
| Gc.ReapedIsFailed | crates/runvault/src/gc.rs:87-100 | A reaped run carries the failed status, and a lock stands beside it exactly when the heartbeat wrote after the last read. |
| Gc.StaleIsReaped | crates/runvault/src/gc.rs:62-100 | A stale lock that nobody refreshes is reaped. |
| Gc.SwallowedExactly | crates/runvault/src/gc.rs:79-100 | In every interleaving that ends with a run reaped and no write after the last read, the run's lock had moved since it was judged if and only if the heartbeat moved it between the second read and the removal. |
| Gc.RefreshBeforeRemovalIsLost | crates/runvault/src/gc.rs:81-87 | An interleaving in which that happens: the refresh is swallowed and the live run is recorded failed. |
| Gc.LateRefreshLeavesBoth | crates/runvault/src/gc.rs:90-100 | A refresh after the last read leaves the failed status beside a lock. |
| LatestLink.StepKeepsInv | crates/runvault/src/paths.rs:53-82 | While takeovers remove only a dead holder's file, whoever is between creating and releasing the file owns it, and what it read of the link is current. |
| LatestLink.ExclusionIff | crates/runvault/src/paths.rs:102-130 | No two living processes, of any number, are inside the mutex at any point of a run or after one more step that anyone could take there, if and only if every takeover of the run removes nothing but a dead holder's file. |
| LatestLink.MutualExclusion | crates/runvault/src/paths.rs:102-130 | While takeovers are sound, no two living processes are inside at once, at the end of a run or before. |
| LatestLink.LinkNeverGoesBack | crates/runvault/src/paths.rs:65-81 | As long as two processes have not been inside the mutex at once, every change of the link moves it to a later instant. |
| LatestLink.LinkEndsLatest | crates/runvault/src/paths.rs:53-82 | As long as that holds, the link is at least the instant of every finisher that has completed; it is always the first one or some finisher's own. |
| LatestLink.CarefulRunsAreSound | crates/runvault/src/paths.rs:118-124 | Takeovers are sound whenever judgements are right when made and no two are pending at once. |
| LatestLink.UnsoundTakeoverBreaksExclusion | crates/runvault/src/paths.rs:118-124 | A takeover that removes a living holder's file lets the taker in beside it. |
| LatestLink.BothEnter | crates/runvault/src/paths.rs:118-124 | Two waiters that both rightly judge a dead holder's file abandoned can both enter. |
| LatestLink.LinkGoesBack | crates/runvault/src/paths.rs:53-82 | From there the link can move from a later instant to an earlier one. |
| LegacyCsv.Gathered.OfferRow | crates/runvault/src/legacy.rs:515-560 | One row's cells are added in order up to the first whose key is taken. |
| LegacyCsv.ConvertWide | crates/runvault/src/legacy.rs:407-580 | The nested loops decide by the list of candidate cells: that list when it is non-empty with distinct keys, the first collision otherwise; without an axis, at most one row. |
| LegacyCsv.ConvertLong | crates/runvault/src/legacy.rs:634-733 | The row loop decides a long file in the same way. |
| LegacyCsv.Convert | crates/runvault/src/legacy.rs:407-580 | A file becomes metrics if and only if it fits its shape and its candidates are non-empty with distinct keys; the metrics are then exactly those candidates in order. |
| LegacyCsv.WideCandidateIff | crates/runvault/src/legacy.rs:500-560 | A metric is a candidate of a wide file exactly when some cell off the axis holds a finite number under a usable name in a row whose axis is an integer. |
| LegacyCsv.LongCandidateIff | crates/runvault/src/legacy.rs:655-710 | A metric is a candidate of a long file exactly when in some row the name cell behind the prefix is its name, the value cell holds its finite number, the axis cell its integer step, and the scope cell its scope, or the scope is the run where that cell is missing or empty; name and scope have to be usable. |
| LegacyCsv.LongShapeIff | crates/runvault/src/legacy.rs:624-633 | A file is read as long exactly when it has a column called name or metric and a value column, the one named for it before one called value; the axis is the first time column besides these two. |
| LegacyCsv.WideShapeIs | crates/runvault/src/legacy.rs:435-465 | The cells of a wide file are read with the first time column there is for the axis, and with the prefix of the stem. |
| LegacyCsv.TimeColumnsAre | crates/runvault/src/legacy.rs:25-37 | The names that make a column an axis, and the unit of each. |
| LegacyCsv.Position | crates/runvault/src/legacy.rs:449-453 | The first column that passes a test, if any does. |
| LegacyCsv.AxesAreTimeColumns | crates/runvault/src/legacy.rs:435-445 | The axes of a header are exactly its columns with a time name, each with its unit. |
| LegacyCsv.NamesMeetIff | crates/runvault/src/legacy.rs:492-494 | Names in two files come out the same if and only if the longer stem goes on after the shorter one and a dot, and the name in the shorter file says the rest of the stem, a dot and the other name; for metrics.csv, if its name says the whole stem. |
| LegacyCsv.PlainNamesNeverMeet | crates/runvault/src/legacy.rs:492-494 | Names that have no dot of their own never meet, whatever the stems. |
| LegacyCsv.KeysMeetIff | crates/runvault/src/legacy.rs:492-560 | Candidates of two files of any shape claim one key if and only if they agree on step, unit and scope and their names meet so. |
| LegacyCsv.HeadersDecide | crates/runvault/src/legacy.rs:407-580 | Two wide files can, under some rows, both be converted and claim a key in common if and only if they have the same kind of axis and two usable columns whose names meet. |
| LegacyCsv.TwoFilesClaimOneMetric | crates/runvault/src/legacy.rs:49-51 | Two files that are both read as metrics, metrics.csv and a_summary.csv, convert and claim one key. |
| LegacyCsv.TwoPrefixedFilesClaimOneMetric | crates/runvault/src/legacy.rs:492-494 | So do metrics_a.csv and metrics_a.b.csv, although both have a prefix. |
| LegacyKeys.TwoReplacementsAreOnePass | crates/runvault/src/legacy.rs:163-168 | Encoding the percent sign first and the colon second is one pass over the characters. |
| LegacyKeys.DecodeAfterEncode | crates/runvault/src/legacy.rs:163-168 | An encoded part reads back. |
| LegacyKeys.RunKeyInjective | crates/runvault/src/legacy.rs:171-177 | Two keys are equal if and only if repository and path are. |
| LegacyKeys.NormalizeInPlace | crates/runvault/src/legacy.rs:185-205 | The component loop computes the normalized path, or refuses it. |
| LegacyKeys.NormalizesExactlyRelative | crates/runvault/src/legacy.rs:185-205 | A path is refused exactly when it has a component that is no name and no dot, or has no name at all, and the error says which. |
| LegacyKeys.SplitAfterJoin | crates/runvault/src/legacy.rs:306-310 | A normalized path splits back into its components. |
| LegacyKeys.ExperimentIs | crates/runvault/src/legacy.rs:306-310 | The experiment of a run is the path of the directories above it, none if there are none. |
| LegacyKeys.ReadsIff | crates/runvault/src/legacy.rs:185-205 | A directory has a key exactly when it lies below the root, and the refusals of one that does not and of the root itself differ. |
| LegacyKeys.ResultsRootOf | crates/runvault-cli/src/index.rs:805-820 | The climb drops as many components as the path in the key has. |
| LegacyKeys.ClimbEndsAtTheRepository | crates/runvault-cli/src/index.rs:805-820 | Applied to a synced destination it ends at the repository's directory in the vault, at any depth. |
| LegacyKeys.VaultKeepsIdentityIff | crates/runvault-cli/src/index.rs:772-802 | Read again from the vault a run has the key and experiment it had at its source if and only if it was stored uncompressed or lay directly below the results root. |
| MetricDocs.Recorder.AppendMetricRow | crates/runvault/src/run.rs:1029-1053 | A row is written exactly when its name is allowed, although only new names are asked about. |
| MetricDocs.FamilyOf | crates/runvault/src/metrics_meta.rs:124-133 | The first family whose template matches the name segment by segment, if any does. |
| MetricDocs.MatchesIffInstance | crates/runvault/src/metrics_meta.rs:124-133 | A name belongs to a template if and only if it can be had from it by putting a text without dots for each segment in braces. |
| MetricDocs.AllowedIff | crates/runvault/src/run.rs:997-1027 | A name may be recorded if and only if the repository is unknown, or the name is in the vocabulary, or a declaration does not require descriptions, describes the name, or has a family it belongs to. |
| MetricDocs.ClassifyIff | crates/runvault-cli/src/audit.rs:193-205 | A name is classified by its own description first, then by the vocabulary, then by the first family it belongs to, and as undescribed only if there is none of these. |
| MetricDocs.Resolve | crates/runvault/src/metrics_meta.rs:299-341 | The loop yields the names described exactly, the families used with their counts, and the undescribed names; no name is lost or counted twice. |
| MetricDocs.CountNames | crates/runvault-cli/src/audit.rs:193-205 | The audit's counters partition the names: the four kinds add up to all of them. |
| MetricDocs.AllowedIffClassified | crates/runvault/src/run.rs:997-1027 | For a known repository with a declaration a name may be recorded if and only if descriptions are optional or the classification finds one. |
| MetricDocs.AllowedIsNeverUndescribed | crates/runvault/src/metrics_meta.rs:299-330 | Where descriptions are required, the file beside the run lists no recorded name as undescribed. |
| MetricDocs.AllowedIsAudited | crates/runvault-cli/src/audit.rs:237-253 | Where descriptions are required, the audit over all runs' files finds a description for every recorded name. |
| MetricDocs.SharedDeclarationAudits | crates/runvault-cli/src/audit.rs:237-253 | When all runs share one declaration the audit classifies their names as that declaration does. |
| RecordChecks.CheckUnique | crates/runvault/src/verify.rs:251-262 | Reports the first key that repeats an earlier one, and nothing exactly when all keys differ. |
| RecordChecks.CheckTerminalEvents | crates/runvault/src/verify.rs:863-929 | Accepts exactly the logs whose observations and terminal events are well formed and whose every terminal event falls on the latest observation of its unit, and on its budget if censored. |
| RecordChecks.ConsistentIgnoresOrder | crates/runvault/src/verify.rs:859-929 | Whether a log is accepted does not depend on the order or repetition of its lines. |

## Left out

- BLAKE3, SHA-256, zstd, the Unicode tables and the printing of floats: taken as parameters, or by the text they give.
- SeedTraces.NoTraceIff: where a signed pointer leaves its position in place, some key has to be left whose normalization no other key has, as in Unicode there always is.
- Decimal digits outside ASCII, which Python takes for an index; the two resolvers are compared on the pointers whose syntax the Rust parser accepts, and arrays are shorter than the range of the machine integer.
- PythonPrune.PythonPruneIsRustPrune: stated for paths that name a position, as both callers require beforehand except that the Rust one lets a signed index through; on other paths the Python form raises and the Rust form ignores the path.
- SyncChains.ChainGoesOnIff: for histories whose completed syncs send the file, since one that does not ends the chain (SyncChains.NextAfterOmissionIff); an unfinished sync that had a file under the receipt's own name would replace the receipt, and what the guards do after that is not followed.
- SyncReceipts.ReceiptHoldsIff: plans are in path order, as the ordered set and the sorted directory walk give them.
- Directories, permissions and file times in the destination, files that change while they are copied, the `by-slug` link of a single sync, and the order of decoding errors: one error stands for an undecodable stored form.
- DeletionRepeat.RestartsIffNothingLeftOut: commands that plan; the repetition may give another reason and comes at another time, so the tombstones it writes may differ in those two, and it allows finished runs if the first did.
- VaultHistory.HistoryKeeps: commands run one after the other; the removal of a directory tree and the append of a tombstone line are single steps, and the vault directory of a legacy run does not coincide with a canonical one.
- Which runs a sync admits: visibility, the deep verification and the glob patterns decide a set that the model takes as given.
- Lifecycle.StatusExcludesLock: a status file is written or not in one step, and the contents of the record beside lock and status are not modelled.
- A run that finishes while the collector reaps it: only the heartbeat interferes in `Gc`; whether a lock is stale is a judgement given at that step.
- LatestLink.LinkNeverGoesBack: a linked run whose status file disappears would read as no link at all; directories are not deleted in this model.
- LegacyCsv.Convert: cells are read by given integer and float parsers; the notes, the hint naming likely series columns and the reading of directory names are not modelled.
- MetricDocs.AllowedIsAudited: for names that the vocabulary keeps; retired names are renamed on their way into the index, which is not part of this model.
- The field-by-field checks of statuses, research targets and lineage shape, the options of a run, progress reporting and the vocabulary file: each is settled by reading one branch.
- The parquet index, SQL, the dashboard and the command line.
