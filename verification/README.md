# casbin-mesh in Dafny

casbin-mesh is a policy store replicated with Raft. Every rule of every namespace is a row of one
flat, ordered key/value table; a deterministic state machine applies a committed log to that table
and to Casbin enforcers kept in memory. This project models both and proves what they promise.

## How it is organised

| file | what it holds |
|---|---|
| `ByteStrings.dfy` | byte strings and their lexicographic order |
| `Keys.dfy` | the `::`-join of a rule line, `strings.Split`, row keys |
| `Badger.dfy` | the ordered store: iterators, prefix scans, transactions |
| `Adapter.dfy` | the policy adapter's loops, in place on a transaction |
| `Refinement.dfy` | the table refines a map from namespace to rule set |
| `Filtering.dfy`, `BatchUpdate.dfy`, `Paging.dfy` | filtered removal, batch update, `List` |
| `Replay.dfy`, `UpdateReplay.dfy` | making the same adapter writes again over surviving rows, without and with conditional updates |
| `Fsm.dfy` | the state machine as functions: `Apply`, `Snapshot`, `Restore` |
| `Casbin.dfy` | what is asked of Casbin's filtered removal and batch update |
| `Store.dfy` | the store class, proved against those functions |
| `Coherence.dfy`, `Snapshots.dfy`, `Restart.dfy`, `Replicas.dfy`, `Divergence.dfy` | what runs keep: memory against rows, snapshots, restarts, replicas |
| `LineReplay.dfy` | restarts of logs with filters of any kind, line by line |
| `UpdateRestart.dfy` | restarts of logs with batch updates that find all or none of their rules |
| `Failures.dfy` | runs from an empty node at which a property fails |
| `Lifecycle.dfy`, `NodeMetadata.dfy`, `Membership.dfy` | namespaces, metadata, joining servers |
| `RaftLog.dfy`, `Cli.dfy`, `BasicAuth.dfy` | the log scan, the command line's pending transaction, Basic credentials |

A loop or a method that changes state is a method proved against a specification function; the
theorems are lemmas about those functions.

## What is assumed

- JSON of a string list, and of the snapshot's maps, decodes to what was encoded, so a row's value is
  the rule line itself. A key kept from an iterator is a copy.
- A Badger transaction is a private copy of the table, committed whole or dropped, that refuses
  writes past a limit. `Update` drops the error of a failed body and returns Badger's answer to the
  commit: an error for a discarded transaction that holds writes, none for one without writes.
  Casbin changes nothing in memory when the adapter returns an error. A backup is loaded with
  its row versions: a key that has a newer version in the store, a value or a deletion, is read as
  before, and which keys those are is an input (`Badger.LoadedOver`).
- Casbin is the datatype `Fsm.Engine`: five functions, each used only as far as a lemma says.
  `EngineOk`: a printed model parses to itself. `Sound`: a line comes back from the unquoted comma
  join of server/adapter/adapter.go:311. The decision depends on the model text and the *set* of
  rules. The section of a rule is the first letter of its policy type, and the model declares it.
  `Casbin.FiltersByField` and `Casbin.UpdatesAllOrNone` state Casbin's in-memory filtered
  removal and batch update. `Failures.SampleOk` shows an engine that meets all of these.
- Results about runs of the state machine range over a set of names that are prefix-free and do not
  start with byte 0x00 or 0x01 (`Coherence.NamesOk`), and over well-formed lines (`Keys.WellFormed`);
  `Keys.NamespacesCollide` and `Lifecycle.ShadowedName` show why. A scope gives, for each name, the
  lines a log adds there; `Coherence.AllAllowed` asks that its filters treat those lines alike in
  memory and on disk, `Coherence.AllPermitted` does not. A filter whose comparison would read outside a
  rule in memory makes Casbin panic; `LineReplay.Reads` says that none does.
- An enforcer without a model has no adapter, and printing its model panics; those commands answer
  `Crashed`, and `Snapshot` answers `None`.
- Raft accepts a configuration with distinct, non-empty ids and addresses and at least one voter
  (`Membership.Acceptable`); every question put to it may also be answered with ErrNotLeader or
  another error. `s.ApplyTimeout` and `s.authCredStore`, which `Store` does not declare, are read as
  the fields of its configuration.

## What turned out not to hold as documented

Each failed property has its exact condition as a lemma, but for the restart of a log whose batch
updates take memory and rows out of step.

- Namespaces are not separated from keys: two namespaces can share a row exactly when one name is a
  prefix of the other (`Keys.NamespacesCollide`).
- Filtered removal at field 0 is a byte prefix: it is the documented filter exactly when no rule it
  reaches has a longer last field (`Filtering.FieldZeroIsDocumented`, `Filtering.FieldZeroOverreach`).
  The comment at server/adapter/adapter.go:155-159 says other fields return an error; the code
  filters by them.
- `List` does not stop at the end of its bucket (`Paging.PageInBucket`), and a limit below one returns
  one row (`Paging.PageExact`).
- Filtered removal and batch update change memory and rows by different rules, so a restart can
  change decisions (`Divergence.FilterInStep` and its two field-wise forms,
  `Divergence.UpdateInStep`; failing runs in `Failures.dfy`).
- A restart need not bring a log with filtered removals back: a filter can take the surviving row of a
  line and leave the line in memory, and the addition that first wrote it then writes nothing
  (`Failures.FilterReplayFails`). Every line goes its own way, and the node comes back exactly when
  every line does: without a snapshot (`LineReplay.ColdRestartExact`), and from a snapshot for every
  outcome of loading it (`LineReplay.MergedRestartExact`). Which outcome Badger's versions give can
  decide it (`LineReplay.WarmRestartExact`, `Failures.NewerDeletionFails`). Which lines come back from
  every crash is read off the order of the entries (`LineReplay.EveryCrash`).
- So can a batch update (`Failures.UpdateReplayFails`). For logs whose updates find all of their old
  rules or none, before the crash and on replay, the exact condition is
  `UpdateRestart.UpdateRestartExact`.
- A restored snapshot shows what its node shows exactly when memory and rows agree line by line
  (`LineReplay.SnapshotExact`).
- While a restarted node replays, its memory of a namespace is that of the replayed prefix exactly
  when the replayed entries have written every surviving key of it (`Restart.MidReplayRead`,
  `Failures.MidReplayFails`; `LineReplay.MidReplayExact` for filters of any kind).
- Making the same adapter writes again need not rebuild the rows when there are conditional updates
  among them (`Replay.UpdateReplayDiffers`); for which lists of writes it does, at which crash point,
  is `UpdateReplay.ReplayExact`.
- A name that spells a stored key is never registered (`Lifecycle.RegisteredExactly`,
  `Lifecycle.ShadowedName`).
- A Join to an address another server holds always fails, and takes the joining server out of the
  configuration (`Membership.JoinMeaning`, `Membership.FailedJoinRemoves`).
- The command line never clears the policy type and never sets it on an update: every commit sends
  the type of the first add or remove line that had one (`Cli.PtypeSticks`,
  `Cli.PtypeIsFirstTyped`).
- A batch past Badger's limit is reported as refused, except when not even its first write is taken:
  then memory changes without its rows (`Store.LimitedCoherent`, `Store.UnwrittenAdd`).
- CONSISTENCY.md says a read at level none is never checked for staleness; the code checks it when a
  freshness is given, and `Replicas.Enforce` follows the code.

## Model

| member | source | states |
|---|---|---|
| Keys.FirstSep | server/adapter/adapter.go:198 | the position found is the leftmost `::`, or the end when there is none |
| Keys.SplitJoin | server/adapter/adapter.go:31-33 | splitting the joined key of a well-formed line gives the line back |
| Keys.JoinSplit | server/adapter/adapter.go:198 | joining the pieces of any string gives the string back |
| Keys.JoinRoundTrip | server/adapter/adapter.go:31-33 | split undoes join if and only if no field holds `::` and none but the last ends in a colon |
| Keys.NamespaceOfKey | server/adapter/badger.go:182-184 | a row key reached by one prefix-free namespace's prefix belongs to that namespace |
| Keys.RowKeyInjective | server/adapter/badger.go:182-184 | row keys are injective on (namespace, line) for prefix-free names and well-formed lines |
| Keys.NamespacesCollide | server/adapter/badger.go:182-184 | two namespaces have well-formed lines with one key exactly when one name is a prefix of the other |
| Badger.OrderedAscending | server/adapter/badger.go:162-166 | an iterator visits keys in strictly ascending byte order |
| Badger.ScanComplete | server/adapter/badger.go:165-177 | a prefix scan holds every key with the prefix, nothing else, in ascending order |
| Badger.WalkIsScan | server/adapter/badger.go:165-177 | seeking to the prefix and stepping while it holds walks exactly that scan |
| Badger.PrefixKeys | server/adapter/badger.go:160-180 | the seek-and-step loop returns the scan of the table |
| Badger.RegisteredNamesComplete | server/adapter/badger.go:202-218 | the namespace scan reports each registered name once, in byte order, and no other |
| Badger.BadgerStore.Namespaces | server/adapter/badger.go:202-218 | ForEach over the store yields the registered names |
| Badger.BadgerStore.Close | server/adapter/badger.go:233-244 | a body that succeeds commits all its writes, one that fails leaves the table as it was and is reported only if it had written something |
| Badger.Txn.Set | server/adapter/badger.go:194-196 | a write within the limit updates one key of the transaction, one past it changes nothing |
| Badger.Txn.Delete | server/adapter/badger.go:198-200 | the same for a deletion |
| Adapter.Adapter.Init | server/adapter/badger.go:89-106 | registration fails exactly for the empty name, and writes the registry row unless the bare name is a stored key or no write is allowed |
| Adapter.Adapter.LoadPolicy | server/adapter/adapter.go:79-91 | loading reads the lines of the namespace's prefix scan in key order |
| Adapter.Adapter.AddPolicies | server/adapter/adapter.go:115-135 | a batch within the limit puts every line, otherwise none, and when that is reported |
| Adapter.Adapter.RemovePolicies | server/adapter/adapter.go:296-307 | a batch within the limit erases every line, otherwise none, and when that is reported |
| Adapter.Adapter.UpdatePolicies | server/adapter/adapter.go:269-293 | the loop's result when its writes, two for each line found, are within the limit, otherwise no change; lists of different length change nothing and report nothing |
| Adapter.Adapter.RemoveFilteredPolicy | server/adapter/adapter.go:162-220 | nil values are an error, an empty list past field 0 panics where a row has the field, otherwise exactly the matching keys go if there are no more of them than the limit, else none |
| Adapter.Adapter.MatchField | server/adapter/adapter.go:193-206 | the collecting loop returns the matching keys in order, and when it panics |
| Adapter.EraseMatched | server/adapter/adapter.go:212-219 | deleting the collected keys leaves exactly the rows the filter does not match, with one write for each row it does |
| Refinement.PutRefines | server/adapter/adapter.go:119-131 | one put refines adding one rule to its namespace's set |
| Refinement.EraseRefines | server/adapter/adapter.go:299-304 | one delete refines removing one rule |
| Refinement.UpdateRefines | server/adapter/adapter.go:275-290 | the update loop refines the conditional replacement in turn of the old rules |
| Refinement.StepRefines | server/adapter/adapter.go:114-135 | every add, remove and update call refines its effect on a map from namespace to rule set |
| Refinement.RunRefines | server/adapter/adapter.go:228-307 | the simulation holds along every run of calls across namespaces |
| Refinement.LoadedIsRules | server/adapter/adapter.go:79-91 | loading a namespace reads exactly its rules, each once |
| Refinement.ScanAfterRun | server/adapter/adapter.go:70-135 | after any run from an empty store a namespace scans to the set the map specification holds, without repeats |
| Refinement.StepFootprint | server/adapter/badger.go:182-200 | a call touches only keys behind its own namespace, whatever the names and lines |
| Refinement.CallIsolated | server/adapter/badger.go:160-200 | no call changes what another prefix-free namespace loads, or the registry |
| Filtering.KeyRemoval | server/adapter/adapter.go:162-220 | for every index, values and rules, exactly the rules of the namespace whose key passes the scan go, and none of another namespace |
| Filtering.JoinPrefix | server/adapter/adapter.go:169-180 | a byte prefix of joined colon-free lines is equality on all fields but the last, which is a prefix |
| Filtering.FieldZeroRemoval | server/adapter/adapter.go:170-184 | filtered removal at field 0 removes exactly the namespace's rules agreeing with the filter up to a prefix in the last field |
| Filtering.FieldZeroIsDocumented | server/adapter/adapter.go:137-161 | that is the documented filter if and only if no rule it reaches has a longer last field |
| Filtering.FieldZeroOverreach | server/adapter/adapter.go:170-184 | the row of the rule p, ab is removed by the filter p, a, which it does not equal |
| Filtering.SplitShifted | server/adapter/adapter.go:198 | splitting the key one byte early keeps every field in its place |
| Filtering.FieldRemoval | server/adapter/adapter.go:185-211 | filtered removal past field 0 removes exactly the namespace's rules passing the type, field and occurrence tests |
| Filtering.FieldRemovedMeaning | server/adapter/adapter.go:195-203 | with one value that is type prefix and field equality; with several every field-wise match goes |
| BatchUpdate.RowCountNeverGrows | server/adapter/adapter.go:275-290 | a batch update never adds rows |
| BatchUpdate.UpdateIsSimultaneous | server/adapter/adapter.go:275-290 | with distinct old lines and distinct fresh new ones the loop is simultaneous replacement and conserves the row count |
| Paging.ListRows | server/adapter/badger.go:120-158 | the loop with its counter, skip test, early exit and prefix cut returns the page, for every int64 skip and limit and both directions |
| Paging.CollectIsPage | server/adapter/badger.go:133-154 | from any turn on, the loop collects the rest of the page |
| Paging.VisitedForward | server/adapter/badger.go:131-134 | forwards the walk is the keys at or after the cursor, ascending |
| Paging.VisitedBackward | server/adapter/badger.go:123-134 | reversed it is the keys at or before the cursor, descending |
| Paging.PageExact | server/adapter/badger.go:135-153 | which positions of the walk a page holds, wrap-around and limits below one included |
| Paging.PagesConcatenate | server/adapter/badger.go:120-158 | consecutive pages concatenate to the larger page, panics included |
| Paging.PageInBucket | server/adapter/badger.go:134-145 | a page stays in its bucket if and only if it ends within the bucket's part of the walk, and is then a slice of it |
| Paging.EmptyBucketLeaks | server/adapter/badger.go:134-145 | an empty bucket before other rows lists rows that are not its own |
| Replay.ReplayRebuilds | server/adapter/adapter.go:114-307 | making the writes v again over rows that agree with the final ones wherever v does not write rebuilds them |
| Replay.CrashReplayHarmless | server/adapter/adapter.go:114-307 | so does making them again over the rows of any crash point, merged or not with the snapshot's, for adapter writes without updates |
| Replay.UpdateReplayDiffers | server/adapter/adapter.go:275-290 | a list of conditional updates that loses a rule when it is made again |
| UpdateReplay.RunCarries | server/adapter/adapter.go:275-290 | the keys after any run are those it leaves of its own and, each followed alone, those it carries over from the start |
| UpdateReplay.KeysReplayExact | server/adapter/adapter.go:275-290 | making all turns again after a part of them rebuilds the stored keys from every start if and only if the part is settled in the whole |
| UpdateReplay.ReplayExact | server/adapter/adapter.go:114-307 | for every list of adapter writes, conditional updates among them, and every crash point, making them again rebuilds the rows from every start if and only if that holds |
| UpdateReplay.EmptyReplayExact | server/adapter/adapter.go:114-307 | from an empty table it does if and only if the keys the writes leave of their own are settled |
| UpdateReplay.MergedReplay | server/adapter/badger.go:55-64 | with the start's rows loaded over the survivors it does if and only if the part is covered, a weaker condition |
| UpdateReplay.NoReuseReplays | server/adapter/adapter.go:114-307 | a list of writes rebuilds its rows from every crash point if no new key of an update was moved or removed before and no added key was moved before |
| Store.Store.Apply | server/store/fsm.go:68-287 | every command changes memory, rows, registry and metadata, and replies, as the state machine says when its writes are within Badger's limit, and what it does past it |
| Store.LimitedCoherent | server/store/fsm.go:178-244 | a refused batch leaves memory and rows coherent if at least one write is allowed |
| Store.UnwrittenAdd | server/adapter/badger.go:233-244 | when no write is allowed an addition leaves memory and rows in step if and only if it asks for none |
| Store.Store.SetModelText | server/store/fsm.go:155-177 | the namespace is registered before the text is parsed; a parsed model reloads the rules from rows |
| Store.Store.AddRules | server/store/fsm.go:178-196 | missing namespace, missing model, the written and reported rules, and a batch past the limit |
| Store.Store.FilterRules | server/store/fsm.go:229-244 | rows go by the adapter's filter, memory by Casbin's, or neither when the deletions are past the limit |
| Store.Store.Snapshot | server/store/fsm.go:350-389 | rows, every printed model and metadata, or a panic when a model is missing |
| Store.Store.Restore | server/store/fsm.go:392-455 | rows loaded, whichever keys are newer in the store, enforcers rebuilt by the registry scan, metadata untouched; when it fails |
| Store.RebuildIsRestore | server/store/fsm.go:414-441 | whatever rows the load leaves, the scan over registered names builds one enforcer for each name with a model text |
| Store.Store.SetMetadata | server/store/enforcer.go:171-218 | the write is skipped exactly when the local data reads as the new data |
| Coherence.LoadSetIsRules | server/adapter/adapter.go:309-313 | what an enforcer loads is the namespace's rule set |
| Coherence.SetModelCoherent | server/store/fsm.go:155-177 | setting a model keeps memory, rows and registry coherent, parse errors included |
| Coherence.AddCoherent | server/store/fsm.go:178-196 | adding rules keeps them coherent though only missing rules are written |
| Coherence.RemoveCoherent | server/store/fsm.go:213-228 | so does removing rules |
| Coherence.FilterCoherent | server/store/fsm.go:229-244 | so does filtered removal when the key scan and Casbin agree on the rules there |
| Coherence.RunCoherent | server/store/fsm.go:68-287 | so does every run of create, set-model, add, remove, agreeing filter, metadata and read commands |
| Coherence.UnfilteredAllowed | server/store/fsm.go:178-228 | over the lines it adds itself, every log without updates and filters is such a run |
| Coherence.EffectedExactly | server/store/fsm.go:178-228 | the effected rules of a reply are, each once, exactly those memory gained or lost |
| Snapshots.ApplySameView | server/store/fsm.go:68-287 | replies and the new view depend on rows and enforcers alone, for every command |
| Snapshots.RestoreSnapshot | server/store/fsm.go:392-455 | restoring a coherent node's snapshot into an empty node gives its rows and enforcers back |
| Snapshots.SnapshotCommutes | server/store/fsm.go:315-455 | the restored node gives the same rows, models and replies on any further commands as the one that never restored |
| Restart.PutMissing | server/store/fsm.go:178-196 | writing only the rules not in memory is writing them all |
| Restart.RunTrace | server/store/fsm.go:68-287 | which table writes such a run makes depends only on the known namespaces and their models |
| Restart.ReplayRestores | server/store/store.go:226-264 | replay over merged survivors brings memory and rows back to the uncrashed node's |
| Restart.ColdRestart | server/store/store.go:237-264 | so without a snapshot, from empty memory and the rows of any prefix |
| Restart.WarmRestart | server/store/fsm.go:392-455 | so with a snapshot restored over the surviving rows, for every outcome of the load that reads each key from one of the two |
| Restart.ReplayedMemory | server/store/store.go:237-264 | over any surviving rows a replayed log knows the same namespaces and models as from none, and the same rules of a namespace if and only if it has written every surviving key of it |
| Restart.MidReplayRead | server/store/store.go:237-241 | for every crash point and every number of replayed entries, memory is that of the replayed prefix if and only if those entries have written every surviving key of the namespace |
| Failures.MidReplayFails | server/store/store.go:237-241 | a node restarted after three entries that holds the rule of the third after replaying two |
| LineReplay.RunLines | server/store/fsm.go:68-287 | over every run without batch updates at which Casbin does not panic, each line of each namespace is in memory and on disk as its own two bits, read off the log, say |
| LineReplay.ColdRestartExact | server/store/store.go:237-264 | for every such log, filters of any kind included, and every crash point, a restart from the surviving rows shows what the uncrashed node shows if and only if every line recovers |
| LineReplay.MergedRestartExact | server/store/fsm.go:392-455 | the same with a snapshot restored, whether or not its node was in step, for every outcome of the load that reads each key from one of the two sides |
| LineReplay.WarmRestartExact | server/adapter/badger.go:55-64 | and by the two logs and the keys that are newer in the store alone, for what Badger's row versions leave |
| Failures.NewerDeletionFails | server/adapter/badger.go:55-64 | a snapshot taken before a filter and restored after it: the node comes back if the snapshot's row is read, and not if its deletion is kept |
| LineReplay.SnapshotExact | server/store/fsm.go:315-455 | a snapshot restored into an empty node gives its view back if and only if every line of a known namespace is in memory exactly when it has a row |
| LineReplay.MidReplayExact | server/store/store.go:237-241 | memory during replay is that of the replayed prefix if and only if every line's memory bit is |
| LineReplay.AddedFirstRecovers | server/store/fsm.go:178-244 | a line recovers from every crash if the log adds it before any filter takes its row alone |
| LineReplay.EveryCrash | server/store/fsm.go:155-244 | a line recovers from every crash if and only if the log never adds it, removes it from both places, or has two entries on it in a row after which its row at the start no longer matters: an addition after a load or after memory was lost, a filter that takes the row alone after an addition or after memory was lost, or a load or loss of memory after such a filter |
| Failures.FilterReplayFails | server/store/fsm.go:178-244 | a log whose restart after its last entry loses a row |
| UpdateRestart.FittingRun | server/store/fsm.go:197-212 | every run in which each batch update finds all of its old rules or none keeps memory and rows coherent |
| UpdateRestart.UpdateRestartExact | server/store/store.go:237-264 | for every log of such updates and allowed commands, before the crash and on replay, and every crash point, the restarted node shows what the uncrashed one shows if and only if the applied entries' own keys are settled in the log |
| Failures.UpdateReplayFails | server/store/fsm.go:178-212 | a log whose restart after its last entry loses a row to a batch update |
| Replicas.TakeExact | server/store/fsm.go:350-389 | a snapshot represents the prefix it was taken at if and only if memory and rows agreed there line by line |
| Replicas.StepKeeps | server/store/fsm.go:68-287 | every event keeps every node and snapshot at the state of a committed prefix |
| Replicas.RunConsistent | server/store/fsm.go:68-287 | this holds in every run of commits, starts, applications, snapshots and installs |
| Replicas.ReadsAreCommitted | server/store/enforcer.go:126-141 | an answered none or weak read has the answer of its node's committed prefix, and nodes at one index answer alike |
| Replicas.StrongReadIsOwnPrefix | server/store/enforcer.go:88-125 | a strong read has the answer of the prefix ending at its own entry, on every node |
| Divergence.FilterInStep | server/store/fsm.go:229-244 | for every index, negative ones included, and values, filtered removal keeps memory and rows in step if and only if the key scan and Casbin agree on every rule of the namespace |
| Divergence.NegativeInStep | server/adapter/adapter.go:170-185 | at a negative index that is: Casbin matches no rule, for the adapter deletes nothing |
| Divergence.FieldZeroInStep | server/adapter/adapter.go:170-184 | at field 0 that is: no reached rule has a longer last field, and none matched through an empty value has a field there |
| Divergence.FieldZeroPlain | server/adapter/adapter.go:170-184 | without empty values only the longer last field remains |
| Divergence.LaterFieldInStep | server/adapter/adapter.go:185-211 | past field 0 it is: every rule the scan reaches matches type and fields, and every rule Casbin matches has the first value in place and the joined values in its key |
| Divergence.LaterFieldPlain | server/adapter/adapter.go:185-211 | without empty values only a longer type or a different later field remains |
| Failures.FilterFails | server/adapter/adapter.go:170-184 | a run after which filtered removal at field 0 takes a row and leaves its rule in memory |
| Failures.LaterFilterFails | server/adapter/adapter.go:185-211 | a run after which a filter on one type takes the row of another |
| Failures.WildcardFails | server/adapter/adapter.go:185-211 | a run after which an empty value takes a rule from memory and leaves its row |
| Failures.NegativeFails | server/adapter/adapter.go:170-185 | a run after which an empty value at a negative index empties memory and leaves the row |
| Divergence.UpdateInStep | server/store/fsm.go:197-212 | a batch update keeps them in step if and only if its old rules are distinct and all stored, or none is stored; with lists of different lengths if and only if there is no old rule or one is not found |
| Failures.UpdateFails | server/store/fsm.go:197-212 | a run after which an update replaces a row and leaves memory as it was |
| Failures.UnevenFails | server/adapter/badger.go:233-244 | a run after which an update with lists of different lengths changes memory and no row |
| Lifecycle.ApplyNames | server/store/fsm.go:143-177 | CREATE alone makes names known, SET_MODEL alone registers them, nothing forgets them |
| Lifecycle.KnownIffCreated | server/store/fsm.go:143-154 | a name is known exactly when the log has a CREATE for it |
| Lifecycle.CreatedOnce | server/store/fsm.go:144-147 | a second CREATE of a name fails |
| Lifecycle.NamesGrow | server/store/fsm.go:143-177 | known and registered names only grow, and registered names are known |
| Lifecycle.RegisteredExactly | server/adapter/badger.go:89-106 | a name is registered exactly when some SET_MODEL met it known, non-empty and not itself a stored key |
| Lifecycle.ListedNames | server/store/fsm.go:75-86 | LIST_NAMESPACES reports, sorted and without repeats, exactly the ordinary names a SET_MODEL addressed after creation |
| Lifecycle.ShadowedName | server/adapter/badger.go:90-95 | a known, addressed name that is never listed |
| Lifecycle.RunBlankRegistry | server/adapter/badger.go:95 | every registry row of every run is blank |
| Lifecycle.RunPolicyRows | server/adapter/adapter.go:82-89 | every policy row of every run holds a line to decode |
| NodeMetadata.MetadataIsLastSet | server/store/fsm.go:256-282 | a lookup reads the last set after the last delete, else the empty string |
| NodeMetadata.SkipIffInvisible | server/store/enforcer.go:173-189 | for a node with metadata the check passes if and only if the write would be invisible to every lookup |
| NodeMetadata.SkipInvisibleForever | server/store/enforcer.go:173-189 | a skipped write stays invisible whatever is applied later |
| Membership.Members.Join | server/store/store.go:531-581 | whatever Raft answers, an acceptable configuration with every other server untouched, and which three it can be; success, or Raft working throughout, gives the outcome of JoinMeaning; metadata set on success |
| Membership.Members.ClearWay | server/store/store.go:543-559 | the loop over the configuration, whatever Raft answers: when it stops, and that it removes only the joining id |
| Membership.Members.Remove | server/store/store.go:595-634 | the result for every answer Raft can give to each of its three questions, an error on the metadata deletion being reported as success, and what it leaves |
| Membership.Members.AddServer | server/store/store.go:561-577 | what adding the server and setting its metadata leave, whatever Raft answers |
| Membership.JoinMeaning | server/store/store.go:543-573 | an existing pair changes nothing; success leaves one server with the id, at the address; a taken address always fails |
| Membership.FailedJoinRemoves | server/store/store.go:554-573 | a failed Join that drops the joining server |
| RaftLog.LastCommandIndex | server/log/log.go:54-75 | the greatest command index, 0 when there is none, a failure at the topmost hole, without wrapping |
| Cli.ConvertRule | cmd/cli/rule.go:36-70 | the struct and its key from a typed line |
| Cli.ToStringArray | cmd/cli/rule.go:72-105 | the fields before the first empty one |
| Cli.SentFields | cmd/cli/rule.go:36-105 | a typed rule is sent as its first six fields up to the first empty one |
| Cli.RulesTo2DString | cmd/cli/rule.go:120-126 | the sent form of every pending rule, in order |
| Cli.GroupsTo2DString | cmd/cli/rule.go:147-155 | the old and new rules of the complete groups, in order |
| Cli.RunPendingOk | cmd/cli/ctx.go:151-245 | over every input sequence groups hold two rules, or one in the last, and updates exclude adds and removes |
| Cli.CommitSends | cmd/cli/ctx.go:265-321 | over every input, the sent rules are, in typing order, the first six fields up to the first empty of exactly the lines let through and not taken back; an update sends one old and one new rule for each complete group and keeps an odd last line |
| Cli.LiveExactly | cmd/cli/ctx.go:151-263 | a line's rule is pending if and only if it was let through and no later abort, effective commit or deletion of its group took it back |
| Cli.PtypeSticks | cmd/cli/ctx.go:170-175 | once set, the policy type stays through every later line |
| Cli.PtypeIsFirstTyped | cmd/cli/ctx.go:151-220 | the policy type is that of the first add or remove line let through with one, and empty before |
| Cli.Ctx.HandleTxInput | cmd/cli/ctx.go:151-180 | the new pending state of an add or remove line |
| Cli.Ctx.HandleUpdateInput | cmd/cli/ctx.go:182-220 | the new pending state of an update line |
| Cli.Ctx.Execute | cmd/cli/ctx.go:227-321 | the new pending state and the request of any input line |
| BasicAuth.Base64RoundTrip | client/v2/middleware.go:25-28 | decoding undoes Base64 encoding of any bytes |
| BasicAuth.CredentialsRoundTrip | server/handler/grpc/basic_auth.go:33-49 | the server recovers the client's pair if and only if the user name has no colon |
| BasicAuth.ParsedPair | server/handler/grpc/basic_auth.go:43-48 | an accepted header's user name has no colon and the pair is the decoded text cut at its first colon |

## Left out

- Store.Store.Restore: asks for blank registry rows, which `Lifecycle.RunBlankRegistry` shows every run has.
- Replicas.RunConsistent: a snapshot is installed only on a node that has just started, because loading a backup removes nothing from a table that already has rows.
- Restart.ReplayRestores: filters that treat memory and rows differently are outside; `LineReplay.ColdRestartExact` and `LineReplay.MergedRestartExact` cover them.
- LineReplay.ColdRestartExact: runs with batch updates are outside, because an update is all or none in memory and line by line on disk, so lines no longer go their own way; `UpdateRestart.UpdateRestartExact` covers those that stay in step.
- UpdateRestart.UpdateRestartExact: updates that find some but not all of their old rules, on either run, are outside; `Failures.UpdateReplayFails` is such a run.
- UpdateReplay.ReplayExact: speaks of a fixed list of adapter writes; a node also skips the additions its memory already has, which changes nothing while memory and rows are in step (`UpdateRestart.UpdateRestartExact`).
- UpdateReplay.NoReuseReplays: the same.
- Replay.CrashReplayHarmless: the same; `Restart.ReplayRestores` and `LineReplay.ColdRestartExact` speak of commands.
- UpdateReplay.EmptyReplayExact: asks that written lines are well-formed under prefix-free names; `UpdateReplay.EmptyKeysExact` and `UpdateReplay.KeysReplayExact` say which keys are rebuilt without that.
- Divergence.FilterInStep: asks that Casbin's comparison does not read outside a rule, where it panics.
- Divergence.UpdateInStep: asks that Casbin does not run out of new rules, where it panics; new rules that are already stored or among the old ones are outside, because Casbin's rule list can then hold a rule twice, which a set of rules does not show, and its rollback need not restore the list.
- Badger.Txn.Set: the limit counts writes; Badger also bounds their size in bytes.
- The order of rules inside an enforcer, which priority-based Casbin effects can see and a restore changes.
- CLEAR_POLICY, whose adapter call always fails, and UpdateFilteredPolicies, which only panics.
- The adapter's built-in CSV policy, which the server leaves empty.
- The 8-byte snapshot header, the credentials store in a snapshot, and protobuf encoding: commands and snapshots are values.
- A failure of Casbin while loading a policy, and undeclared policy types.
- Raft, Badger's internals and garbage collection, HTTP and gRPC handlers, forwarding, start-up, logging and wall-clock time, which is an input of `Replicas.Enforce`.
- The command line's tokenising, tables and completion; an input line is given by its first word and arguments.
