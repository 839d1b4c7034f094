# DSB: a verified model of its stateful and tree-shaped logic

DSB manages short-lived sandboxes. This project models, in Dafny 4.11, the parts of it whose
correctness does not show from reading one function, and proves what they promise. Check everything
with `dafny verify dfyconfig.toml` in this directory.

## What is modelled

- **Static file trees** (`FileTree`, `Filesystem`, `StaticFiles`, `PathTrie`, `TreeAgreement`). Three
  algorithms over one directory: a last-in-first-out worklist that lists the files, a recursion that
  builds the tree of the Docker backend, and a trie of heap nodes grown by a moving cursor and then
  converted, which builds the tree of the Kubernetes backend. A forest is specified by what it *has*
  (`Has(nodes, path, kind)`); `ForestUnique` shows that a well-formed forest is determined by that. The
  main result is that both backends show one tree exactly if no directory is without files.
- **The session cache of the MCP server** (`SessionCache`, `SessionProtocol`, `SessionGuarantees`,
  `SessionStaleness`). First the operations one at a time, on a class; then a state machine of
  interleaved steps over a sharded, locked map, with the DSB server as an oracle that fails or returns
  an unused id. Results are about all runs: single flight, one answer per session, conservation of
  created sandboxes, and a staleness bound with its exact condition.
- **SSH session records** (`SshRecords`, `SshService`, `SshSequential`, `SshInterleaving`, `SshOverlap`).
  First the service calls and the cleanup pass on a class; then the same calls as separate steps, a read,
  three clock readings and a write, that overlap each other, bulk statements for deleted sandboxes that are
  stamped before they hit, and deletions. The results are the record invariant that survives every
  interleaving, exactly when the rest survives, and that records are what the written calls, as whole calls in that order,
  make of them in all runs exactly if calls on one session do not overlap.
- **Image features** (`Features`): selection from a hash map in arbitrary order, and the layered merge
  into a mutable sandbox configuration.
- **The in-memory store** (`StateStore`): owner-scoped views over all runs of writes.
- **Text**: shell quoting against the shell's own token rules (`ShellQuote`, `PodCommands`), HTML escaping
  with an inverse (`HtmlEscape`), command line overrides (`CliArgs`), Cache-Control values
  (`CacheControl`) and the integer parsing below the last two (`Parsing`).

`Strings`, `Sorting` and `Wrappers` hold the shared theory of splitting, replacing and sorting.

## Where the code and its promises part

Each of these is a lemma with the exact condition; the failing half is a concrete input or run.

- `build_tree_from_paths` depends on the order of its input as soon as one path lies above another
  (`TreeAgreement.OrderIrrelevantIff`), and drops leading slashes (`TreeAgreement.LeavesAreInputsIff`).
- The two backends differ on directories that hold no file (`TreeAgreement.BackendsAgreeIff`).
- `SessionManager::set` reads the clock before it enters the map, where it waits for a shard lock that a
  creation holds for as long as the server takes. So the idle bound of TTL plus sweep interval holds exactly
  if every `set` stores its entry less than the TTL after its time stamp
  (`SessionStaleness.StalenessBoundIff`; `SessionStaleness.IdleBoundIff` gives the bound for any delay).
- The field documentation says that the duration is calculated on disconnect
  (`src/core/types.rs:2226-2227`); the bulk statement for a deleted sandbox closes sessions without one
  (`SshRecords.BulkKeepsDurationIff`, `SshInterleaving.RecordsExactIff`).
- The documented life cycle of SSH sessions (`src/core/types.rs:2092-2110`) only moves forward. In the code
  a whole call falls back exactly if it marks a closed session active (`SshSequential.RankFallsIff`), and
  overlapping calls can undo a termination or shorten a duration: in all runs nothing else falls back, exactly
  if calls on one session do not overlap (`SshOverlap.MovesForwardIff`, `SshOverlap.NeverShortensIff`). Its Error state is never reached
  (`SshInterleaving.EveryRunKeepsRecords`).
- Two keys set the log level; with different values the enumeration order of a hash map decides
  (`CliArgs.OrderIrrelevantIff`).

One option is without effect for every input: `enable_all` does not change the selected features
(`Features.SelectionIsUnique`).

## Model

| member | source | states |
|---|---|---|
| `FileTree.SortedForest` | src/core/static_files.rs:596-600 | The final sort turns any list of correct nodes with distinct names into a well-formed forest (directories first, then by name) without losing, adding or duplicating a node |
| `FileTree.SiblingsInOrder` | src/core/static_files.rs:665-669 | In every well-formed forest, at every level, no file stands before a directory, and siblings of one kind stand in the order of their names: a prefix first, or the smaller character at the first difference |
| `FileTree.ForestUnique` | src/core/static_files.rs:31-42 | Two well-formed forests that have the same paths with the same kinds and sizes are equal: this is what makes a statement about `Has` a complete specification of a tree |
| `FileTree.StripHas` | src/core/static_files.rs:38-39 | Erasing sizes keeps every directory and file at its path and changes nothing else |
| `Filesystem.SplitJoin` | src/core/static_files.rs:456-460 | Splitting a joined relative path at slashes gives back its components, for every list of slash-free components that does not start with an empty one |
| `Filesystem.JoinSplitOn` | src/core/static_files.rs:554-570 | Joining the pieces of a string the way the tree builders do gives back the string, if it does not start with a slash |
| `Filesystem.FsKindUnique` | src/core/static_files.rs:623-644 | In a directory tree with unique names a path names one thing only |
| `Filesystem.FsPrefixIsDir` | src/core/static_files.rs:447-477 | Every proper prefix of an existing path is a directory |
| `StaticFiles.PushVisit` | src/core/static_files.rs:464-475 | Pushing a directory adds exactly the files below it to what the worklist still owes, and a bounded amount to its measure |
| `StaticFiles.PopVisit` | src/core/static_files.rs:447 | Popping removes exactly what the top entry owes and strictly lowers the measure |
| `StaticFiles.ReadEntry` | src/core/static_files.rs:451-476 | One entry: a file adds its own path to what is collected, a directory moves what lies below it to the worklist, anything else adds nothing |
| `StaticFiles.ReadEntries` | src/core/static_files.rs:450-477 | One directory: collected plus owed files grow by exactly the files of the entries, with multiplicity; the measure does not grow by more than the size of the entries; unreadable directories stay on the worklist |
| `StaticFiles.CollectFiles` | src/core/static_files.rs:438-481 | The worklist loop ends on every finite tree; it fails exactly if some directory cannot be read; otherwise its result is sorted and is the multiset of all files |
| `StaticFiles.FilesUnderCounts` | src/core/static_files.rs:452-462 | Every file has its own relative path: each path occurs at most once, and it occurs exactly if it is the joined path of a file |
| `StaticFiles.ListFiles` | src/core/static_files.rs:438-481 | `list_files` on a host directory: in ascending order, without duplicates, exactly the relative paths of the files; empty for a missing directory; an error exactly if a directory is unreadable |
| `Strings.StrLeIff` | src/core/static_files.rs:480 | The order by which strings are sorted puts one before the other exactly if it is a prefix or has the smaller character at the first difference |
| `StaticFiles.SplitEntries` | src/core/static_files.rs:619-644 | First pass of the recursion: files and directories together still show exactly what the entries show, names stay distinct |
| `StaticFiles.BuildTreeHelper` | src/core/static_files.rs:608-673 | The recursion returns the well-formed tree that has exactly the files (with sizes) and directories of the filesystem; an unreadable directory shows as empty |
| `PathTrie.EntryOrDefault` | src/core/static_files.rs:558 | Looking up a child or adding a default one keeps names and links of the trie consistent and changes the flat meaning at most by one new file entry |
| `PathTrie.ConsistentGrows` | src/core/static_files.rs:545-558 | Hanging a new node below a node keeps the whole heap trie consistent: every link leads to the node of the longer path, and every node hangs below its parent |
| `PathTrie.Descend` | src/core/static_files.rs:556-560 | One cursor step sets the kind of exactly the node it moves to, in the trie and in its flat meaning |
| `PathTrie.InsertPath` | src/core/static_files.rs:554-560 | Inserting a path marks all its proper prefixes as directories and itself as a file, and leaves every other entry alone |
| `PathTrie.Convert` | src/core/static_files.rs:563-602 | Converting a heap node gives the well-formed forest of exactly what is visible below it: an entry hidden under a file is not shown |
| `PathTrie.BuildTreeFromPaths` | src/core/static_files.rs:544-605 | For every list of strings the result is the well-formed tree of what is visible in the list's path map: node paths extend their parents', siblings are unique and ordered, no child list is empty |
| `TreeAgreement.PathMapKeys` | src/core/static_files.rs:553-561 | A path occurs in the trie exactly if it is a non-empty component prefix of some input, in whatever order the inputs came |
| `TreeAgreement.PathMapKind` | src/core/static_files.rs:557-559 | A path at which no input ends is a directory; if no input lies above another the converse holds |
| `TreeAgreement.TreesFollowMaps` | src/core/static_files.rs:544-605 | Two inputs give the same tree exactly if their path maps show the same |
| `TreeAgreement.AnyOrderSameTree` | src/core/static_files.rs:544-605 | If no path lies above another, permuting or repeating the inputs does not change the tree |
| `TreeAgreement.OrderIrrelevantIff` | src/core/static_files.rs:553-561 | Every permutation of the inputs shows the same tree if and only if no input is a proper component prefix of another |
| `TreeAgreement.LeafPaths` | src/core/static_files.rs:563-594 | The path field of a leaf is the names on the way to it, joined; leaves are exactly the files the forest has |
| `TreeAgreement.LeavesAreInputsIff` | src/core/static_files.rs:544-605 | The leaf paths of the tree are exactly the inputs if and only if no input lies above another and none starts with a slash |
| `TreeAgreement.BuildDirectoryTree` | src/core/static_files.rs:522-541 | The backend switch: the walked tree of the host directory (empty if it is missing), or the trie tree of the pod's file list |
| `TreeAgreement.TrieShowsDir` | src/core/static_files.rs:544-605 | Fed with the file list of a directory, the trie shows exactly the directories that lead to a file |
| `TreeAgreement.BackendsAgreeIff` | src/core/static_files.rs:522-541 | For one directory both backends return the same tree, sizes aside, if and only if every directory has a file somewhere below it; enumeration orders do not matter |
| `TreeAgreement.RebuildFromListing` | src/core/static_files.rs:419-605 | The whole pipeline on a readable directory: listing it and rebuilding the tree from the list agrees with walking it, under exactly that condition |
| `SessionCache.SessionManager.Get` | dsb-mcp-server/src/session.rs:58-63 | A hit returns the mapped id and changes that entry's time stamp only; a miss changes nothing |
| `SessionCache.SessionManager.Set` | dsb-mcp-server/src/session.rs:68-76 | The key maps to the given id with the time stamp taken before the insertion; all other keys are kept |
| `SessionCache.SessionManager.Remove` | dsb-mcp-server/src/session.rs:81-91 | Returns the previous mapping, if any, and drops that key only |
| `SessionCache.SessionManager.Clear` | dsb-mcp-server/src/session.rs:230-236 | Nothing is mapped afterwards |
| `SessionCache.SessionManager.ResolveOrCreate` | dsb-mcp-server/src/session.rs:149-207 | A mapped key is touched and answered without asking the server; a missing key is mapped to what the server created, and a failure leaves the map unchanged |
| `SessionCache.SessionManager.Sweep` | dsb-mcp-server/src/session.rs:109-120 | One tick keeps exactly the entries idle for less than the TTL, with a time stamp after the captured time counting as not idle, and counts the others |
| `SessionProtocol.LocksHeldStep` | dsb-mcp-server/src/session.rs:157-205 | Every step keeps: a creating task holds the lock of its shard and its key is absent, and every held lock belongs to such a task |
| `SessionProtocol.ConservedStep` | dsb-mcp-server/src/session.rs:58-236 | Every step keeps each created sandbox in exactly one place: with its creator, at one key, or once in the log of departures |
| `SessionGuarantees.StepsAreOperations` | dsb-mcp-server/src/session.rs:58-120 | The atomic steps of the protocol change the cache exactly as the operations of `SessionManager` do, clearing and sweeping shard by shard |
| `SessionGuarantees.InvRun` | dsb-mcp-server/src/session.rs:58-236 | Lock discipline and conservation hold at the end of every run |
| `SessionGuarantees.SingleFlight` | dsb-mcp-server/src/session.rs:139-141 | In every reachable state at most one creation is in flight per session id, and even per shard |
| `SessionGuarantees.FlightIsolatesShard` | dsb-mcp-server/src/session.rs:157-205 | From the start of a creation to its end no interleaving changes any entry of its shard |
| `SessionGuarantees.FailedFlightLeavesNoTrace` | dsb-mcp-server/src/session.rs:191-193 | A creation that fails, after any interleaving, leaves every entry of its shard as it was at the start, its own key absent and the shard unlocked |
| `SessionGuarantees.MappingIsStable` | dsb-mcp-server/src/session.rs:149-207 | Until a mapping is removed, evicted, cleared or overwritten, in every run every get and resolve answers its id, and no second sandbox is begun, created or inserted for its key |
| `SessionGuarantees.ResolveIsStable` | dsb-mcp-server/src/session.rs:149-207 | From every successful resolve in a reachable state, by hit or by creation, until the mapping is disturbed, its id is the answer to every get and resolve of that session and no second sandbox is begun, created or inserted |
| `SessionGuarantees.PlacesPartition` | dsb-mcp-server/src/session.rs:168-205 | The created ids are the disjoint union of those waiting for insertion, those mapped and those logged as gone |
| `SessionGuarantees.CreationsAddUp` | dsb-mcp-server/src/session.rs:68-236 | In every reachable state the number of successful creations is the sum of sandboxes not yet inserted, keys mapped by a resolve, and logged departures |
| `SessionStaleness.SweepEvictsExactlyStale` | dsb-mcp-server/src/session.rs:112-120 | A visited shard loses exactly the entries last used at least a TTL before the captured time, and keeps the others unchanged |
| `SessionStaleness.UsedIsNotEvicted` | dsb-mcp-server/src/session.rs:112-120 | In every run, an entry used while a sweep is under way is not evicted by that sweep, whatever other tasks do, unless a `set` stores the key with a time stamp that is stale already |
| `SessionStaleness.FreshStep` | dsb-mcp-server/src/session.rs:58-205 | Every step keeps: no time stamp lies in the future, and at the last finished sweep no entry was idle for longer than the longest `set` delay or the longest idle time a sweep lets pass |
| `SessionStaleness.StalenessBound` | dsb-mcp-server/src/session.rs:104-120 | In every run with sweeps at most an interval apart, plus a lag, no entry is ever idle for longer than that time plus interval and lag |
| `SessionStaleness.StalenessReached` | dsb-mcp-server/src/session.rs:74-75 | For every delay and lag there is a run, with every sweep captured when the timer fires, that ends with an entry idle for exactly that long |
| `SessionStaleness.IdleBoundIff` | dsb-mcp-server/src/session.rs:24-27 | A number bounds the idle time in all runs on schedule if and only if it is above max(TTL - 1 ns, longest `set` delay) + interval + lag, with sweeps at any moments or exactly on the timer |
| `SessionStaleness.StalenessBoundIff` | dsb-mcp-server/src/session.rs:24-27 | With sweeps on schedule, including the moment at which the next one is due, no mapping is ever idle for TTL + interval (35 minutes, plus the lag of a sweep) if and only if every `set` stores its entry less than the TTL after its time stamp |
| `SessionStaleness.ThirtyFiveMinutesIff` | dsb-mcp-server/src/session.rs:24-27 | In numbers: no entry is ever idle for 35 minutes, without lag, if and only if every `set` is delayed for less than 30 minutes |
| `SshRecords.DurationTrueIff` | src/core/ssh_service.rs:446-448 | The stored number of seconds is the true span if and only if the span is below 2^31 seconds (the cast to i32 wraps) |
| `SshRecords.DurationLaws` | src/core/ssh_service.rs:446-448 | The stored duration is the number of whole seconds, the rest dropped, wrapped into the range of a signed 32-bit number |
| `SshRecords.EditedInv` | src/core/ssh_service.rs:356-491 | Every edit keeps the record facts: states fit the closing data, times are ordered, a Connecting record has no exec or PTY data, Error is not reached, identity and connection time are kept, an exact duration stays exact |
| `SshRecords.BulkKeepsDurationIff` | src/db/ssh_sessions.rs:470-475 | The bulk statement keeps the duration of a row exact if and only if it does not hit the row, or the row was closed before and reopened, with the same number of seconds up to the earlier end |
| `SshRecords.BulkFields` | src/db/ssh_sessions.rs:470-475 | Field by field: exactly the Connecting and Active rows of the sandbox become Terminated with the stamp as end and update and the fixed reason; everything else stays |
| `SshService.SshSessionService.CreateSession` | src/core/ssh_service.rs:243-303 | Refused if the sandbox is missing or not running, or if the database fails; otherwise one Connecting record is added with all four times equal |
| `SshService.SshSessionService.MarkSessionActive` | src/core/ssh_service.rs:356-384 | Sets state, PTY data and update time of the one record, whatever its state was; unknown ids and rejected writes change nothing |
| `SshService.SshSessionService.UpdateSessionActivity` | src/core/ssh_service.rs:398-420 | Sets activity time, byte counts and update time of the one record |
| `SshService.SshSessionService.DisconnectSession` | src/core/ssh_service.rs:432-457 | Closes an open record with the span since connection as its duration; a record in a terminal state is left alone and the call succeeds |
| `SshService.SshSessionService.TerminateSession` | src/core/ssh_service.rs:470-491 | Closes the record, again if need be, with the reason and the span since connection |
| `SshService.CallFields` | src/core/ssh_service.rs:367-487 | Field by field, what each of the four calls sets in its record, with which argument or clock reading, and what it leaves alone; other records stay; a record in one of the three terminal states is not disconnected again |
| `SshService.TerminatedFields` | src/core/ssh_service.rs:475-482 | Field by field, what a termination in the cleanup sets and leaves alone |
| `SshService.PhaseGrows` | src/core/ssh_service.rs:635-653 | Terminating more sessions after others is terminating all of them once, with the later reason and time where they overlap |
| `SshService.EndedWithoutFailures` | src/core/ssh_service.rs:635-653 | Where no write fails, the sessions that a phase terminates are exactly the listed ones that exist |
| `SshService.SshSessionService.TerminateListed` | src/core/ssh_service.rs:627-659 | One phase attempts every listed session: a missing session, a repeated one or a failing write does not stop the rest, exactly those with a successful call are terminated, and a failed query changes nothing |
| `SshService.SshSessionService.CleanupPass` | src/core/ssh_service.rs:626-738 | After one pass, for arbitrary query results and with every single write free to fail, each session is Terminated with the reason of the last phase whose write for it succeeded, and a session without such a phase is unchanged |
| `SshInterleaving.InvStep` | src/core/ssh_service.rs:356-491 | Every read, clock reading, write, failure, bulk statement with its delayed hits, deletion and passage of time keeps the invariant of stored records and of copies on their way |
| `SshInterleaving.EveryRunKeepsRecords` | src/core/ssh_service.rs:269-491 | At the end of every interleaving each stored record satisfies: Disconnected and Terminated have an end, Terminated has a reason, connected = created <= last activity, created <= updated, an end lies between connection and last update, a duration implies an end, Connecting implies no PTY data, never Error; the identity is that of its creation; and unless a bulk statement was issued for its sandbox, its duration is exact and its last activity is not later than its last update |
| `SshInterleaving.IdentityIsFixed` | src/core/ssh_service.rs:270-291 | Between any two moments of a run a record keeps its identity, connection and creation time |
| `SshInterleaving.BulkLosesDuration` | src/db/ssh_sessions.rs:459-483 | For every session there is a run after which it is Terminated with an end but without an exact duration |
| `SshInterleaving.BulkBackdatesUpdate` | src/db/ssh_sessions.rs:470-475 | For every session there is a run, with a heartbeat between the issue of the bulk statement and its hit, after which the last update lies before the last activity |
| `SshInterleaving.RecordsExactIff` | src/db/ssh_sessions.rs:459-483 | All runs keep the durations of a sandbox exact if and only if bulk statements for it are excluded, and the same holds for the last activity not being later than the last update |
| `SshOverlap.CurrentStep` | src/core/ssh_service.rs:356-491 | A step that does not touch a session keeps the copy of every call on it equal to the stored record |
| `SshOverlap.UndisturbedCallIsWhole` | src/core/ssh_service.rs:356-491 | In every run, if nobody touches a session between a call reading and writing it, the write applies the whole call to the stored record, and it lowers the rank if and only if the call marks a closed session active; other sessions may do anything |
| `SshOverlap.WriteUndoesTerminationIff` | src/core/ssh_service.rs:356-491 | A write to a Terminated record undoes the termination if and only if its call marks the session active, disconnects it, or reports activity from a copy read before the termination |
| `SshOverlap.RunsAreReplayedIff` | src/core/ssh_service.rs:356-491 | In all runs with at most k calls on one session at a time, between any two moments each record becomes exactly what the calls written and the bulk hits in between, each applied as a whole in the order of their writes, make of it, if and only if k is at most one |
| `SshOverlap.SerialRunIsCalls` | src/core/ssh_service.rs:356-491 | Without overlap and bulk statements, the record is the outcome of exactly the calls that the run writes, and their clock readings are in the order of time, so that what holds along sequences of whole calls holds along the run |
| `SshOverlap.StaleWriteUndoesTermination` | src/core/ssh_service.rs:398-420 | For every session there is a run with two overlapping calls in which a heartbeat that read the record before a termination writes after it and the session is Connecting again |
| `SshOverlap.MovesForwardIff` | src/core/types.rs:2092-2102 | In all runs with at most k calls on one session at a time, the rank falls only where a closed session is marked active, if and only if k is at most one |
| `SshOverlap.LateDisconnectShortens` | src/core/ssh_service.rs:443-448 | For every session there is a run in which a disconnection edited at 0 s is written after a termination at 10 s, and the stored duration falls from 10 to 0 |
| `SshOverlap.NeverShortensIff` | src/core/ssh_service.rs:446-482 | In all runs with at most k calls on one session at a time, the stored duration of a session without bulk statements and younger than 2^31 seconds never shrinks, if and only if k is at most one |
| `SshSequential.ServiceCallIsCalled` | src/core/ssh_service.rs:356-491 | A call that succeeds does to its record what the sequential model says, and nothing to others |
| `SshSequential.RankFallsIff` | src/core/ssh_service.rs:367-375 | A call lowers the rank Connecting < Active < Disconnected < Terminated if and only if it marks a closed session active |
| `SshSequential.DurationGrows` | src/core/ssh_service.rs:480-482 | A call never shrinks a stored duration while the session is younger than 2^31 seconds |
| `SshSequential.CallsMoveForward` | src/core/ssh_service.rs:356-491 | Along every sequence of whole calls the duration stays exact and never shrinks (below 2^31 seconds), and the rank never falls if no closed session is marked active |
| `SshSequential.StoredDurationTrueIff` | src/core/ssh_service.rs:480-482 | A closed record tells the true length of its session if and only if that is below 2^31 seconds |
| `Features.DetermineEnabledFeatures` | src/core/features.rs:343-383 | For every enumeration order of the features: a strictly sorted list of exactly the names that are not disabled and are named explicitly or, when nothing is named, enabled by default |
| `Features.SelectionIsUnique` | src/core/features.rs:343-383 | There is only one such list, whatever the value of `enable_all` |
| `Features.BuildFeatureProfile` | src/core/features.rs:386-397 | The profile keeps the label's features and command and holds that list |
| `Features.GetPorts` | src/core/features.rs:181-201 | The ports of the enabled features in order, with UDP recognised in any letter case and anything else TCP |
| `Features.PortsOfOne` | src/core/features.rs:186-196 | A feature contributes its ports in its own order, each with its host port, container port, and UDP exactly for the letters u, d, p in any case |
| `Features.PortsInOrder` | src/core/features.rs:184-198 | The features contribute ports one after the other, in the order of their names |
| `Features.ContainerPortsIff` | src/core/features.rs:186-196 | A container port is contributed exactly if some enabled feature of the image has it |
| `Features.GetVolumes` | src/core/features.rs:204-259 | The volumes of the enabled features in order, with their default and templated host paths, unknown types skipped |
| `Features.VolumeOfOne` | src/core/features.rs:210-251 | The volume of one definition for each type: bind or named, with its given, templated or default host path or name, its container path and its read-only flag; an unknown type has none |
| `Features.VolumesInOrder` | src/core/features.rs:209-254 | The definitions of a feature contribute volumes one after the other, in its own order |
| `Features.FeatureVolumesInOrder` | src/core/features.rs:207-256 | The features contribute volumes one after the other, in the order of their names |
| `Features.TemplatedPath` | src/core/features.rs:213-215 | A path without the placeholder stays as it is; the first placeholder becomes the sandbox id, and the rest behind it is treated in the same way |
| `Features.GetEnv` | src/core/features.rs:262-272 | The union of the enabled features' variables, where a later feature overwrites an earlier one |
| `Features.EnvFromLastFeature` | src/core/features.rs:262-272 | A variable is set exactly if some enabled feature sets it, and then by the last one that does |
| `Features.ExposePorts` | src/core/features.rs:419-432 | The exposed ports become the old ones followed by those container ports that are new |
| `Features.MountVolumes` | src/core/features.rs:434-460 | The volumes become the old ones followed by those with a new container path |
| `Features.SetEnvironment` | src/core/features.rs:462-477 | For every order of the feature variables: existing variables win over them, and the configured resolution wins over both |
| `Features.ApplyFeatureProfile` | src/core/features.rs:414-500 | The updated configuration is the merge of the old one with the profile, field by field |
| `Features.MergeIdempotent` | src/core/features.rs:414-500 | Applying a profile twice is applying it once |
| `Features.EnvIsLayered` | src/core/features.rs:462-477 | A lookup after the merge finds the configured resolution for VNC_RESOLUTION, else the user's value, else the value of the last enabled feature that sets the key, else nothing |
| `Features.ListsAreExtended` | src/core/features.rs:419-497 | The user's ports and volumes are a prefix of the result, followed by first occurrences only; port mappings are untouched; the command is the user's, else the image's default if a feature is enabled; the feature list is the enabled one unless that is empty |
| `Features.ExposedPortsIff` | src/core/features.rs:419-432 | After the merge a container port is exposed exactly if it was before or some enabled feature has it |
| `Features.MountPointsIff` | src/core/features.rs:434-460 | After the merge a container path is mounted exactly if a volume of the user or of an enabled feature has it, and no two added volumes share one |
| `Features.FirstsAreNew` | src/core/features.rs:442-453 | What is appended comes from the features, takes no key that was there, and repeats no key |
| `Features.FirstsAreAll` | src/core/features.rs:442-453 | Nothing new is missed: every key of the features is there afterwards, and what is appended for a key is the first element that has it |
| `StateStore.StateStore.CreateSandbox` | src/core/state.rs:185-192 | Stores the record under its id and keeps all others |
| `StateStore.StateStore.UpdateSandbox` | src/core/state.rs:319-326 | The same effect: an update of an unknown id inserts it |
| `StateStore.StateStore.DeleteSandbox` | src/core/state.rs:356-363 | Drops that id only; a missing id is no error |
| `StateStore.StateStore.ListSandboxesOwnedBy` | src/core/state.rs:418-432 | Lists each stored value that the owner may see once, and nothing else, with or without deleted ones |
| `StateStore.StateStore.GetSandboxIfOwnedBy` | src/core/state.rs:434-444 | Finds the record exactly if it is the key's and not deleted |
| `StateStore.StateStore.GetSandboxWithDeletedIfOwnedBy` | src/core/state.rs:446-460 | Finds the record exactly if it is the key's and either not deleted or deleted ones are asked for |
| `StateStore.RunsKeepKeys` | src/core/state.rs:185-363 | After every run of creates, updates and deletes each record is stored under its own id |
| `StateStore.StoreHoldsLastWrite` | src/core/state.rs:185-363 | After every run the store holds under an id what the last operation on that id left: the sandbox put, or nothing after a deletion, or what was there at the start |
| `StateStore.OwnerSeesLastWrite` | src/core/state.rs:434-460 | After every run a key sees a record exactly if it was the last one put under its id since a deletion, is owned by the key, and is not hidden as deleted |
| `StateStore.ListAgreesWithGets` | src/core/state.rs:418-460 | After every run the records in an owner's list are exactly the results of the owner's gets over all ids, and each record is the result for its own id only |
| `StateStore.ViewsUnchangedIff` | src/core/state.rs:319-460 | One operation leaves all views of a key unchanged if and only if it meets and writes no record of that key, or changes nothing at all |
| `StateStore.OwnersAreIsolated` | src/core/state.rs:185-460 | No run of operations that never meets or writes a record of a key changes any view of that key |
| `ShellQuote.RunQuote` | src/core/static_files.rs:91-93 | Read by the shell in any position where a word may start or continue, a quoted NUL-free string continues the current word by exactly itself |
| `ShellQuote.QuoteIsOneWordIff` | src/core/static_files.rs:91-93 | A quoted string reads as exactly one word equal to the string if and only if the string has no NUL |
| `ShellQuote.CommandTokens` | src/core/static_files.rs:173-333 | Every command made of plain words, literals, quoted strings and operators, with or without a blank between those that need none, reads as exactly the tokens its pieces mean, whatever is quoted |
| `PodCommands.SymlinkCommandTokens` | src/core/static_files.rs:173-178 | The symlink check reads as its eleven intended tokens with the path as one word right before the semicolon, for every NUL-free path |
| `PodCommands.DeleteCommandTokens` | src/core/static_files.rs:327-335 | The delete command reads as its fifteen intended tokens with the path as one word at both places, for every NUL-free path |
| `PodCommands.SizeCommandTokens` | src/core/static_files.rs:224-229 | The size command reads as its ten intended tokens, with the path as one word behind the redirection and `2>` as one redirection of descriptor 2, for every NUL-free path |
| `HtmlEscape.EscapeIsEncode` | src/api/error_pages.rs:188-194 | The five whole-string replacements in order equal one per-character encoding, for every string |
| `HtmlEscape.References` | src/api/error_pages.rs:189-193 | Each of the five characters becomes its own reference, and every other character stays |
| `HtmlEscape.DecodeEscape` | src/api/error_pages.rs:188-194 | Decoding the five references gives back the input, so the encoding is injective |
| `HtmlEscape.EscapeDecode` | src/api/error_pages.rs:188-194 | Every text that decodes is the escape of what it decodes to: the two are inverse |
| `HtmlEscape.EscapedIsClean` | src/api/error_pages.rs:188-194 | The output has no raw `<`, `>`, `"` or `'`, and every `&` in it starts one of the five references |
| `CliArgs.MergeCliArgs` | src/config/loader.rs:448-519 | Key by key and for every enumeration order: a text field takes the value of its own key, a number field the number that the value writes if it is in range, the flag true or false, the level the value of one of its two keys, the last one enumerated; every other field keeps its old value |
| `CliArgs.UselessArgIsIgnored` | src/config/loader.rs:456-515 | Leaving out an argument with an unknown key or an unreadable value, and enumerating the others in the same order, gives the same configuration |
| `CliArgs.LevelWithoutClash` | src/config/loader.rs:483-486 | Without a clash the level does not depend on the order of its two keys |
| `CliArgs.OrderIrrelevantIff` | src/config/loader.rs:455-516 | Every two enumeration orders give the same configuration if and only if `log.level` and `logging.level` are not both given with different values |
| `Parsing.ParseDigitsIff` | src/config/loader.rs:458 | Parsing with a check at every digit succeeds exactly if the whole text is digits and its number is in range: an overflow on the way is never undone |
| `Parsing.ParseGivesIff` | src/config/loader.rs:458-498 | Parsing gives a number exactly if the text writes it, as decimal digits after leading zeros and a plus sign that may be there, and it is in range |
| `Parsing.ParseUnsignedIff` | src/config/validator.rs:281-289 | A text parses exactly if it is digits, perhaps after a plus sign, for a number in range |
| `CacheControl.TrimIsCore` | src/config/validator.rs:259-265 | Trimming removes white space only, from both ends, and all there is |
| `CacheControl.SpacesAre` | src/config/validator.rs:259-265 | White space is the Unicode property of that name, listed by code points |
| `CacheControl.AcceptsDirectiveIff` | src/config/validator.rs:268-296 | The chain of checks accepts exactly the nine directive forms with any number of at most 64 bits |
| `CacheControl.BlankIsRejected` | src/config/validator.rs:259-261 | The initial test for a blank value decides nothing that the checks of the pieces would not |
| `CacheControl.IsValidIff` | src/config/validator.rs:258-300 | A value is accepted exactly if every comma-separated piece, trimmed, is one of the nine forms |
| `CacheControl.ValidJoinIff` | src/config/validator.rs:258-300 | `a,b` is accepted if and only if `a` and `b` both are, for all strings |

## Left out

- Symbolic links in the file system (of the checks before each access only the command is modelled), base64 transfer and file contents.
- File names that are not UTF-8: the lister skips them, the tree builder replaces bytes. Names are strings here.
- Errors while reading a directory that was opened: a directory is readable as a whole or not at all.
- The pod's `find | sed | sort` pipeline: the Kubernetes list is any list of strings, or one that lists exactly the files of a directory where the backends are compared. A newline in a file name breaks that list.
- `delete_sandbox_files` and `get_total_size`: the two backends differ by design (top level or everything), and each is a plain sum.
- The shell beyond tokens: double quotes, expansions (of parameters, commands, paths and the tilde), comments and newlines do not occur in the commands outside quotes and are rejected by the lexer there; reserved words are words.
- The other `test` and base64 commands of the pod, and the `python3 -c` command of the MCP server (dsb-mcp-server/src/dsb_service.rs:279-284): they are further instances of `ShellQuote.CommandTokens`. The modelled commands are given by their pieces, with their format strings beside them; `path` stands for the text after the `/public/` prefix was added.
- Sandboxes that `set` stores are not counted: conservation is about what `resolve_or_create` created. A cancelled creation counts as a failed one.
- Liveness and deadlock of a lock held across the creation call, and real-time scheduling of the sweeps: the clock only does not run backwards, and the staleness bounds are about runs in which sweeps end in time, give or take a lag.
- `contains`, `len` and `is_empty` of the session manager, and the handle of its cleanup task.
- Database transactions other than single statements: an update is stamped when it is issued and hits one row at a time. A failed bulk statement is one that hits nothing.
- The SQL of the stale, stuck and orphaned queries: each returns an arbitrary list of sessions, or fails. A database error of a single read, which the store reports as a missing record, is not told apart from one.
- Rounding of time stamps to the database's microseconds and a clock of the database that differs from the server's. Ids are fresh by assumption.
- Session listing, filtering, statistics and response types.
- Feature labels' JSON, descriptions, and `has_static_server` and `get_static_server_config`: pure lookups. Fields of the sandbox configuration that the merge neither reads nor writes.
- Lower case of characters beyond ASCII: none of them becomes a letter of `udp`.
- Unfiltered `list_sandboxes`, and fields of a sandbox that no view looks at. The read-write lock of the store makes each operation atomic.
- `find_file` and the other sources of configuration; validation rules other than Cache-Control.
- HTTP, WebSocket and TCP relays, Docker and Kubernetes calls, logging, API keys and tokens.
