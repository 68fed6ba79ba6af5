# Verified model of the workspace core

The project models the parts of the repository where state, aliasing, concurrency or arithmetic make mistakes easy, and
proves what these parts are for.

* **Session filesystem** (`SessionState`, `SessionCoherence`, `SessionVisible`, `SessionRemoval`, `SessionTidy`,
  `SessionCopy`, `SessionClear`, `SessionFs`, `SessionRuns`, `SessionAnswers`, `SessionFindings`, `SessionScenarios`): the
  write-through cache with six tracking sets in front of a remote overlay. Paths are lists of names; `Paths` and
  `PathNormalizers` relate them to strings.
* **Content trees** (`ContentTree`, `ContentArena`, `TreePrint`, `ContentStore`, `ContentMerkle`, `ContentBuild`,
  `ContentRuns`, `Sorting`): the Merkle store, and building a tree from working changes by editing nested Maps in place.
* **Object graphs** (`ObjectGraph`, `Contextify`, `Serializable`): copying host data into the sandbox, and the
  serializability check.
* **Compile jobs** (`CompileJobs`, `CompileHistory`): leases, heartbeats, takeover, the queue of runnable jobs, and what
  the record of a job tells about its past.
* **Locks** (`FileLock`, `ApprovalStore`): calls chained through promises, interleaved at every await.
* **Approvals** (`Approvals`, `ApprovalMeaning`): the wildcard matcher and the context's list of approvals, and what a
  match means.
* **The working-state hash** (`WorkingStateHash`, `WorkingStateOrder`, `WorkingStateText`): the number, how it depends on
  the order of the list, and what the hashed text tells about a state.
* **Smaller algorithms** (`TextEdits`, `AutoDeployer`, `Paths`, `PathNormalizers`, `Decimals`).

Where the original updates something step by step, the model has a class or a loop of the same shape, proved against
functions on values; the properties are lemmas about those functions. Interleaved code is a state machine whose steps
are the stretches between two awaits.

## What was found

Where the code meets a property only under a condition, the condition is proved exact, and a concrete input shows that
it can fail.

* A write below a live file that is not yet in the cache makes that file unreadable
  (`SessionCoherence.WriteFaithfulIff`; `SessionFindings.WriteBelowUnreadFile`). An append whose text does not survive
  decoding and encoding makes cache and remote differ (`SessionCoherence.AppendFaithfulIff`;
  `SessionFindings.AppendOfInvalidText`).
* `rm -r` without `force` succeeds exactly when everything to which the listings lead exists, with `force` always; what
  it then removes, and when that is all, is exact as well (`SessionFs.RmSucceedsIff`, `SessionRemoval.RemovalClearsIff`).
  Writes and removals alone can lead to a state in which it succeeds and misses a live file, since `markParentsModified`
  stops at the first modified ancestor and a removed file can have one below it (`SessionScenarios.RemoveAndMiss`).
  A new client on a session with old deletion markers lists directories that do not exist, and `rm -r` ends with
  ENOENT (`SessionScenarios.RemoveOverForeignMarkers`).
* `mkdir -p` can be refused because of a stale directory in the cache (`SessionFindings.MkdirSucceedsIff`;
  `SessionFindings.MkdirRefusesStaleDirectory`). So a copy or move succeeds exactly when everything listed below its
  source exists and no directory it creates is refused, which can be told before the call (`SessionClear.CopyAllowed`).
  A move that fails leaves every file outside the destination where it was. A file that is moved onto itself is lost:
  the copy writes it to its own place, and the removal takes it away (`SessionFs.ConvexSessionFs.Mv`;
  `SessionScenarios.MoveOntoItself`).
* Deleting a path whose parent directory is missing deletes an unrelated entry (`ContentTree.OrphanDeleteHitsAnother`);
  `ContentTree.ChangeAgreesIff` says when the nested edit and the flat map agree.
* Trees are hashed by a text in which a name with a newline can look like the end of one entry and the beginning of
  another. A name alone collides exactly when it holds `:<id>`, a newline and `file:` or `directory:`
  (`TreePrint.SingletonCollides`). That is not enough for trees of several entries, where the colon may be the one
  behind the name (`TreePrint.TwoParses`); `TreePrint.SafeIff` gives the exact condition on names, and
  `ContentStore.TreesCollide` two trees that get one id.
* Of a change that has both a text and a blob, the tree takes the blob and the compiler's file map the text
  (`ContentBuild.TextAndBlob`); the other results are for changes in which they agree.
* Blobs are found by their text alone: one gets the flag asked for exactly when no stored blob of its text has the other
  (`ContentStore.BinaryFlagIff`; `ContentStore.BinaryFlagIgnored`).
* Entries are sorted with `localeCompare`, which takes canonically equivalent names for equal, as the composed and the
  decomposed "é". So the id of a tree does not depend on the order of its entries exactly when the comparison tells
  their names apart (`ContentStore.EntryOrderIrrelevantIff`), and equal contents have one id in every reached store
  exactly when it tells all names apart (`ContentRuns.ReachedContentsIff`; `ContentRuns.UntoldNamesTwoIds`).
* A heartbeat does not look at the lease: it revives an expired one and shuts out a worker that could have claimed the
  job (`CompileJobs.HeartbeatIgnoresExpiry`, `CompileJobs.HeartbeatRevives`).
* The validator admits NaN as `leaseMs`, and the clamp passes it on. Leases stay in bounds exactly when none was granted
  for NaN (`CompileJobs.LeasesStayInBounds`). A NaN lease never expires (`CompileJobs.NaNLeaseNeverExpires`), and its job
  is still listed: a listed job can be claimed exactly by the workers whom no NaN lease of another shuts out
  (`CompileJobs.ListedIsClaimable`; `CompileJobs.NaNLeaseIsOfferedInVain`).
* A secret named "__proto__" is not stored, since assigning a string to that name of an object literal has no effect; a
  secret that was set last is read exactly when its name is another (`FileLock.LastCallDecides`).
* Approval matching is transitive for one-line actions exactly when the pattern has no "*" or no "."
  (`Approvals.PatternTransitiveIff`), and for patterns without "." exactly for one-line actions
  (`Approvals.ActionTransitiveIff`).
* `LocalSessionFs` reads some paths differently in its synchronous and asynchronous calls: those with `/sandbox` prefix,
  which only the asynchronous ones take off, and those with white space around a part, as "a/ b", which only these trim
  (`PathNormalizers.CallsAgreeIff` says exactly which; `PathNormalizers.WhiteSpaceShows`).
* A revision is found again by the hash of the working state (services/backend/convex/compile.ts:157-170), and the text
  that is hashed does not tell all states apart. At one path two changes print alike exactly when their payloads are
  equal (`WorkingStateText.SamePayloadIff`), as for a deletion and the content "D"
  (`WorkingStateText.DeletionLooksLikeContent`). Separators are not escaped: among states whose paths hold none, one
  change prints like another state exactly when its payload holds a bar, a path and a colon
  (`WorkingStateText.SingletonCollides`), among all states exactly when there is a colon in it
  (`WorkingStateText.ColonCollides`). Any two changes hash like a single one (`WorkingStateText.TwoHashLikeOne`;
  `WorkingStateText.SeparatorsCollide`). States without such paths and payloads, whose paths the comparison tells apart,
  print alike exactly when they are equal (`WorkingStateText.StatesToldApart`).
* The text depends on the order of the list exactly when two changes that the comparison of paths cannot tell apart do
  not commute (`WorkingStateOrder.PrintOrderIrrelevantIff`): changes to one path (`WorkingStateOrder.SamePathOrderMatters`),
  and changes to paths that `localeCompare` takes for equal. The working table keeps one record per path, so with paths
  that hold no separator its order is of no concern exactly when all paths are told apart
  (`WorkingStateOrder.TableOrderIrrelevantIff`; `WorkingStateOrder.UntoldPathsMatter`).
* Two text edits that start at one place depend on the order of the list unless they commute
  (`TextEdits.TwoEditsIff`): of two insertions the one listed last comes first, and an insertion listed before a
  replacement at its place is lost (`TextEdits.InsertionOrderMatters`, `TextEdits.InsertionLost`,
  `TextEdits.LostInsertion`).

## Model

| member | source | states |
|---|---|---|
| SessionState.Listing | services/backend/convex/fs/overlay.ts:716-785 | the names listed in a directory are exactly those of live files in it and of first segments leading to a file below, base files counting even when deleted |
| SessionState.MarksAre | packages/session-fs/src/convex-fs.ts:187-196 | the loop over the parents marks the ancestors with no modified path between them and the start |
| SessionCoherence.CoherentIsFaithful | packages/session-fs/src/convex-fs.ts:415-432 | the joint invariant of cache and tracking sets implies that reads return the remote bytes of live paths and fail on all others |
| SessionCoherence.OpenedIsCoherent | packages/session-fs/src/convex-fs.ts:136-141 | a new client satisfies the invariant on any session |
| SessionCoherence.FileLookup | packages/session-fs/src/convex-fs.ts:251-328 | loading a file keeps the invariant and changes nothing remote |
| SessionCoherence.DirLookup | packages/session-fs/src/convex-fs.ts:333-407 | loading a directory keeps the invariant and changes nothing remote |
| SessionCoherence.StatLookup | packages/session-fs/src/convex-fs.ts:531-555 | `stat` keeps the invariant and changes nothing remote |
| SessionCoherence.WriteKeepsCoherence | packages/session-fs/src/convex-fs.ts:434-470 | a safe write keeps the invariant and changes one remote path to the new bytes |
| SessionCoherence.UnsafeWriteHidesAncestor | packages/session-fs/src/convex-fs.ts:187-196 | a live uncached ancestor becomes unreadable after the write |
| SessionCoherence.WriteFaithfulIff | packages/session-fs/src/convex-fs.ts:434-470 | after a write all reads are truthful if and only if no uncached live file is about to be marked as a directory |
| SessionCoherence.AppendKeepsCoherence | packages/session-fs/src/convex-fs.ts:472-499 | a safe append concatenates on a live file, creates an absent one, and keeps the invariant |
| SessionCoherence.AppendFaithfulIff | packages/session-fs/src/convex-fs.ts:472-499 | after an append all reads are truthful if and only if the text survives decoding and encoding, or the fresh write is safe |
| SessionFindings.WriteBelowUnreadFile | packages/session-fs/src/convex-fs.ts:434-470 | an input: on a new client, a write below a base file that was never read, after which reads lie |
| SessionFindings.AppendOfInvalidText | packages/session-fs/src/convex-fs.ts:472-499 | an input: appending the byte 0xFF, which the trip through text changes, after which reads lie |
| SessionCoherence.MkdirKeepsCoherence | packages/session-fs/src/convex-fs.ts:581-612 | creating directories keeps the invariant and the remote files, also when it fails half-way |
| SessionCoherence.RemoveEntryKeepsCoherence | packages/session-fs/src/convex-fs.ts:705-724 | dropping one path keeps the invariant and removes that path only |
| SessionAnswers.StatAnswer | packages/session-fs/src/convex-fs.ts:531-555 | in every coherent state `stat` finds exactly what `exists` finds, and tells files from directories |
| SessionAnswers.StatOfUnreadDirectory | packages/session-fs/src/convex-fs.ts:548-552 | a new client finds the directory of a base file that nobody has read |
| SessionAnswers.ReadAnswer | packages/session-fs/src/convex-fs.ts:415-432 | a read of what is not live fails, as on a directory if and only if the client recorded one there |
| SessionAnswers.ReaddirAnswer | packages/session-fs/src/convex-fs.ts:619-680 | which paths can be listed, told before the call, and that a listing holds the names that are live, lead to something below, or are the client's own |
| SessionAnswers.DirectoriesEnterable | packages/session-fs/src/convex-fs.ts:619-640 | whatever exists and is no file to `stat` can be listed |
| SessionAnswers.MkdirAnswer | packages/session-fs/src/convex-fs.ts:581-612 | which of its four ends a `mkdir` without `recursive` has, told before the call |
| SessionAnswers.MkdirError | packages/session-fs/src/convex-fs.ts:581-612 | `mkdir -p` is only ever refused by the in-memory cache |
| SessionAnswers.MkdirMakes | packages/session-fs/src/convex-fs.ts:581-612 | a directory that was made is one to `exists` and `stat` and in the listing of its parent; nothing remote changes |
| SessionAnswers.MkdirAfterRemoval | packages/session-fs/src/convex-fs.ts:603-603 | making a directory right after its removal is refused if and only if the cache holds something inside it, or gets it back by looking its parent up |
| SessionAnswers.LookupCachesChild | packages/session-fs/src/convex-fs.ts:384-403 | looking a directory up for the first time caches a listed child if and only if it is neither tracked nor live |
| SessionAnswers.AppendAnswer | packages/session-fs/src/convex-fs.ts:472-499 | an append is refused if and only if the path is not live and the cache holds a directory there |
| SessionAnswers.WriteShows | packages/session-fs/src/convex-fs.ts:434-470 | what was written is a file to `exists` and `stat`, its parent lists it, and no deletion marker is left |
| SessionAnswers.AppendShows | packages/session-fs/src/convex-fs.ts:472-499 | the same after an append, with the bytes that the remote then holds |
| SessionAnswers.RemovalShows | packages/session-fs/src/convex-fs.ts:705-724 | a removed entry is gone from every lookup and leaves its deletion marker |
| SessionRemoval.LiveFileReached | packages/session-fs/src/convex-fs.ts:682-703 | recursion reaches a live file if and only if nothing above it, from the target on, is blocked or invisible |
| SessionRemoval.RemovalClearsIff | packages/session-fs/src/convex-fs.ts:682-725 | a successful recursive removal leaves no live file at or below its target if and only if no file is hidden; all files outside keep their bytes |
| SessionFs.RmSucceedsIff | packages/session-fs/src/convex-fs.ts:682-725 | a recursive `rm` succeeds if and only if it is forced or all to which the listings lead exists; success removes exactly the reached live files, and all of them if and only if none is hidden |
| SessionRemoval.TidyVisitsAll | packages/session-fs/src/convex-fs.ts:619-703 | in a tidy state the listings lead to every live and every modified path below the target |
| SessionRemoval.TidyAllVisible | packages/session-fs/src/convex-fs.ts:619-703 | in a tidy state the listings lead to nothing that does not exist, so the recursive removal succeeds |
| SessionRemoval.TidyReachesAll | packages/session-fs/src/convex-fs.ts:619-703 | in a tidy state the recursion reaches every live and every modified path below the target |
| SessionRemoval.TidyRemovalIsExact | packages/session-fs/src/convex-fs.ts:682-725 | from a tidy state exactly the files at and below the target go, the others keep their bytes, and the modified set loses the same paths |
| SessionRemoval.NextEntryRemoved | packages/session-fs/src/convex-fs.ts:698-701 | removing one more listed child extends what the loop has removed by exactly that child's part |
| SessionRemoval.DirectoryRemoved | packages/session-fs/src/convex-fs.ts:692-724 | removing all listed children and then the directory is the recursive removal |
| SessionTidy.WriteKeepsTidy | packages/session-fs/src/convex-fs.ts:434-470 | a write with no file above or below its path keeps the state tidy and sets one file |
| SessionTidy.StepKeepsTidy | packages/session-fs/src/convex-fs.ts:415-725 | each read, lookup, listing, guarded write and removal keeps tidiness and acts on the remote as on a flat map |
| SessionTidy.RunsAreExact | packages/session-fs/src/convex-fs.ts:415-470 | over every run of reads, lookups, listings, guarded writes and removals the remote equals the flat map edited by the calls, and every read is truthful |
| SessionTidy.OpenedIsTidy | packages/session-fs/src/convex-fs.ts:136-141 | a client opened on a session without markers, whose files are leaves, starts tidy |
| SessionTidy.ExistsSettles | packages/session-fs/src/convex-fs.ts:501-555 | after `exists`, `stat` answers without changing the state and tells files from directories |
| SessionCopy.CopySplits | packages/session-fs/src/convex-fs.ts:746-752 | what lands below the destination is the union of what lands through each listed child |
| SessionCopy.TidySources | packages/session-fs/src/convex-fs.ts:727-753 | in a tidy state the copy reaches exactly the live files at and below its source |
| SessionCopy.CopyThenRemoveMovesAcross | packages/session-fs/src/convex-fs.ts:756-760 | from a source all of whose listed paths exist, a copy followed by the removal leaves the landed files and all others except those the listings of the source lead to |
| SessionCopy.TidyMovedAcross | packages/session-fs/src/convex-fs.ts:756-760 | from a tidy source that is exactly the moved map |
| SessionCopy.MoveConserves | packages/session-fs/src/convex-fs.ts:756-760 | each file below the source is at its new place with its old bytes and no longer at the old one; paths outside both are unchanged |
| SessionClear.StatusVisible | packages/session-fs/src/convex-fs.ts:501-529 | what is visible and listed at a path depends only on the tracking sets and the remote at and below it |
| SessionClear.MkdirInSettled | packages/session-fs/src/convex-fs.ts:581-612 | in a directory that exists, creating a directory is refused if and only if it is cached without being visible, and changes nothing apart from it |
| SessionClear.ClearAfterMkdir | packages/session-fs/src/convex-fs.ts:744-745 | creating the destination does not change which of its subdirectories will be refused |
| SessionClear.ClearSplits | packages/session-fs/src/convex-fs.ts:746-752 | no directory of the copy is refused if and only if none is refused through any listed child |
| SessionClear.CpLoopTurn | packages/session-fs/src/convex-fs.ts:746-752 | a child's copy succeeds if and only if its part of the condition held before the loop, whatever its siblings did |
| SessionClear.DirectoryAllowed | packages/session-fs/src/convex-fs.ts:741-753 | the condition for a directory splits over the children listed after the destination was made |
| SessionClear.DirectoryStatus | packages/session-fs/src/convex-fs.ts:741-753 | in every coherent state the copy of a directory succeeds if and only if all listed below the source exists and no directory it creates is refused |
| SessionClear.FreshDestinationIsClear | packages/session-fs/src/convex-fs.ts:727-760 | nothing is refused at a destination of which neither cache nor remote know anything |
| SessionFs.ConvexSessionFs.constructor | packages/session-fs/src/convex-fs.ts:136-141 | the new object is a client with empty tracking sets |
| SessionFs.ConvexSessionFs.EnsureFile | packages/session-fs/src/convex-fs.ts:251-328 | field updates and answer are those of the specified file lookup |
| SessionFs.ConvexSessionFs.EnsureDir | packages/session-fs/src/convex-fs.ts:333-407 | field updates and answer are those of the specified directory lookup, for any order of the listed entries |
| SessionFs.ConvexSessionFs.Read | packages/session-fs/src/convex-fs.ts:415-432 | refines the specified read |
| SessionFs.ConvexSessionFs.PathExists | packages/session-fs/src/convex-fs.ts:501-529 | refines the specified `exists` |
| SessionFs.ConvexSessionFs.StatPath | packages/session-fs/src/convex-fs.ts:531-555 | refines the specified `stat` |
| SessionFs.ConvexSessionFs.List | packages/session-fs/src/convex-fs.ts:619-680 | refines the specified listing: remote names without deleted ones, and local ones |
| SessionFs.ConvexSessionFs.MarkParents | packages/session-fs/src/convex-fs.ts:187-196 | the loop marks exactly the specified ancestors in four sets |
| SessionFs.ConvexSessionFs.Write | packages/session-fs/src/convex-fs.ts:434-470 | refines the specified write; refused without change when read-only |
| SessionFs.ConvexSessionFs.Append | packages/session-fs/src/convex-fs.ts:472-499 | refines the specified append; refused without change when read-only |
| SessionFs.ConvexSessionFs.MakeDir | packages/session-fs/src/convex-fs.ts:581-612 | refines the specified `mkdir`, recursive or not |
| SessionFs.ConvexSessionFs.Rm | packages/session-fs/src/convex-fs.ts:682-725 | terminates; the result is that of `RmResult`, told before the call, for missing paths, non-empty directories and `force`; success removes exactly the reached paths, and failure no file that is not reached |
| SessionFs.ShallowExists | packages/session-fs/src/convex-fs.ts:682-703 | the bound on the depth of the recursion that `rm`, `cp` and `mv` ask for always exists |
| SessionFs.ConvexSessionFs.Cp | packages/session-fs/src/convex-fs.ts:727-754 | terminates; a file is written to any destination as it was read; the copy of a directory to a disjoint destination changes nothing outside it, keeps the source, puts every copied file at its place with the bytes of its origin, and succeeds if and only if it is allowed: all listed below the source exists and no directory to be created is refused |
| SessionFs.ConvexSessionFs.Mv | packages/session-fs/src/convex-fs.ts:756-760 | a file ends up at any destination and not at its old place, so that one moved onto itself is lost; a move to a disjoint destination succeeds if and only if the copy is allowed, success moves every file to which the listings of the source lead, from a tidy source every file of it, and failure leaves every file outside the destination |
| SessionFs.FileMoved | packages/session-fs/src/convex-fs.ts:756-760 | a file written anywhere is still seen as a file at its old place, and its removal removes nothing else |
| SessionScenarios.MoveOntoItself | packages/session-fs/src/convex-fs.ts:756-760 | on a new client `mv` of a file onto itself returns normally and the file is gone |
| SessionRuns.CallKeepsCoherence | packages/session-fs/src/convex-fs.ts:251-754 | every operation keeps the invariant and leaves the remote alone outside the paths it is about; writes, appends and copies of files when safe, copies of directories to disjoint places without clash |
| SessionRuns.EveryRunIsFaithful | packages/session-fs/src/convex-fs.ts:251-760 | over every run of such operations, a move being a copy and a removal, every read is truthful at every moment, and paths no call touched are as at the beginning |
| SessionFindings.RemovalCanMissAFile | packages/session-fs/src/convex-fs.ts:187-196 | after three writes and two removals all that is listed below a directory exists, but not all that is live below it is reached |
| SessionScenarios.RemoveAndMiss | packages/session-fs/src/convex-fs.ts:682-725 | the client itself makes these calls, and then `rm -r` returns normally and leaves a live file in the directory |
| SessionVisible.ExistsIsVisible | packages/session-fs/src/convex-fs.ts:501-529 | what `exists` answers, as a condition on sets and remote without the lookups |
| SessionVisible.ExistsKeepsVisible | packages/session-fs/src/convex-fs.ts:501-529 | the lookups that `exists` makes change no later answer |
| SessionFindings.MarkedDirectoryListedButAbsent | services/backend/convex/fs/overlay.ts:716-785 | a marked directory with only base files below is listed by its parent and does not exist |
| SessionFindings.ForeignMarkerStopsRemoval | packages/session-fs/src/convex-fs.ts:682-703 | on such a session the listings of an existing directory lead to a child that does not exist |
| SessionScenarios.RemoveOverForeignMarkers | packages/session-fs/src/convex-fs.ts:682-725 | the client finds that directory, and `rm -r` of it returns ENOENT |
| SessionFindings.MkdirRefusesStaleDirectory | packages/session-fs/src/convex-fs.ts:603-603 | after reading and removing the only file of a directory, creating the directory is refused |
| SessionFindings.MkdirSucceedsIff | packages/session-fs/src/convex-fs.ts:581-612 | `mkdir -p` succeeds if and only if no directory to be created is cached or gets cached while its parent is looked up |
| ContentTree.FlattenAt | services/backend/convex/compile.ts:123-123 | looking a path up in the nested form is looking it up in the flat map |
| ContentTree.AtSetFile | services/backend/convex/content.ts:359-384 | an update puts the blob at its path, destroys files above and below it, and leaves every other path alone |
| ContentTree.AtDeleteEntry | services/backend/convex/content.ts:350-358 | a deletion removes exactly what is at and below the entry where the descent stopped |
| ContentTree.ChangeAgreesIff | services/backend/convex/content.ts:346-384 | one change means the same in the nested and the flat form if and only if no other file is in its way |
| ContentTree.EditsRefineFlat | services/backend/convex/compile.ts:122-151 | editing the nested form and flattening is flattening and editing the flat map, over any list of agreeable changes |
| ContentTree.OneChangeAgrees | services/backend/convex/content.ts:346-384 | under a condition on the base and the paths of the changes, the first change agrees in both forms, and the condition holds for the rest |
| ContentTree.PrefixFreeChangesRefineFlat | services/backend/convex/content.ts:346-384 | the same for all lists under that condition: no path of a file or a change below another, content present, the directory of each deletion in the base or above an earlier update |
| ContentTree.OrphanDeleteHitsAnother | services/backend/convex/content.ts:352-358 | without its parent, deleting a/x removes the top-level x |
| ContentArena.RootDescends | services/backend/convex/content.ts:371-380 | going down one directory object is putting the edited subdirectory into its parent, since no object is shared |
| ContentArena.WorkingTree.SetFileAt | services/backend/convex/content.ts:369-383 | the in-place descent with directory creation refines the update on values |
| ContentArena.WorkingTree.DeleteAt | services/backend/convex/content.ts:350-358 | the in-place descent with early stop refines the deletion on values |
| TreePrint.Canonize | services/backend/convex/content.ts:41-48 | every list prints like a canonical one, in which no name holds the end and the beginning of entries |
| TreePrint.CanonicalInjective | services/backend/convex/content.ts:41-48 | canonical lists are determined by what they print |
| TreePrint.CanonicalIff | services/backend/convex/content.ts:41-48 | a list is the one canonical list with its print if and only if it is canonical |
| TreePrint.PrintInjective | services/backend/convex/content.ts:41-48 | the hashed text determines the entry list when all names are safe |
| TreePrint.SafeIff | services/backend/convex/content.ts:41-48 | a name is safe if and only if its tree with one more ordinary entry prints like no other tree of safe names |
| TreePrint.SingletonCollides | services/backend/convex/content.ts:41-48 | another list prints like one entry if and only if its name holds the end of an entry, a newline, and the type of another with its colon |
| TreePrint.TwoParses | services/backend/convex/content.ts:41-48 | two lists that print alike, none of whose names has that form |
| TreePrint.NewlineNamesCollide | services/backend/convex/content.ts:41-48 | two different lists that print alike |
| ContentStore.BlobCreated | services/backend/convex/content.ts:77-114 | the blob returned holds the text, the store stays valid and only grows |
| ContentStore.BinaryFlagIff | services/backend/convex/content.ts:77-114 | the blob returned has the flag asked for if and only if no stored blob of the text has the other |
| ContentStore.TreeCreated | services/backend/convex/content.ts:202-236 | the tree returned holds the sorted entries, the store stays valid and only grows |
| ContentStore.EntryOrderIrrelevant | services/backend/convex/content.ts:37-38 | the id does not depend on the order of entries whose names the comparison tells apart |
| ContentStore.EntryOrderIrrelevantIff | services/backend/convex/content.ts:37-48 | under every total preorder of names it does not depend on their order if and only if the comparison tells the names apart |
| ContentStore.BinaryFlagIgnored | services/backend/convex/content.ts:83-114 | an input: text equal to the encoding of a binary gets the binary's blob |
| ContentStore.SameTreeIff | services/backend/convex/content.ts:202-236 | two lists of entries, whatever their names, get one id if and only if they print alike in name order |
| ContentStore.TreesCollide | services/backend/convex/content.ts:202-236 | under every name order a tree of one file gets the id of the tree of the files "a" and "b" |
| ContentStore.EmptyTreeIsATree | services/backend/convex/content.ts:269-292 | the empty tree of a new workspace is the tree of no entries |
| ContentMerkle.SameContentsSameId | services/backend/convex/content.ts:202-236 | in every valid store in whose trees the comparison tells names apart, two tree ids are equal if and only if their nested contents are |
| ContentRuns.RunIsValid | services/backend/convex/content.ts:77-407 | every run of blob, tree and empty-tree creations and builds keeps the store valid and changes no record |
| ContentRuns.ReachedContents | services/backend/convex/content.ts:77-407 | with a comparison that tells all names apart, in every store such a run reaches from the empty one tree ids are equal if and only if their nested contents are |
| ContentRuns.ReachedContentsIff | services/backend/convex/content.ts:77-407 | this holds of all reached stores if and only if the comparison tells all names apart |
| ContentRuns.UntoldNamesTwoIds | services/backend/convex/content.ts:202-236 | two names that the comparison takes for equal: a run of three calls after which one content has two ids |
| ContentRuns.ContentsForever | services/backend/convex/content.ts:77-407 | what a tree id loads to at some point of a run, it loads to ever after |
| ContentMerkle.LoadedTreeIsGood | services/backend/convex/content.ts:323-338 | a loaded tree has distinct names at every depth and refers to stored blobs |
| ContentMerkle.LoadShowsContents | services/backend/convex/content.ts:323-338 | a loaded tree has at every path the text or the directory that its id stands for, and nothing else |
| ContentMerkle.MissingLoadsEmpty | services/backend/convex/content.ts:324-326 | a tree that is not stored loads as the empty directory |
| ContentMerkle.LoadTreeStable | services/backend/convex/content.ts:323-338 | a growing store does not change what an id loads to |
| ContentMerkle.SaveTreeKeeps | services/backend/convex/content.ts:387-405 | saving keeps the store valid, and loading the returned id gives the same file at every path |
| ContentMerkle.SaveOfLoadIsIdentity | services/backend/convex/content.ts:323-405 | saving an unmodified loaded tree returns the id it was loaded from and adds nothing |
| ContentBuild.OverlayWorkingChanges | services/backend/convex/compile.ts:122-151 | the loop fails if and only if some change carries no content, at the path of the first one, and otherwise yields the edited flat map |
| ContentBuild.IdleSkipped | services/backend/convex/content.ts:346-359 | changes without a name, and those that neither delete nor carry anything, are skipped |
| ContentBuild.TextAndBlob | services/backend/convex/content.ts:359-367 | of a change that has both, the tree takes the blob and the flat map the text |
| ContentBuild.ResolveKeeps | services/backend/convex/content.ts:359-367 | a change resolves to a blob of its text, with its flag if and only if the stored flags agree with it |
| ContentBuild.OneChangeText | services/backend/convex/content.ts:346-384 | one change, blob creation included, has the same effect on the texts as on the flat map |
| ContentBuild.PrefixFreeIsAgreeable | services/backend/convex/content.ts:346-384 | the condition on the base tree and the paths makes every change agree at its turn, blob creations included |
| ContentBuild.BuildOfNothing | services/backend/convex/content.ts:340-405 | without changes the tree is the base tree itself, or the empty tree when there is no base |
| ContentBuild.BuildRefinesTexts | services/backend/convex/content.ts:302-407 | under the condition on base and paths, the tree returned, loaded and flattened, holds exactly the texts that the same changes produce on the flattened base |
| ContentBuild.BuildRefinesFlat | services/backend/convex/content.ts:302-407 | when the flags of the changes agree with each other and with the stored ones, it holds exactly what the changes ask to store, text and flag |
| ContentBuild.ContentBackend.GetOrCreateBlobId | services/backend/convex/content.ts:77-114 | refines the specified blob creation on the tables |
| ContentBuild.ContentBackend.GetOrCreateTreeId | services/backend/convex/content.ts:202-236 | refines the specified tree creation on the tables |
| ContentBuild.ContentBackend.CreateEmptyTreeId | services/backend/convex/content.ts:269-292 | refines the specified creation of the empty tree, which is that of a tree of no entries |
| ContentBuild.ContentBackend.Load | services/backend/convex/content.ts:323-338 | terminates, and the new directory objects hold the stored tree without sharing |
| ContentBuild.ContentBackend.Save | services/backend/convex/content.ts:387-405 | bottom-up saving of directory objects refines saving on values |
| ContentBuild.ContentBackend.BuildTreeFromChanges | services/backend/convex/content.ts:302-407 | load, in-place edits and save refine the specified build |
| Contextify.WalkImage | packages/runtime-core/src/index.ts:657-743 | every access path gives in the copy the image of what it gives in the source |
| Contextify.AliasingKept | packages/runtime-core/src/index.ts:745-751 | two access paths, from one global or two, lead to one object in the copy if and only if they do in the source |
| Contextify.CopyLooksAlike | packages/runtime-core/src/index.ts:695-726 | a copied array has as many items, a copied object is plain and has the same keys and attributes in the same order; leaves stay, references lead to copies |
| Contextify.ChildCopied | packages/runtime-core/src/index.ts:695-702 | copying one more child and writing it into the half-filled copy keeps the node half-way, cycles back to it included |
| Contextify.Sandbox.ContextifyValue | packages/runtime-core/src/index.ts:657-743 | terminates on every finite graph; older copies are untouched, newer ones finished and reached from the value |
| Contextify.Sandbox.InstallGlobals | packages/runtime-core/src/index.ts:745-751 | the copies are isomorphic to exactly the part of the source that the globals reach, one copy per object |
| Serializable.AcceptsIff | packages/sdk/src/action.ts:33-87 | below the objects on the current path, the walk accepts if and only if all is allowed, no cycle is reached, and no object of the path is met |
| Serializable.SerializableIff | packages/sdk/src/action.ts:33-91 | accepted if and only if no trail of items and enumerable properties leads to a function, symbol, bigint, number that is not finite or object with a prototype of its own, and none comes to an object twice |
| Serializable.EntersExactly | packages/sdk/src/action.ts:64-84 | the walk enters exactly the items of an array and the enumerable properties of an object |
| Serializable.Checker.AssertSerializableInternal | packages/sdk/src/action.ts:33-87 | terminates; the answer is that of the walk, and on success the seen-set is restored |
| Serializable.Checker.AssertSerializable | packages/sdk/src/action.ts:89-91 | succeeds if and only if no such trail does |
| CompileJobs.ClampLeaseMs | services/backend/convex/compileJobs.ts:107-109 | between one second and ten minutes if and only if it is not given NaN, unchanged when already there |
| CompileJobs.TerminalForever | services/backend/convex/compileJobs.ts:264-666 | no sequence of calls changes a terminal job |
| CompileHistory.AcceptedIff | services/backend/convex/compileJobs.ts:264-666 | which calls are accepted: for this executor and instance, and from a worker that may make them |
| CompileHistory.RejectedAs | services/backend/convex/compileJobs.ts:264-666 | each error of the others is given if and only if it is true |
| CompileHistory.CompletionRejectedAs | services/backend/convex/compileJobs.ts:573-579 | a completion by the owner fails if and only if the revision is missing or of another workspace |
| CompileHistory.OutcomeIff | services/backend/convex/compileJobs.ts:149-666 | in every run from its creation a job is completed, failed or canceled if and only if such a call was accepted while it was open, or it failed at once for want of an instance; it is pending if and only if no call was accepted |
| CompileHistory.EndIsOnRecord | services/backend/convex/compileJobs.ts:580-666 | whatever calls follow, the record holds what the ending call gave: its time and revision, error or report, versions from the report first and from the revision otherwise |
| CompileHistory.EveryEndHasACall | services/backend/convex/compileJobs.ts:149-666 | a job that is over was ended by one call, the last one accepted, and that call is on record |
| CompileHistory.OwnerClaimedLast | services/backend/convex/compileJobs.ts:305-340 | the owner on record is the worker that claimed the job last, for the instance from which it did |
| CompileHistory.ClaimMoves | services/backend/convex/compileJobs.ts:305-313 | a claim moves an open job to its instance and says when, if it was elsewhere; no other call does |
| CompileHistory.StartedByFirstClaim | services/backend/convex/compileJobs.ts:318-325 | the start on record is the time of the first claim |
| CompileHistory.NeverClaimed | services/backend/convex/compileJobs.ts:149-183 | a job that nobody claimed has no owner, start or lease on record |
| CompileHistory.LeaseGrantedLast | services/backend/convex/compileJobs.ts:315-393 | the lease on record is that of the last claim or heartbeat |
| CompileHistory.LeaseEnds | services/backend/convex/compileJobs.ts:107-109 | where a lease ends that is asked for within, below and above the bounds, or for NaN |
| CompileHistory.UnavailableFails | services/backend/convex/compileJobs.ts:160-181 | a job for which there was no instance has failed for good, with the reason and the time of its creation |
| CompileHistory.CreatedIsOffered | services/backend/convex/compileJobs.ts:160-261 | a job made for an instance is offered to it as long as no call was accepted |
| CompileJobs.JobTable.CreateCompileJob | services/backend/convex/compileJobs.ts:149-183 | appends the specified record, pending or failed at once |
| CompileJobs.LeasesStayInBounds | services/backend/convex/compileJobs.ts:315-340 | in every run, at every moment the lease lies in [heartbeat + 1000, heartbeat + 600000], if and only if no lease was granted for NaN |
| CompileJobs.UnexpiredKeepsOwner | services/backend/convex/compileJobs.ts:326-338 | no call at a time when the lease is unexpired changes the owner |
| CompileJobs.TakeoverNeedsExpiry | services/backend/convex/compileJobs.ts:326-338 | when the owner changed over a run, at some call of it the lease of the old owner had expired |
| CompileJobs.OldWorkerLockedOut | services/backend/convex/compileJobs.ts:366-393 | after a takeover the old worker's heartbeats, completions, failures and builds are rejected until it claims again |
| CompileJobs.BuildersExclude | services/backend/convex/compileJobs.ts:129-146 | while one worker may build, no other can claim or build |
| CompileJobs.HeartbeatIgnoresExpiry | services/backend/convex/compileJobs.ts:366-393 | a heartbeat succeeds for the owner of a running job whatever the lease, and leaves a valid lease |
| CompileJobs.HeartbeatRevives | services/backend/convex/compileJobs.ts:366-393 | on an expired lease, another worker could claim the job before the owner's heartbeat, and cannot while the renewed lease runs |
| CompileJobs.NaNLeaseNeverExpires | services/backend/convex/compileJobs.ts:315-340 | under a NaN lease the job stays with its owner, whatever others do and however late |
| CompileJobs.ScanComplete | services/backend/convex/compileJobs.ts:200-225 | a scan below its limit finds every job of its range |
| CompileJobs.OfferedIsClaimable | services/backend/convex/compileJobs.ts:264-347 | an offered job can be claimed at that time by a worker of the instance, and is then running under it, if and only if no other worker holds it by a NaN lease; otherwise the claim answers that it is claimed |
| CompileJobs.ClaimableIsOffered | services/backend/convex/compileJobs.ts:264-347 | a job that a worker who does not own it can claim and run is offered |
| CompileJobs.ListedIsClaimable | services/backend/convex/compileJobs.ts:192-261 | a listed job can be claimed at the same time, and is then running under the claimer, if and only if no other worker holds it by a NaN lease |
| CompileJobs.ListedIffClaimable | services/backend/convex/compileJobs.ts:192-261 | when no scan hits its limit, a job is listed if and only if a worker that does not own it can claim and run it, or finds it held by a NaN lease |
| CompileJobs.NaNLeaseIsOfferedInVain | services/backend/convex/compileJobs.ts:192-347 | a job claimed with NaN is offered at every later time and refused to every other worker |
| CompileJobs.JobTable.ClaimCompileJob | services/backend/convex/compileJobs.ts:264-363 | refines the specified claim; other jobs and, on failure, the job itself are unchanged |
| CompileJobs.JobTable.HeartbeatCompileJob | services/backend/convex/compileJobs.ts:366-393 | refines the specified heartbeat |
| CompileJobs.JobTable.CompleteCompileJob | services/backend/convex/compileJobs.ts:548-594 | refines the specified completion, errors and the versions taken over from the revision included |
| CompileJobs.JobTable.CancelCompileJob | services/backend/convex/compileJobs.ts:597-631 | refines the specified cancellation, errors included |
| CompileJobs.JobTable.FailCompileJob | services/backend/convex/compileJobs.ts:634-666 | refines the specified failure, errors included |
| CompileJobs.JobTable.RunnableCompileJobs | services/backend/convex/compileJobs.ts:192-261 | the loops list exactly the offered jobs among those scanned |
| FileLock.SettledMeans | apps/local-mcp/src/credential-store.ts:153-172 | when a queued promise is resolved, every call on the file up to it is over |
| FileLock.StepKeeps | apps/local-mcp/src/credential-store.ts:153-210 | every step of every call keeps the lock invariant |
| FileLock.NoUpdateLost | apps/local-mcp/src/credential-store.ts:153-210 | in every interleaving: one call per file inside, files are the fold of the performed operations in call order, a map entry exists if and only if a call holds or waits |
| FileLock.AllCallsDone | apps/local-mcp/src/credential-store.ts:153-210 | when all calls returned, the files are those of the operations done one after another, and no map entry is left |
| FileLock.LastCallDecides | apps/local-mcp/src/credential-store.ts:118-210 | in every interleaving the latest call performed on a name decides what is read under it; a value set last is read if and only if its name is not "__proto__" |
| FileLock.FileRemains | apps/local-mcp/src/credential-store.ts:178-209 | setting a secret leaves a file, deleting the last one removes it, and deleting one that is not there changes nothing |
| FileLock.ReadsAllBut | apps/local-mcp/src/credential-store.ts:118-138 | what is read is all that the file holds but the name "__proto__" |
| FileLock.NobodyIsStuck | apps/local-mcp/src/credential-store.ts:161-171 | the oldest call on a file that is not over can always take its next step |
| FileLock.SecretsFiles.EnqueueCall | apps/local-mcp/src/credential-store.ts:153-159 | the synchronous start of a call awaits the entry of its file and replaces it, as the specified step does |
| FileLock.SecretsFiles.ReadFile | apps/local-mcp/src/credential-store.ts:118-138 | copying the entries one by one reads the file without the name "__proto__" |
| FileLock.SecretsFiles.WriteFile | apps/local-mcp/src/credential-store.ts:181-209 | `set` and `delete` on what was read, including the removal of an empty file, write what the specified step writes |
| FileLock.SecretsFiles.LeaveCall | apps/local-mcp/src/credential-store.ts:163-171 | the `finally` block drops the own entry only, as the specified release does |
| FileLock.SecretsFiles.Mutate | apps/local-mcp/src/credential-store.ts:178-210 | a call that nobody disturbs performs its operation on the files and leaves the lock map as it was |
| Approvals.GlobTransitive | packages/sdk/src/approvals.ts:60-67 | patterns that are matched by patterns compose, for actions of one line and outer patterns without "." |
| Approvals.PatternTransitiveIff | packages/sdk/src/approvals.ts:60-67 | for one-line actions, matching through a pattern is transitive if and only if the pattern lacks "*" or "." or is itself not of one line |
| Approvals.ActionTransitiveIff | packages/sdk/src/approvals.ts:60-67 | for patterns without ".", it is transitive to an action if and only if the action is of one line |
| ApprovalMeaning.ActionMatchIff | packages/sdk/src/approvals.ts:60-67 | a lone "*" matches every action, a pattern without "*" itself alone, another one exactly the texts that it spells character by character |
| ApprovalMeaning.LineEnds | packages/sdk/src/approvals.ts:66-66 | which four characters "*" and "." do not stand for |
| ApprovalMeaning.FieldReads | packages/sdk/src/approvals.ts:82-88 | what reading a key gives on an object, an array, and anything else |
| ApprovalMeaning.MismatchIff | packages/sdk/src/approvals.ts:69-92 | data does not match if and only if a path of keys and indices leads to an approval value, neither "*" nor undefined, that the requirement contradicts there: another scalar, another length, or no array or object |
| ApprovalMeaning.ConstantMatchesItself | packages/sdk/src/approvals.ts:69-92 | a value without wildcard, undefined and objects at any depth matches itself alone |
| ApprovalMeaning.DeniedIff | packages/sdk/src/approvals.ts:94-119 | a requirement is denied if and only if every approval has another action or contradicts it somewhere |
| ApprovalMeaning.OtherAmountRefused | packages/sdk/src/approvals.ts:91-91 | an approval of one amount does not cover another |
| Approvals.DataReflexive | packages/sdk/src/approvals.ts:69-92 | every JSON value matches itself |
| Approvals.DataTransitive | packages/sdk/src/approvals.ts:69-92 | data matching is transitive over all JSON values, wildcards and missing fields included |
| Approvals.MatchesItself | packages/sdk/src/approvals.ts:94-112 | an approval read as a requirement matches itself |
| Approvals.MatchingIsTransitive | packages/sdk/src/approvals.ts:94-112 | matching composes for regular patterns and one-line actions |
| Approvals.DropRedundant | packages/sdk/src/approvals.ts:129-132 | dropping an approval matched by another changes no answer |
| Approvals.CloneIsEqual | packages/sdk/src/runtime-context.ts:20-30 | a clone is the same JSON value |
| Approvals.CloneApprovalIsEqual | packages/sdk/src/runtime-context.ts:32-34 | a cloned approval answers as the original |
| Approvals.ExecutionContext.ReplaceApprovals | packages/sdk/src/runtime-context.ts:36-94 | the context holds the given approvals |
| Approvals.ExecutionContext.PushApproval | packages/sdk/src/runtime-context.ts:96-98 | exactly the requirements answered before or matched by the new approval are answered |
| Approvals.ExecutionContext.RequireApproval | packages/sdk/src/approvals.ts:114-119 | throws, with the requirement, if and only if no approval matches it |
| ApprovalStore.StepKeeps | apps/local-mcp/src/approvals.ts:104-222 | every step of creations, approvals and denials keeps the store invariant |
| ApprovalStore.GrantsMatchDecisions | apps/local-mcp/src/approvals.ts:174-222 | in every interleaving a request has one grant record when approved or between the two writes of its approver, none otherwise; one call at most resolves it, as its status says |
| ApprovalStore.QuietStateIsExact | apps/local-mcp/src/approvals.ts:174-222 | with no call inside, approvals.json has a record for exactly the approved requests |
| ApprovalStore.RequestsAsMade | apps/local-mcp/src/approvals.ts:130-144 | at every moment of every run a request holds the approval, reason and time with which it was made, and the requests are those of the start and those made since |
| ApprovalStore.PendingUntilDecided | apps/local-mcp/src/approvals.ts:174-222 | a request made since the start is pending if and only if no call has resolved it, and otherwise as that call says |
| ApprovalStore.ApprovedIsGranted | apps/local-mcp/src/approvals.ts:166-172 | the granted approvals satisfy the requirement with which an approved request was made |
| ApprovalStore.GrantedWasApproved | apps/local-mcp/src/approvals.ts:166-172 | a requirement that the granted approvals satisfy matches one with which a request was made that was approved or is being approved |
| ApprovalStore.NobodyIsStuck | apps/local-mcp/src/approvals.ts:104-118 | the oldest call that is not over can always take its next step |
| ApprovalStore.LocalApprovalStore.CreateApprovalRequest | apps/local-mcp/src/approvals.ts:130-144 | adds the pending request, outside the queue |
| ApprovalStore.LocalApprovalStore.ReadRequestFile | apps/local-mcp/src/approvals.ts:176-181 | a missing or resolved request ends the call with the error, otherwise the call goes on with the request it read |
| ApprovalStore.LocalApprovalStore.WriteGrantsFile | apps/local-mcp/src/approvals.ts:191-198 | the record is appended to the list as read |
| ApprovalStore.LocalApprovalStore.WriteRequestFile | apps/local-mcp/src/approvals.ts:199-219 | the request is rewritten with its verdict |
| ApprovalStore.LocalApprovalStore.ApproveApprovalRequest | apps/local-mcp/src/approvals.ts:174-203 | undisturbed, it fails without effect, saying which, if and only if the request is missing or resolved; otherwise it resolves that request only and adds its one record |
| ApprovalStore.LocalApprovalStore.DenyApprovalRequest | apps/local-mcp/src/approvals.ts:204-222 | the same without a record |
| TextEdits.SpliceAllAssembles | packages/compiler/src/compiler.ts:430-440 | splicing a chain of edits from right to left assembles it from left to right |
| TextEdits.EditsCompose | packages/compiler/src/compiler.ts:430-440 | for disjoint edits the result is the gaps as they were with the replacements in between |
| TextEdits.EditOrderIrrelevant | packages/compiler/src/compiler.ts:430-440 | for disjoint edits the order of the list is of no concern |
| TextEdits.UntouchedSurvives | packages/compiler/src/compiler.ts:430-440 | a character no edit covers is in the result, moved by the edits before it |
| TextEdits.OffsetsFromTheEnd | packages/compiler/src/compiler.ts:437-437 | an offset below zero counts from the end of the text as it is then, and one too far out means its border |
| TextEdits.EqualStarts | packages/compiler/src/compiler.ts:434-438 | of two edits in range that start at one place, the one listed last is spliced into what the other has left there |
| TextEdits.TwoEditsIff | packages/compiler/src/compiler.ts:430-440 | two disjoint edits give the same text in both orders if and only if they start at different places or commute |
| TextEdits.InsertionOrderMatters | packages/compiler/src/compiler.ts:434-434 | of two insertions at one place the one listed last comes first, and the order is of no concern if and only if the texts commute |
| TextEdits.InsertionLost | packages/compiler/src/compiler.ts:430-440 | an insertion listed before the replacement at its place is lost when it is no longer than what is replaced, and as much of the replaced text stays |
| TextEdits.LostInsertion | packages/compiler/src/compiler.ts:430-440 | such a pair on "abcdef" |
| TextEdits.ReplacementsMayCommute | packages/compiler/src/compiler.ts:430-440 | an insertion and a replacement of a nonempty range at its place may commute |
| TextEdits.ApplyTextEdits | packages/compiler/src/compiler.ts:430-440 | the loop splices in the sorted order, for any edits, and assembles disjoint ones |
| AutoDeployer.NextKeeps | packages/convex-local-dev/src/deploy.ts:38-80 | every event keeps the deployer's invariant |
| AutoDeployer.EveryRun | packages/convex-local-dev/src/deploy.ts:38-80 | in every run no change is lost, no timer is armed while a deploy runs, and n deploys take at least (n - 1) * 3000 ms |
| AutoDeployer.EveryPromptRunDeploys | packages/convex-local-dev/src/deploy.ts:38-70 | a change no deploy has seen while none runs: every run without `stop` in which timers fire when due starts a deploy at the due time, at most 3000 ms ahead, which has seen it |
| AutoDeployer.IdleDeploysEarliest | packages/convex-local-dev/src/deploy.ts:38-48 | a change that finds the deployer idle is deployed at once, or 3000 ms after the start of the last deploy when that is later |
| AutoDeployer.EveryPromptRunFollowsUp | packages/convex-local-dev/src/deploy.ts:38-70 | one made while a deploy runs: every such run starts the next deploy at the earliest time after the end of that one, which has seen it |
| AutoDeployer.NoChangeNoDeploy | packages/convex-local-dev/src/deploy.ts:38-70 | without a change no deploy starts |
| AutoDeployer.StopLeavesIdle | packages/convex-local-dev/src/deploy.ts:72-80 | `stop` leaves nothing running, armed or pending |
| AutoDeployer.ChangeGetsDeployed | packages/convex-local-dev/src/deploy.ts:38-70 | such a run exists: the running deploy ends, the timer becomes due and fires |
| AutoDeployer.StopIsFinal | packages/convex-local-dev/src/deploy.ts:72-80 | no deploy starts after `stop` |
| AutoDeployer.AutoDeployer.ScheduleDeploy | packages/convex-local-dev/src/deploy.ts:38-48 | refines the specified scheduling |
| AutoDeployer.AutoDeployer.Deploy | packages/convex-local-dev/src/deploy.ts:50-70 | refines begin, changes meanwhile, and finish |
| AutoDeployer.AutoDeployer.StopDeployer | packages/convex-local-dev/src/deploy.ts:72-80 | refines the specified stop |
| Paths.StrictIff | apps/local-mcp/src/path-safety.ts:45-61 | the rejecting fold succeeds if and only if no prefix pops an empty stack, and then returns what the clamping one does |
| Paths.SegmentsOneMore | packages/session-fs/src/convex-fs.ts:143-164 | one more part at the end of a path adds a name, takes the last one off for "..", and does nothing for "" and "." |
| Paths.SegmentsOfOne | packages/session-fs/src/convex-fs.ts:143-164 | a path without slash is one name, or none for "", "." and ".." |
| Paths.NormalFormReadsBack | packages/session-fs/src/convex-fs.ts:143-164 | printing a list of proper names and normalizing gives the list back |
| Paths.NormalizingIsIdempotent | packages/session-fs/src/convex-fs.ts:143-164 | normalizing twice is normalizing once, with and without leading slash |
| Paths.ResolvingAgainstNormalForm | packages/session-fs/src/convex-fs.ts:762-768 | resolving against a base is resolving against its normal form |
| PathNormalizers.NormalizePath | packages/session-fs/src/convex-fs.ts:143-164 | the filter and the loop yield the normal form of every path |
| PathNormalizers.NormalizeVirtualFsPath | packages/runtime-core/src/index.ts:132-151 | the same normal form |
| PathNormalizers.NormalizeCompilerPath | packages/compiler/src/compiler.ts:528-550 | the same names without leading slash, backslashes read as slashes |
| PathNormalizers.NormalizePathSync | apps/local-mcp/src/local-session-fs.ts:40-81 | rejects exactly NUL and paths that leave the root, otherwise the normal form of the trimmed path |
| PathNormalizers.NormalizeVirtualPath | apps/local-mcp/src/path-safety.ts:26-62 | which paths are rejected, and the names of the others after the sandbox prefix |
| PathNormalizers.TrimmedCharacters | apps/local-mcp/src/path-safety.ts:31-48 | which characters are trimmed |
| PathNormalizers.BackslashSeparates | apps/local-mcp/src/path-safety.ts:31-31 | a backslash separates as a slash does |
| PathNormalizers.OneSemantics | apps/local-mcp/src/path-safety.ts:26-62 | a path without backslash, NUL, white space at the ends of its parts and sandbox prefix means the same names to all five normalizers, and the rejecting ones reject it if and only if some prefix leaves the root |
| PathNormalizers.ResolveTrimmed | apps/local-mcp/src/path-safety.ts:45-48 | when trimming leaves every part what it is, folding the trimmed parts is trimming the names of the fold |
| PathNormalizers.CallsAgreeIff | apps/local-mcp/src/local-session-fs.ts:31-81 | on every path synchronous and asynchronous calls agree if and only if the synchronous one rejects it, or it has no sandbox prefix, trimming leaves each part a name, a step up or nothing as it was, and no name that is left has white space at its ends |
| PathNormalizers.WhiteSpaceShows | apps/local-mcp/src/path-safety.ts:45-48 | they read "a/ b" differently, which has no sandbox prefix |
| PathNormalizers.DirnameIsParent | packages/session-fs/src/convex-fs.ts:166-171 | the string before the last slash is the list without its last name |
| WorkingStateHash.TurnReduces | services/backend/convex/workingStateHash.ts:23-27 | one turn on the reduced value is one turn of the polynomial, modulo 2^32 |
| WorkingStateHash.EveryTurnExact | services/backend/convex/workingStateHash.ts:23-27 | in every turn of the loop, on every text, the numbers stay below 2^53 |
| WorkingStateHash.RollingHash | services/backend/convex/workingStateHash.ts:22-27 | the loop computes the base-31 polynomial reduced to a signed 32-bit integer |
| WorkingStateHash.ComputeWorkingStateHash | services/backend/convex/workingStateHash.ts:13-29 | the digits read back as the absolute value, which is at most 2^31 |
| WorkingStateOrder.PrintOrderIrrelevantIff | services/backend/convex/workingStateHash.ts:13-20 | under every total preorder of paths the hashed text is the same for every order of the list if and only if changes that the comparison cannot tell apart print alike in both orders |
| WorkingStateOrder.ListingOrderIrrelevant | services/backend/convex/workingStateHash.ts:13-20 | such changes hash alike in any order |
| WorkingStateOrder.DistinctPathsNeverCommute | services/backend/convex/workingStateHash.ts:15-20 | changes to two paths without separators never print alike in both orders |
| WorkingStateOrder.TableOrderIrrelevantIff | services/backend/convex/fs/working.ts:23-57 | with one record per path and no separators in paths, the order of the records is of no concern if and only if the comparison tells all paths apart |
| WorkingStateOrder.UntoldPathsMatter | services/backend/convex/workingStateHash.ts:14-14 | two paths that it takes for equal print differently in the two orders |
| WorkingStateOrder.DeletionNeverCommutes | services/backend/convex/workingStateHash.ts:15-19 | at every path, a deletion and an empty file print differently in the two orders |
| WorkingStateOrder.SamePathOrderMatters | services/backend/convex/workingStateHash.ts:13-29 | at the path "a" the two orders also hash differently |
| WorkingStateText.SamePayloadIff | services/backend/convex/workingStateHash.ts:16-18 | two changes to one path print alike if and only if the same is hashed for them |
| WorkingStateText.PrintedOf | services/backend/convex/workingStateHash.ts:15-18 | behind path and colon stands "D" for a deletion, otherwise the first of content, blob id and download URL that there is |
| WorkingStateText.DeletionLooksLikeContent | services/backend/convex/workingStateHash.ts:17-17 | a deletion and the content "D" have the same hash |
| WorkingStateText.Canonize | services/backend/convex/workingStateHash.ts:15-20 | every state with plain paths prints like a canonical one, whose payloads do not look like several changes |
| WorkingStateText.CanonicalInjective | services/backend/convex/workingStateHash.ts:15-20 | canonical lists are determined by their text |
| WorkingStateText.CanonicalIff | services/backend/convex/workingStateHash.ts:15-20 | a list with plain paths is the one canonical list with its text if and only if it is canonical |
| WorkingStateText.SingletonCollides | services/backend/convex/workingStateHash.ts:15-20 | another state with plain paths prints like one change if and only if its payload holds a bar, a plain path and a colon |
| WorkingStateText.ColonCollides | services/backend/convex/workingStateHash.ts:15-20 | another state prints like one change if and only if its path or payload holds a colon |
| WorkingStateText.StatesToldApart | services/backend/convex/workingStateHash.ts:13-20 | two whole states, canonical and with paths told apart, have one text if and only if they hold the same payloads at the same paths |
| WorkingStateText.TwoHashLikeOne | services/backend/convex/workingStateHash.ts:13-29 | any two changes in the order of their paths hash like one edit of the first path |
| WorkingStateText.SeparatorsCollide | services/backend/convex/workingStateHash.ts:13-29 | an input: a content of "a" that holds a bar, "b:" and "y" hashes like the contents "x" of "a" and "y" of "b" |
| Sorting.SortForgetsOrder | services/backend/convex/workingStateHash.ts:14-14 | a stable sort forgets the input order when the comparison tells the elements apart |
| Sorting.SortForgetsOrderIff | services/backend/convex/content.ts:37-38 | under every total preorder it does so if and only if the comparison tells the elements apart |

## Left out

- SessionFs.ConvexSessionFs.Cp: for directories it is stated for disjoint source and destination where no copied file would get a live file as ancestor; a directory copied into itself or over one of its own ancestors, and clashes of files with directories inside the copy, are not modelled.
- SessionFs.ConvexSessionFs.Mv: the same for directories; for a file the destination is one at which a write is safe. Where the listings of an untidy source do not lead to a live file, it stays behind, as the code leaves it.
- SessionTidy.RunsAreExact: the flat-map statement is for runs of reads, lookups, guarded writes and removals; appends and directory creations do not keep tidiness, and `SessionRuns.EveryRunIsFaithful` covers them.
- SessionFs.ConvexSessionFs.List: the sorting of names is not modelled; results hold for any order.
- SessionFs.ConvexSessionFs.Append: text is bytes with one uninterpreted decode-encode trip; other string encodings are not modelled.
- The in-memory filesystem behind the client is a library; it is taken as a map from paths to files and directories in which writing creates missing parents and `mkdir` refuses existing paths.
- One client per session, and remote calls succeed; symbolic links, chmod, utimes, link and realpath are not part of this model.
- ContentStore.TreeCreated: SHA-256 is taken as collision-free, ids as positions in the tables, one workspace, and calls as serial; `localeCompare` is any total preorder.
- ContentStore.BlobCreated: storing an uploaded object under a hash that the caller supplies is not modelled.
- ContentBuild.BuildRefinesFlat: paths are already split into names, and a change that has both text and blob has them agree; download URLs stand for the content of a blob. The flag compared is that of the change; the one that compile.ts reads off the file extension is not modelled.
- ContentArena.WorkingTree.SetFileAt: directory objects are cells of one table allocated parents first, which no operation can observe.
- Contextify.Sandbox.ContextifyValue: functions, promises, accessors and symbol keys are not modelled; arrays are dense.
- Serializable.Checker.AssertSerializable: error texts and paths in messages are not modelled; accessors are not either.
- CompileJobs.LeasesStayInBounds: numbers are reals, infinities and NaN, without rounding; the routing of jobs to instances is any function of the job.
- FileLock.NoUpdateLost: a write is one step (temporary file and rename); different processes are not modelled. A file holds string values only, and reading a name that objects inherit, as "toString", is not modelled.
- Approvals.PatternTransitiveIff: of the regular-expression characters only "*" and "." are modelled; other ones in patterns with "*" are taken literally.
- Approvals.DataTransitive: a key "__proto__" is an ordinary key, and values are JSON data.
- Approvals.CloneIsEqual: that a clone shares no object with its original is not expressible on values.
- ApprovalStore.GrantsMatchDecisions: crash-free runs; JSON parsing, the format of request ids and the sorting of requests are not modelled.
- TextEdits.EditsCompose: the parser that produces the edits is not part of this model.
- AutoDeployer.EveryRun: the clock is monotone and a timer does not fire before it is due.
- AutoDeployer.AutoDeployer.Deploy: the deploy itself is two times and whether changes came in between.
- PathNormalizers.NormalizePathSync: the check for symbolic links is not modelled.
- WorkingStateOrder.ListingOrderIrrelevant: path comparison is any total preorder.
- WorkingStateText.StatesToldApart: about the hashed text; different texts may still share one of the at most 2^31 + 1 hashes.
- Network, storage, authentication, HTTP routes, MCP tools, CLI, UI and the TypeScript compiler are not part of this model, nor are argument parsers and formatters.
