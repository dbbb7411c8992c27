# Verified model of the Coyote CI core

A Dafny model of the parts of the Coyote CI backend whose correctness is not visible in
one function body: the cache archive store, the live log protocol, the build watch, artifact
selection and browsing, the delivery queues, cache publication and cache keys. Loops and
updated objects are methods and classes, proved against specification functions; the
properties of those functions are lemmas over all inputs, all runs or all reachable states.

| file | content |
|---|---|
| `Text.dfy`, `Sorting.dfy` | trimming, splitting, string order; stable sort, uniqueness of sorted permutations |
| `Paths.dfy` | `Clean`, `Join` and `Rel` as a stack machine over segments; the two containment checks |
| `Archive.dfy` | the tree writer and the tree reader of the cache, and their round trip |
| `CacheStore.dfy` | the archive store, eviction, and runs of the store against a map of last saved contents |
| `EventStream.dfy`, `EventFrames.dfy` | the client's reader of event streams; the server's frames; cuts at any byte |
| `LogWatch.dfy` | the log protocol of one step: log, endpoint, network, client cursor |
| `BuildWatch.dfy` | the poll loop of `build watch` |
| `Glob.dfy`, `Collector.dfy` | path patterns; the selection of artifact files |
| `Grouping.dfy` | artifact records grouped for browsing |
| `Attempts.dfy`, `Notifications.dfy`, `CommitStatuses.dfy` | retried deliveries: validity, claims, runs |
| `Publish.dfy`, `Keys.dfy` | publishing cache components under claims; fingerprints and cache keys |
| `Authorization.dfy`, `Storage.dfy` | the project filter against the single check; storage keys and download plans |

Where the program does not have a property one would expect, the model keeps the program's
behaviour, gives an input on which the property fails, and states when it holds:

- a name with a backslash does not survive the archive round trip (`Archive.RoundTripExactly`);
- the last check of `safeExtractPath` is not redundant: it alone rejects an absolute name under
  an empty root (`Paths.SafeExtractContained`);
- the entry just saved is evicted again when it alone exceeds the budget; the archives used since
  some time all survive exactly when together they fit (`CacheStore.RecentSurvive`);
- a step is not reported as started at most once, or as started and then finished, over arbitrary
  polls: exactly which polls prevent it is `BuildWatch.ReportedOnceExactly`, and a step missing from
  one poll is an example (`BuildWatch.VanishingStepStartsTwice`);
- a pattern that matches files is still reported as matching none, exactly when earlier patterns
  take them all (`Collector.WarnedExactly`);
- a group need not be named after its first version (`Grouping.NamedByFirstVersion`), and the order
  of the groups depends on the order of the records exactly when keys do not fix paths
  (`Grouping.OrderFreeExactly`), which the program's keys do not (`Grouping.ColonsCollide`);
- a claim that would expire at the zero time leaves an invalid delivery (`Notifications.ClaimKeepsValid`);
- a commit status delivery can be invalid although its normal form is valid (`CommitStatuses.ValidNormalForm`);
- the claims on a commit status can overlap, and a build and state can be granted more claims than
  the limit: each replacement of the state starts a new budget. The claims of a run are apart
  exactly when no acceptable request replaces a delivery that is being sent under a claim not yet
  expired (`CommitStatuses.ClaimsApartExactly`, `CommitStatuses.ReplacementsOverlap`);
- a save run can claim without a key, exactly when some component that saves has none
  (`Publish.KeyedExactly`), as with the single-key file of an older helper (`Publish.LegacyFileKeyedExactly`);
- a fingerprint can be the same for different contents of the same files, exactly when a path
  occurs as a line where a neighbouring file could end or begin (`Keys.FingerprintTellsApartExactly`);
- the project filter agrees with the single check except for an administrator without a user
  identifier (`Authorization.FilterAgreesExactly`);
- the resolver of object names is not idempotent on keys that end in white space once cleaned
  (`Storage.ObjectNameIdempotent`), nor for most prefixes that are not cleaned
  (`Storage.TrimmedNameIdempotent`, `Storage.NamedTwiceExactly`).

Conventions: times are integers, with zero for the zero time where the program treats it as absent.
Hashes, the JSON codec, single-segment pattern matching and reads of files are function parameters,
with the assumptions stated in the `requires` clauses that use them (`GoodCodec`, `GoodConfig`,
`Separating`, `Functional`). In `BuildWatch` and the delivery modules a text field is its trimmed
content together with what surrounded it; `Attempts.FieldsTrim`, `Attempts.LabelsTrim`,
`Attempts.LabelsAreTexts` and `CommitStatuses.FieldsLower` relate this to strings, and each
vocabulary is read from its texts without loss (`Attempts.DeliveryWordsFaithful`,
`Notifications.DestinationWordsFaithful`, `CommitStatuses.StateWordsFaithful`).

## Model

| member | source | states |
|---|---|---|
| Paths.CleanIdempotent | backend/internal/cache/filesystem_store.go:321-321 | cleaning a path twice is cleaning it once, and the cleaned text denotes the same path |
| Paths.JoinBelow | backend/internal/cache/fingerprint.go:76-76 | joining a cleaned path that does not climb appends its segments to those of the root |
| Paths.RelBelow | backend/internal/cache/fingerprint.go:77-78 | the relative way from a root to something below it is the path below it |
| Paths.SecureJoinContained | backend/internal/cache/fingerprint.go:68-86 | accepted are exactly the relative names that do not climb; the result is the root's segments followed by the name's; the second check rejects nothing |
| Paths.SafeExtractContained | backend/internal/cache/filesystem_store.go:456-473 | accepted are exactly the names that do not climb, except absolute names under an empty root; the result lies at or below the root; the second check rejects exactly that exception |
| Paths.AbsoluteNameUnderEmptyRoot | backend/internal/cache/filesystem_store.go:464-468 | a concrete name only the second check rejects |
| Archive.WriteTarGz | backend/internal/cache/filesystem_store.go:339-400 | the walk writes the entries of the tree in order, without the root, and fails exactly on trees with links or special files |
| Archive.Disk.ExtractTarGz | backend/internal/cache/filesystem_store.go:402-454 | the read loop changes the disk as replaying the entries one by one does, up to the first failure |
| Archive.Disk.MkdirAll | backend/internal/cache/filesystem_store.go:432-438 | the recursion computes `MakeDirs`, which `Archive.MakeDirsExactly` describes |
| Archive.MakeDirsExactly | backend/internal/cache/filesystem_store.go:432-438 | making a directory succeeds exactly when no file is at the path or above it; then those paths are directories and nothing else changed, otherwise nothing changed at all |
| Archive.LaidMeaning | backend/internal/cache/filesystem_store.go:339-400 | the files a tree lays out at a place are exactly what looking up relative paths in the tree finds |
| Archive.ExtractOverlays | backend/internal/cache/filesystem_store.go:402-454 | extracting a written tree over a destination without clashes gives the old files overridden by the tree |
| Archive.ExtractConfined | backend/internal/cache/filesystem_store.go:402-473 | whatever an archive holds, extraction touches nothing outside the destination |
| Archive.RoundTripExactly | backend/internal/cache/filesystem_store.go:339-473 | into an empty destination, writing and extracting gives back exactly the tree, empty directories included, if and only if no name holds a backslash |
| Archive.BackslashDoesNotSurvive | backend/internal/cache/filesystem_store.go:457-457 | a concrete tree that is not given back |
| CacheStore.ResolveExactly | backend/internal/cache/filesystem_store.go:309-337 | which keys are accepted, and that the archive path is the digest of the cleaned key below the root |
| CacheStore.SameArchive | backend/internal/cache/filesystem_store.go:309-337 | two accepted keys share an archive if and only if their cleaned forms are equal |
| CacheStore.StoreLayoutGood | backend/internal/cache/filesystem_store.go:309-337 | the store's key resolution meets the assumptions of the run theorems |
| CacheStore.FilesystemStore.CollectEntries | backend/internal/cache/filesystem_store.go:272-307 | lists every archive once with its size and use time, in any order |
| CacheStore.FilesystemStore.TotalSizeBytes | backend/internal/cache/filesystem_store.go:220-230 | the total of any listing of the archives |
| CacheStore.FilesystemStore.EvictIfNeeded | backend/internal/cache/filesystem_store.go:238-270 | removes the shortest prefix of a use order that brings the total within the budget, and nothing else; or stops short of it at a file that cannot be removed |
| CacheStore.FilesystemStore.RemoveOldest | backend/internal/cache/filesystem_store.go:259-267 | the removal loop stops at the shortest prefix that fits, or before at a file that cannot be removed |
| CacheStore.EvictionFits | backend/internal/cache/filesystem_store.go:238-270 | after eviction the archives total at most the budget |
| CacheStore.EvictionOldestFirst | backend/internal/cache/filesystem_store.go:255-267 | every removed archive was used no later than every kept one |
| CacheStore.EvictionIdle | backend/internal/cache/filesystem_store.go:251-253 | nothing is removed if and only if the archives fit already |
| CacheStore.RecentSurvive | backend/internal/cache/filesystem_store.go:255-267 | the archives used at any given time or later, ties included, all survive if and only if together they fit the budget |
| CacheStore.NewestSurvives | backend/internal/cache/filesystem_store.go:255-267 | so a single most recently used archive survives if and only if it fits the budget alone |
| CacheStore.FilesystemStore.Save | backend/internal/cache/filesystem_store.go:101-148 | when it is carried out, and that it is then a save step with the entries of the tree, reported as an error when the eviction fails; a refusal changes nothing |
| CacheStore.FilesystemStore.SaveArchive | backend/internal/cache/filesystem_store.go:150-185 | when it is carried out, and that it is then a save step with the given archive, reported as an error when the eviction fails; a refusal changes nothing |
| CacheStore.FilesystemStore.PromoteArchive | backend/internal/cache/filesystem_store.go:187-205 | a move step that keeps the use time, followed by eviction; it is carried out exactly when both keys are valid and the source exists |
| CacheStore.FilesystemStore.DeleteArchive | backend/internal/cache/filesystem_store.go:207-218 | a removal step; deleting a missing archive succeeds |
| CacheStore.FilesystemStore.Restore | backend/internal/cache/filesystem_store.go:47-77 | a miss leaves everything alone; a hit extracts the stored entries below the destination and counts as a use |
| CacheStore.ChangeHolds | backend/internal/cache/filesystem_store.go:101-218 | a change of the files, with the eviction after it, keeps each archive equal to what the history says is under its key |
| CacheStore.StepCoherent | backend/internal/cache/filesystem_store.go:47-218 | every operation keeps every archive equal to the expected content of its key |
| CacheStore.RunCoherent | backend/internal/cache/filesystem_store.go:47-218 | over every run, failed evictions included, a key holds nothing or exactly the content last saved or moved there and not deleted or moved since |
| CacheStore.RunComplete | backend/internal/cache/filesystem_store.go:47-218 | over every run in which the archives fit the budget before every eviction, a key holds an archive iff the history says something is under it |
| CacheStore.RunFits | backend/internal/cache/filesystem_store.go:143-145 | after every successful save or promotion of every run the archives fit the budget |
| CacheStore.RestoredTree | backend/internal/cache/filesystem_store.go:47-148 | a hit after any run gives back the tree last saved under the key, if and only if it holds no backslash, into a destination that is an empty directory or does not exist yet |
| EventStream.StreamBuildStepLogs | backend/internal/apiclient/client.go:311-383 | the line loop computes the reading of the whole body, ended or broken off |
| EventStream.ReadBodyMeaning | backend/internal/apiclient/client.go:311-383 | the line machine equals a reading that cuts the stream at blank lines and interprets each block on its own |
| EventFrames.StreamRoundTrip | backend/internal/http/handler/response_helpers.go:26-43 | every list of chunks written as frames is read back whole and in order |
| EventFrames.PrefixRead | backend/internal/http/handler/build_handler_logs.go:115-188 | any number of whole lines delivers the first chunks sent and nothing else |
| EventFrames.CutDelivers | backend/internal/apiclient/client.go:311-383 | a stream cut after any number of bytes delivers exactly the chunks whose data lines are complete and ends normally or with a payload error |
| EventFrames.ClosingRead | backend/internal/http/handler/build_handler_logs.go:115-188 | however much is read of a timeout or error frame, no chunk comes out of it |
| LogWatch.PollFollows | backend/internal/http/handler/build_handler_logs.go:115-188 | what the endpoint lists above its cursor continues the log exactly where the sent chunks end |
| LogWatch.NextInv | backend/internal/cli/build_watch.go:118-171 | every step of worker, endpoint, network and client keeps the invariant on cursor, printed chunks and pending response, and printed chunks stay printed |
| LogWatch.RunPrintsPrefix | backend/internal/cli/build_watch.go:118-171 | in every state of every interleaving the chunks printed are a prefix of the stored log, in increasing order without gap or repetition |
| BuildWatch.WatchBuild | backend/internal/cli/build_watch.go:173-257 | the loop prints the differences of the polls up to the first terminal one and starts exactly one stream for each step seen running |
| BuildWatch.PollOnce | backend/internal/cli/build_watch.go:193-228 | one round of the loop prints the difference to the previous poll and yields the table for the next |
| BuildWatch.StartStreams | backend/internal/cli/build_watch.go:118-129 | a stream is started for each running step that has none yet |
| BuildWatch.PrintedMarks | backend/internal/cli/build_watch.go:210-228 | the events about one step depend only on what the polls saw of that step |
| BuildWatch.PerStepExact | backend/internal/cli/build_watch.go:210-228 | along the lifecycle a step gets a started mark iff some poll saw it running and a finished mark iff some poll saw it unfinished and a later one finished, each at most once, in that order |
| BuildWatch.ReachesLater | backend/internal/domain/lifecycle.go:40-54 | any number of lifecycle moves only moves a step forward |
| BuildWatch.StepReported | backend/internal/cli/build_watch.go:173-257 | the same for the printed events of every run of polls with distinct, stable step indices |
| BuildWatch.ReportedOnceExactly | backend/internal/cli/build_watch.go:173-257 | over any polls with distinct step indices: at most one started event iff the step was never found running again after being found otherwise; at most one finished event iff it did not twice go from listed with another status to finished; at most started then finished iff moreover it did not run after finishing |
| BuildWatch.MarksInOrderExactly | backend/internal/cli/build_watch.go:210-228 | the same of what the polls saw of one step |
| BuildWatch.VanishingStepStartsTwice | backend/internal/cli/build_watch.go:211-214 | three polls, of which the second does not list a running step: it is reported as started twice |
| BuildWatch.BuildStatusesReported | backend/internal/cli/build_watch.go:199-208 | the build-status events are the polled statuses with consecutive repeats removed |
| BuildWatch.TerminalReported | backend/internal/cli/build_watch.go:234-248 | the terminal event is printed exactly when the last poll is terminal, once, last, with code zero exactly on success |
| Glob.MatchSegments | backend/internal/artifact/collector.go:357-384 | the backtracking search decides the matching predicate |
| Glob.MatchMeaning | backend/internal/artifact/collector.go:357-384 | a pattern matches iff the path can be cut into one part per pattern segment, any run for `**` and one matching segment otherwise |
| Glob.ConcatLaw | backend/internal/artifact/collector.go:357-384 | a concatenated pattern matches iff some cut of the path matches its halves |
| Glob.RunsCollapse | backend/internal/artifact/collector.go:357-384 | repeated `**` anywhere in a pattern are one `**` |
| Collector.NormalizePatterns | backend/internal/artifact/collector.go:317-340 | succeeds iff every non-blank pattern is valid, and returns the normalised list |
| Collector.ValidPathMeaning | backend/internal/workspace/workspace.go:144-164 | valid are exactly the paths without a drive that lead strictly below the workspace |
| Collector.NormalizedMeaning | backend/internal/artifact/collector.go:317-340 | the normalised patterns are distinct and are exactly the non-blank trimmed ones |
| Collector.Select | backend/internal/artifact/collector.go:111-176 | the matched files, the sorted duplicate-free selection without the skipped ones, matched = selected + skipped, the counts and the warnings |
| Collector.Collect | backend/internal/artifact/collector.go:78-176 | the selected paths are exactly the files some normalised pattern matches, minus the skip set, sorted and duplicate free; the credits sum to the matched files, which are the selected and the skipped; warned about are exactly the patterns that are no file's first match |
| Collector.FirstMatchMeaning | backend/internal/artifact/collector.go:131-146 | a file is matched iff some pattern matches it, and is credited to the first that does |
| Collector.CreditsConserved | backend/internal/artifact/collector.go:131-146 | the credits of all patterns sum to the number of matched files |
| Collector.WarningMeaning | backend/internal/artifact/collector.go:155-165 | a pattern is warned about iff it is no file's first match |
| Collector.WarnedExactly | backend/internal/artifact/collector.go:131-165 | a pattern is warned about iff every file it matches is matched by some earlier pattern |
| Collector.ShadowedPatternWarned | backend/internal/artifact/collector.go:131-146 | a pattern whose only file belongs to an earlier pattern is warned about |
| Grouping.GroupArtifacts | backend/internal/domain/artifact_browse.go:85-139 | the loop over map, order list and sorts computes the sorted finished groups |
| Grouping.GroupMeaning | backend/internal/domain/artifact_browse.go:85-125 | a group's versions are the records of its key as a multiset, sorted; its latest time is the greatest and that of its first version |
| Grouping.GroupedOrder | backend/internal/domain/artifact_browse.go:127-137 | groups are sorted by latest time, path and key, and no key occurs twice |
| Grouping.VersionsConserved | backend/internal/domain/artifact_browse.go:85-139 | all versions together are the input records as a multiset |
| Grouping.NamedByFirstVersion | backend/internal/domain/artifact_browse.go:106-111 | a group takes name and type from its first listed newest record; that record is the first version iff no record of that time has a greater build number |
| Grouping.NameOnTie | backend/internal/domain/artifact_browse.go:106-111 | two records of equal time for which the name is not the first version's |
| Grouping.KeyForInjective | backend/internal/domain/artifact_browse.go:74-79 | owners without a colon and their paths can be read back from the key |
| Grouping.OrderFreeExactly | backend/internal/domain/artifact_browse.go:85-139 | the list of keys, paths and latest times is the same for every order of the records iff keys fix paths |
| Grouping.ColonsCollide | backend/internal/domain/artifact_browse.go:74-79 | for any job `j` and path `p`: the artifact `::p` of `j` and the artifact `p` of `j::` share a key, and the two orders of listing them differ |
| Grouping.OrderFreeIdentity | backend/internal/domain/artifact_browse.go:74-139 | for owners without a colon it is |
| Attempts.AttemptWindow | backend/internal/domain/notification_delivery.go:249-273 | the guard is upward closed in time, and under the rules that valid deliveries of both kinds keep it opens at some time iff the delivery is neither terminal nor out of attempts |
| Attempts.ClaimGuard | backend/internal/repository/notification_delivery_repository.go:85-117 | the tabulated outcome is a claim exactly when the guard allows an attempt |
| Attempts.FieldsTrim | backend/internal/domain/notification_delivery.go:78-107 | fields as content and flag behave as trimmed strings do |
| Attempts.LabelsAreTexts | backend/internal/domain/notification_delivery.go:78-107 | a label is a word exactly when the text is that word's own |
| Attempts.DeliveryWordsFaithful | backend/internal/domain/notification_delivery.go:16-32 | every status and failure category text can be recovered from the word it is read as |
| Attempts.ExclusivePairs | backend/internal/repository/memory/notification_delivery_repository.go:374-414 | while the times of claims do not run backwards, no two claims of an account overlap, however far apart they are |
| Notifications.ValidNormalForm | backend/internal/domain/notification_delivery.go:78-135 | a delivery is valid iff its normal form is |
| Notifications.NormalizeIdempotent | backend/internal/domain/notification_delivery.go:78-107 | normalising twice is normalising once |
| Notifications.DestinationWordsFaithful | backend/internal/domain/notification_delivery.go:34-48 | every transport and destination kind text can be recovered from the word it is read as |
| Notifications.ClaimDecisionGuarded | backend/internal/repository/memory/notification_delivery_repository.go:374-414 | for valid deliveries the claim code decides as tabulated, and claims exactly when the guard allows |
| Notifications.ClaimKeepsValid | backend/internal/repository/memory/notification_delivery_repository.go:374-414 | a claim keeps validity iff it does not expire at the zero time |
| Notifications.NextInv | backend/internal/repository/memory/notification_delivery_repository.go:75-132 | every claim and update keeps the record valid and in step with the claims granted |
| Notifications.ClaimBudget | backend/internal/repository/memory/notification_delivery_repository.go:75-132 | over every run without a record at its start: a valid record, at most as many claims as attempts are allowed, each granted only after the one before was ended or expired |
| Notifications.RemainingBudget | backend/internal/repository/memory/notification_delivery_repository.go:374-414 | over every run from any valid record: further claims at most the attempts left, none overlapping the one before, the record's own claim included |
| Notifications.StepSafety | backend/internal/repository/memory/notification_delivery_repository.go:202-232 | no step changes the limit or a terminal record, and an update is accepted only from the holder of the last claim |
| Notifications.NothingAfterTerminal | backend/internal/domain/notification_delivery.go:249-260 | however a run goes on after a terminal state, nothing changes and nothing is claimed |
| CommitStatuses.NormalizeIdempotent | backend/internal/domain/scm_status_delivery.go:72-118 | normalising twice is normalising once |
| CommitStatuses.StateWordsFaithful | backend/internal/domain/scm_status_delivery.go:9-16 | every state text can be recovered from the word it is read as |
| CommitStatuses.FieldsLower | backend/internal/domain/scm_status_delivery.go:77-77 | lower-casing a trimmed text leaves it trimmed |
| CommitStatuses.ValidNormalForm | backend/internal/domain/scm_status_delivery.go:72-166 | validity passes to the normal form; back it passes iff the desired state is trimmed and no repository identifier is present but blank |
| CommitStatuses.PaddedStateInvalid | backend/internal/domain/scm_status_delivery.go:160-166 | padding the state of any valid delivery makes it invalid but not its normal form |
| CommitStatuses.ClaimKeepsValid | backend/internal/repository/memory/scm_status_delivery_repository.go:310-326 | a claim keeps validity iff it does not expire at the zero time |
| CommitStatuses.NextInv | backend/internal/repository/memory/scm_status_delivery_repository.go:30-84 | every operation keeps the record valid and in step with all claims of the run and what they were granted for |
| CommitStatuses.ClaimBudget | backend/internal/repository/memory/scm_status_delivery_repository.go:328-394 | over every run every claim is within the limit of its record, and a build and state are granted at most the sum of the limits under which they were made the stored ones |
| CommitStatuses.CountWithin | backend/internal/repository/memory/scm_status_delivery_repository.go:359-394 | attempts numbered upwards from one within their limits are at most the sum of those limits |
| CommitStatuses.StoredOnceBudget | backend/internal/repository/memory/scm_status_delivery_repository.go:359-394 | a build and state that a run makes the stored ones once get at most the limit of that one time, and without it none |
| CommitStatuses.ReassertsExactly | backend/internal/repository/scm_status_delivery_ordering.go:48-58 | an answer carries a time for reassertion iff the request is acceptable, would replace the stored delivery, and that delivery is being sent under a claim that has not expired |
| CommitStatuses.StepApart | backend/internal/repository/memory/scm_status_delivery_repository.go:328-394 | an operation brings claims to overlap iff it replaces a delivery under a live claim |
| CommitStatuses.ClaimsApartExactly | backend/internal/repository/memory/scm_status_delivery_repository.go:328-394 | the claims of a run, whatever they were granted for, are each granted after the one before was ended or expired iff no request of the run replaces a delivery under a live claim, which a caller can tell from the stored record and the request |
| CommitStatuses.ClaimsApartByAnswers | backend/internal/repository/scm_status_delivery_ordering.go:48-58 | the same told from the answers: iff none carries a time for reassertion |
| CommitStatuses.ReplacementsOverlap | backend/internal/repository/memory/scm_status_delivery_repository.go:328-357 | a run of three requests by one build, for success, failure and success again: three claims live at once, two of them for one build and state under limits of one, as many as those limits allow |
| CommitStatuses.TerminalOnlyReplaced | backend/internal/repository/memory/scm_status_delivery_repository.go:328-394 | a terminal record is never claimed again, only replaced by another build or for another state |
| CommitStatuses.CompareMeaning | backend/internal/repository/scm_status_delivery_ordering.go:10-32 | the comparison of owners is the order by attempt, creation time and identifier |
| CommitStatuses.NewestBuildOwns | backend/internal/repository/memory/scm_status_delivery_repository.go:328-394 | over every run the stream belongs to the newest build that asked for it |
| CommitStatuses.OwnerOrderFree | backend/internal/repository/scm_status_delivery_ordering.go:10-32 | two runs in which the same builds ask, in any order, end with the same owner |
| CommitStatuses.RunAdvances | backend/internal/repository/scm_status_delivery_ordering.go:34-46 | however a run goes on, the stream moves to a newer build or keeps a final state final |
| Publish.PrepareKeys | backend/cmd/worker/cache_helper.go:560-588 | all components get a non-empty key of their own, or the computation fails |
| Publish.CacheHelper.RunCacheRestore | backend/cmd/worker/cache_helper.go:41-95 | the keys are written exactly when some component restores or saves, all have keys and the write works |
| Publish.CacheHelper.SaveComponent | backend/cmd/worker/cache_helper.go:264-323 | the effects of saving one component under any failures, the deferred release included |
| Publish.CacheHelper.RunCacheSave | backend/cmd/worker/cache_helper.go:220-262 | the effects of a save run under the loaded keys, up to the first failure |
| Publish.SaveRunSettles | backend/cmd/worker/cache_helper.go:220-323 | for any components and failures: one claim at a time, work only under it, each claim ended exactly once with its own name, key and token, none left open |
| Publish.UploadUnderClaim | backend/cmd/worker/cache_helper.go:264-323 | an upload in a settled trace happens under the open claim, with its token, and that claim is ended later |
| Publish.ArchiveUnderClaim | backend/cmd/worker/cache_helper.go:264-323 | archiving in a settled trace happens under an open claim for that component, and that claim is ended later |
| Publish.OpenedByClaim | backend/cmd/worker/cache_helper.go:264-290 | an open claim was acquired in the trace and only its own work followed |
| Publish.SavedUnderPreparedKeys | backend/cmd/worker/cache_helper.go:493-541 | every claim, upload, completion and release of a save run carries the non-empty key the restore run computed for that component |
| Publish.KeyedExactly | backend/cmd/worker/cache_helper.go:220-323 | whatever happens outside, a save run never claims, uploads or releases without a key iff every component that saves has one |
| Publish.LegacyFileKeyedExactly | backend/cmd/worker/cache_helper.go:521-541 | a single-key file alone serves a save run iff no component but `go` saves, and the key is not empty if it does |
| Publish.LegacyFileLosesKeys | backend/cmd/worker/cache_helper.go:521-541 | so with only such a file any other component that saves can be claimed under an empty key |
| Keys.ComputeFingerprint | backend/internal/cache/fingerprint.go:16-66 | the digest and list of the sorted entries, relying only on the contract of an unstable sort |
| Keys.FingerprintOrderFree | backend/internal/cache/fingerprint.go:16-66 | the result is the same for every order of the files, up to which read error is reported |
| Keys.LoaderFunctional | backend/internal/cache/fingerprint.go:29-46 | entries of equal paths hold equal data |
| Keys.FingerprintTellsApartExactly | backend/internal/cache/fingerprint.go:48-65 | for files listed once each, a fingerprint tells their contents from any others iff no file's path is a line of the file before it, other than the first, or of the file itself, other than the last; the condition suffices for all lists, and is exact for all among contents that may give one path two texts |
| Keys.ListedTwiceTellsApart | backend/internal/cache/fingerprint.go:48-65 | a file listed twice is told from all its other contents, whatever it holds |
| Keys.SingleLinesTellApart | backend/internal/cache/fingerprint.go:56-63 | so contents of a single line each are told apart from all other contents |
| Keys.StreamInjective | backend/internal/cache/fingerprint.go:56-63 | among files of single lines even the paths can be read back from the hashed text |
| Keys.LineFeedsCollide | backend/internal/cache/fingerprint.go:56-63 | any two files of which the first holds the path of the second as a later line have other contents with the same fingerprint |
| Keys.ResolveKey | backend/internal/cache/key.go:36-69 | the key of the trimmed request, or the first complaint |
| Keys.KeysAgreeExactly | backend/internal/cache/key.go:36-69 | two complete requests share a key iff their trimmed texts agree and their paths are permutations |
| Keys.KeyOrderFree | backend/internal/cache/key.go:53-54 | permuting the paths changes neither key nor complaint |
| Authorization.FilterProjectIDs | backend/internal/authorization/authorizer.go:111-152 | with or without the listing the result is what the filter keeps, for a known user exactly the requested projects the single check allows, and it fails exactly in the stated cases |
| Authorization.FilterAgreesExactly | backend/internal/authorization/authorizer.go:78-152 | what the filter keeps is what the single check allows iff it is not an administrator without a user identifier asking for something while authorization is on |
| Authorization.CachedAgrees | backend/internal/authorization/authorizer.go:130-141 | for a coherent store the cached listing answers like the store |
| Authorization.HigherRoleAllowsLess | backend/internal/authorization/authorizer.go:57-96 | a higher minimum role never allows more |
| Authorization.BlankAdminDiffers | backend/internal/authorization/authorizer.go:78-120 | an administrator without identifier passes the filter and fails the check |
| Storage.KeysDistinct | backend/internal/artifact/collector.go:309-315 | different identifiers of one length give different storage keys, whatever the builds, steps and paths |
| Storage.ObjectNameIdempotent | backend/internal/artifact/gcs_store.go:102-111 | for cleaned prefixes and all valid keys, resolving twice is resolving once iff the key is inside the prefix or does not end in white space once cleaned |
| Storage.TrailingSpaceNotIdempotent | backend/internal/artifact/gcs_store.go:102-111 | a valid key whose object name changes when resolved again |
| Storage.TrimmedNameIdempotent | backend/internal/artifact/gcs_store.go:102-111 | for any prefix and any valid key whose name has no white space at its ends, resolving twice is resolving once iff the key is inside the prefix, or the prefix is cleaned, or it has as many names as it climbs |
| Storage.NamedTwiceExactly | backend/internal/artifact/gcs_store.go:102-111 | for any prefix and any valid key outside it, white space at the ends of the name included: resolving twice is resolving once iff, the trimmed name being within the prefix, trimming took nothing, or, being outside it, its names are again those of the key |
| Storage.SlashedPrefixNotIdempotent | backend/internal/artifact/gcs_store.go:42-42 | with a slash at the end of the prefix `x/` the key `y` becomes `x/y` and then `x/x/y` |
| Storage.PlanBulkDownloads | backend/internal/cli/build_artifacts.go:415-449 | a plan exists iff every artifact has a destination, all differ and none is blocked; it lists every artifact once, in order |
| Storage.DestinationInside | backend/internal/cli/build_artifacts.go:363-395 | every destination lies strictly below the output directory |

## Left out

- Failures of the disk in the cache store other than a removal that fails during eviction (full disk, failing rename, unreadable walk) and its temporary files.
- Concurrent restores during a save in the cache store: restore takes no lock in the program; the model runs operations one after the other.
- gzip and tar bytes, file modes, owners and entry times: an archive is a list of entries; a malformed archive is not modelled.
- Archive.WriteTarGz: the order of children is that of the tree value; the walk's lexical order is one such order.
- Windows paths: the separator is `/` throughout.
- Text.ToLower: only ASCII letters are folded.
- LogWatch.RunPrintsPrefix: chunks are appended in the order of their sequence numbers; a chunk that becomes visible below a cursor already passed would never be listed by the program. That every chunk is eventually printed is not claimed, because the program gives up on some errors.
- Errors of the emitter and of the event callback in the watch; the human-readable output; the missing-scope notice.
- The interleaving of log events with the poller's events: a chunk may be printed after the terminal event, so the poller's events and the chunks of each step are modelled apart.
- HTTP requests, tokens and capability exchange in the client and in the cache helper: they are outcomes supplied from outside.
- The restoring of cache components by the helper beyond the preparation of keys.
- Storing the selected artifacts, content types and checksums.
- Artifact type inference: a record carries its resolved type.
- The maps of the delivery repositories by identifier and logical key, the in-memory notification repository's `Create` and `Update` (which overwrites a record and is not part of the repository contract), listing of due deliveries and the SQL repositories: the model follows the in-memory repository on the record of one logical key. Identifiers and creation and update times of deliveries carry no rules and are dropped.
- Storage.ObjectNameIdempotent: covers cleaned prefixes; for the others see `TrimmedNameIdempotent` and `NamedTwiceExactly`.
- Keys.FingerprintTellsApartExactly: for files listed several times, and contents that give one path one text, the condition is sufficient only (`ListedTwiceTellsApart` shows that it is not necessary there).
- API token scopes: a plain membership test.
- Build and job transitions, cancellation of builds and jobs, configuration, server wiring, the frontend: easy or foreign.
