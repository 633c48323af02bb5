# Verification model of the git service

A Dafny model of the parts of the git tool server that keep state or rewrite
trees, and proofs about them. `dafny verify dfyconfig.toml` checks everything.

The project is organised as the server is.

* **Change observation.** `CommitGraph` is the git object database as an acyclic
  parent map with annotated tags; `Observe` compares a ref snapshot with the live
  refs and lists change candidates; `ObserveLaws`, `EventLaws` and `FileLaws` prove
  what a consumer of those candidates may conclude. Git's answers are parameters:
  `rev-list` lists the difference of two reachable sets once each, in any order,
  and `merge-base --is-ancestor` is reachability between peeled ids.
* **Watch service.** `Criteria` is the matcher, with glob and regular-expression
  matching as a parameter, and `CriteriaLaws` what a match means; `WatchService` is
  the object with its tables and journals; `WatchLaws` and `WatchCalls` are about
  whole runs of calls; `FetchGate` is the cap on remote fetches.
* **Jobs.** `JobDispatch` is the submit/dispatch protocol as a state machine over
  atomic steps, for any number of submitters and runners.
* **Structured files.** `JsonPointer` is the pointer syntax, `JsonDocument` the
  in-place update of a document whose dictionaries and lists are cells with
  identity, `JsonLaws` and `JsonPositions` the laws of that update. `ConfigTree` is
  the flattener and the masker of the runtime configuration, `ConfigPaths` the flat
  view leaf by leaf.
* **Admin.** `AdminRuntime`, `AdminEffects` and `AdminLaws` are users, groups, roles
  and keys; `ConfigEvents` is the journal-reading subscription; `ProfileStore` is
  the soft-delete table behind a mapping.
* **Workspaces and logs.** `Workspaces` is the workspace manager with its disk,
  `WorkspaceUse` what each call does and when a workspace was last used,
  `WorkspaceIds` the generated ids, `LogTail` the tail of a rotated log.
* `Seqs` holds options and a few facts about sequences.

Operations that update fields or fill collections in loops are methods, most of
them of classes. Each is proved equal to a specification function of its inputs
or of the old state, and the laws are lemmas about those functions and about
runs of them (`Run`, `Stream`, `Descend`).

Where the code and its documentation differ, the model follows the code:

* `list_refs` is documented to peel annotated tags, but `%(objectname)` does not;
  ids of tags may be tag objects here, and ancestry peels them.
* A `ref` criterion is documented to try the full and the short name. A regular
  expression that matches the full name with an empty text counts as no match
  there, so it can fail although it matches (`RefPatternTriesBothNames`,
  `EmptyMatchIsLost`).
* A watch whose repository had no refs for a time takes the next refs as a
  baseline and tells nothing about them (`RefsAfterNoneAreLost`,
  `ReplayFollowsRun`, `JournalRebuildsSnapshots`).
* A hub with a journal delivers its own events twice to its own subscribers
  (`ExactlyOnceWithoutPublish`).
* A retried job is queued without a runner, so it may never be run
  (`RetryRunsExactlyWhenAttended`, `RetryCanBeStranded`).
* Both "" and "/" name the whole document, and all leading slashes of a pointer
  are dropped; RFC 6901 says otherwise (`PointerRoundTrip`).
* Under a key such as "secret.x" the masker sees a secret and the flattener does
  not (`ViewsAgreeExactlyOn`).

## Model

| member | source | states |
|---|---|---|
| CommitGraph.ReachIsAntisymmetric | src/git_tools/git/observe.py:110-116 | two commits that are ancestors of each other are one commit: a branch that moved forward did not come back |
| CommitGraph.RangesSplit | src/git_tools/git/observe.py:156-172 | the commits between two points of a history are split without overlap by any point between them |
| CommitGraph.ReachIsByPaths | src/git_tools/git/observe.py:110-116 | a commit is reached exactly when a walk along parent links leads to it |
| Observe.CommitPaths | src/git_tools/git/observe.py:127-153 | the scan of `diff-tree` rows with its early exit returns the bounded rows of the commit; `RowsAreTheFirst` says which these are |
| Observe.CommitCandidates | src/git_tools/git/observe.py:303-364 | a fast-forward advance emits, oldest first, one event per listed commit, each followed by its file events |
| Observe.DeletedRefs | src/git_tools/git/observe.py:206-222 | one deletion event for each snapshot ref that is no longer live, in snapshot order |
| Observe.MovedRef | src/git_tools/git/observe.py:225-298 | the branches for a created, unchanged, re-pointed, forced or advanced ref |
| Observe.ObserveRefs | src/git_tools/git/observe.py:184-300 | a baseline emits nothing, any other observation the deletions and then the moves; the new snapshot is the live refs |
| ObserveLaws.AdvanceIsListed | src/git_tools/git/observe.py:156-172 | a branch that moved forward always has a commit to tell, by acyclicity, unless no commit may be listed at all |
| ObserveLaws.ReplayRebuildsLiveRefs | src/git_tools/git/observe.py:201-300 | replaying the events of one observation over the last snapshot gives exactly the live refs if and only if the observation was neither a baseline of existing refs nor cut to no commits on a fast-forward |
| ObserveLaws.RefsAfterNoneAreLost | src/git_tools/git/observe.py:201-204 | the concrete failure: a branch that appears after a time without refs is not in the replayed map |
| ObserveLaws.ReplayFollowsRun | src/git_tools/git/observe.py:184-300 | over a whole run the replayed map equals the repository after every observation if and only if no observation was silent |
| EventLaws.RefEventsTellMoves | src/git_tools/git/observe.py:206-289 | every ref event carries both ends of the move of its ref between the snapshots; its action, force flag, author and version are those of that move, and its paths are the told changes of the new tip, one for each and in order, where a ref appears or a branch is forced |
| EventLaws.RefEventsAreExact | src/git_tools/git/observe.py:206-289 | outside a baseline every ref that is gone, new, re-pointed or forced has exactly one event about itself, and no other ref has one |
| EventLaws.CommitsAreOldestFirst | src/git_tools/git/observe.py:156-172 | the commits told are the first of git's list up to the limit, in reverse |
| EventLaws.RetaggingIsNotForced | src/git_tools/git/observe.py:256-274 | two tag objects for one commit are compared by the commit |
| ObserveLaws.StepCommits | src/git_tools/git/observe.py:156-172 | the commits told on a forward-moving branch are distinct, lie in the range between its tips, and are all of it if and only if the range fits the limit |
| ObserveLaws.CommitsAreToldOnce | src/git_tools/git/observe.py:291-364 | over any run in which a branch only moves forward no commit is told twice, and what is told is the whole range from first to last tip if and only if every step fitted |
| ObserveLaws.OneLookEqualsMany | src/git_tools/git/observe.py:291-364 | many observations tell the same commits as one, when one has room for them |
| ObserveLaws.WorkIsBounded | src/git_tools/git/observe.py:206-364 | one observation costs one event per deleted ref and at most maxCommits * (1 + maxPaths) per new or moved ref (a limit of 0 counts as 1), and nothing for an unchanged one |
| ObserveLaws.SteadyStateIsQuiet | src/git_tools/git/observe.py:253-254 | observing an unchanged ref map, listed in any order, yields nothing |
| EventLaws.RowsAreTheFirst | src/git_tools/git/observe.py:127-153 | the bounded scan keeps exactly the first maxPaths changes that name a path; a limit of 0 lets only the first row through |
| FileLaws.FileEventsAreTheFirstChanges | src/git_tools/git/observe.py:316-363 | for every branch and commit, the file events are the first changes of the commit within the limit, once each and in order, if the commit is told on the branch, and none otherwise |
| EventLaws.EventsTellCommits | src/git_tools/git/observe.py:303-374 | every commit event lists the paths of the told changes of its commit, one for each and in order, every file event is one of these changes with the action that its status stands for, and both carry the author and whether the commit has more than one parent |
| FileLaws.CommitsToldOn | src/git_tools/git/observe.py:291-364 | the commit events of an observation on a ref are exactly the commits listed for its move, if it moved forward, and none otherwise |
| FileLaws.EventsTellGains | src/git_tools/git/observe.py:291-364 | an event about a commit on a branch means that the branch moved forward and the commit is new on it |
| FileLaws.GainsAreTold | src/git_tools/git/observe.py:291-364 | a commit that a branch gains within the limit is told on that branch |
| Criteria.FirstPathMatch | src/git_tools/change_stream/criteria.py:223-229 | the loop over paths finds nothing if and only if no path matches |
| Criteria.PathHitIsFirst | src/git_tools/change_stream/criteria.py:223-229 | what it finds is the first matching path |
| Criteria.Match | src/git_tools/change_stream/criteria.py:132-188 | a candidate matches if and only if every given criterion holds of it, and the provenance names what made each hold |
| Criteria.RefPatternTriesBothNames | src/git_tools/change_stream/criteria.py:165-171 | the `ref` pattern is tried on both names if and only if it is not the case that it matches the full name emptily and the short name not at all |
| Criteria.EmptyMatchIsLost | src/git_tools/change_stream/criteria.py:165-171 | a look-ahead pattern that matches the full name and is reported as no match |
| CriteriaLaws.CriteriaMeanWhatTheySay | src/git_tools/change_stream/criteria.py:132-188 | a candidate matches exactly when each given criterion alone holds of it: action and author, any of the paths, and the full or the short name of the ref unless the full name matches emptily |
| CriteriaLaws.NameCriteriaSelect | src/git_tools/change_stream/criteria.py:150-163 | on the candidates of an observation a branch or tag criterion selects exactly those of the branches or tags that it names |
| CriteriaLaws.NamesAreReadByPrefix | src/git_tools/change_stream/criteria.py:94-100 | the prefix of a full ref name alone gives its type and its short name, and nothing is lost |
| CriteriaLaws.ProvenanceIsTrue | src/git_tools/change_stream/criteria.py:132-188 | the provenance of a match has a field for each given criterion and is true of the candidate |
| WatchService.Service.RequireOwner | src/git_tools/change_stream/service.py:175-187 | a watch is found only for its tenant or for an unscoped caller |
| WatchService.Service.CreateWatch | src/git_tools/change_stream/service.py:192-229 | accepted exactly for positive limits and a coordinator that accepts the id; the new watch has an empty snapshot and journal and is live |
| WatchService.Service.ChangeState | src/git_tools/change_stream/service.py:248-254 | pause and resume change the state of an owned watch and nothing else |
| WatchService.Service.DeleteWatch | src/git_tools/change_stream/service.py:256-264 | deletion removes the watch from every table, for its owner only |
| WatchService.Service.EmitMatching | src/git_tools/change_stream/service.py:359-378 | the loop appends the events of the matching candidates, in order, to one journal and counts them |
| WatchService.Service.ObserveRepo | src/git_tools/change_stream/service.py:318-389 | an observation by the owner attempts a fetch if one is asked for and due, journals the matches if the watch is live, and advances the snapshot in any case; other callers change nothing |
| WatchCalls.CreatedWatchStartsLive | src/git_tools/change_stream/service.py:192-229 | a watch created with positive limits and an accepted id is live, with the criteria of its spec, no refs and an empty journal; any other create changes nothing |
| WatchCalls.OwnerCallsAreDone | src/git_tools/change_stream/service.py:248-389 | what a caller of the owning tenant, or an unscoped one, asks for is done: the state is set, the watch removed, the refs stored, and a fetch that is due attempted |
| WatchCalls.OtherWatchesStay | src/git_tools/change_stream/service.py:192-389 | a call about one watch leaves every other as it is |
| WatchCalls.TraceFollowsCalls | src/git_tools/change_stream/service.py:248-389 | over any run that keeps the watch it is live exactly when its owner's last pause or resume was a resume, or there was none and it started live, and its observations are those that its owner asked for |
| WatchCalls.PausedJournalStays | src/git_tools/change_stream/service.py:359-378 | from the owner's pause to its next resume nothing enters the journal |
| WatchCalls.MatchingIsExact | src/git_tools/change_stream/service.py:363-378 | a candidate of a live observation is journaled exactly when it satisfies the criteria |
| WatchCalls.EventsAreEvidenced | src/git_tools/change_stream/service.py:363-373 | each event carries the provenance of its own candidate, which `ProvenanceIsTrue` shows to be true |
| WatchLaws.ForeignCallsDoNotReach | src/git_tools/change_stream/service.py:175-187 | a call by another tenant leaves everything stored about a watch, the time of its last fetch included, as it was if and only if it is not an accepted second creation under its id |
| WatchLaws.ForeignRunsDoNotReach | src/git_tools/change_stream/service.py:175-187 | the same over any run of such calls |
| WatchLaws.JournalOfRun | src/git_tools/change_stream/service.py:318-389 | whatever else is called, the journal of a watch grows by the concatenation over exactly its live observations of the matching candidates, and the snapshot is the last one seen, live or paused |
| WatchLaws.ToldComesFrom | src/git_tools/change_stream/service.py:359-378 | every journaled event stems from an observation made while the watch was live |
| WatchLaws.PausedCommitsAreNeverTold | src/git_tools/change_stream/service.py:359-382 | a commit that a forward-moving branch gained in a paused observation is in no commit or file event on that branch, early or late |
| WatchLaws.CommitEventsComeFromGains | src/git_tools/change_stream/service.py:359-378 | whatever the criteria, an event about a commit comes from a live observation in which the branch of the event gained the commit |
| WatchLaws.ToldExactlyOnLiveGain | src/git_tools/change_stream/service.py:359-382 | an unfiltered watch tells a commit on a branch if and only if that branch gained it in a live observation; a commit gained by one branch during a pause is told when another branch gains it live, and then on that one |
| WatchLaws.JournalRebuildsSnapshots | src/git_tools/change_stream/service.py:318-389 | the events of an unfiltered, always live trace rebuild the snapshot after every observation if and only if none of them re-baselined |
| WatchLaws.JournalFollowsTables | src/git_tools/change_stream/service.py:318-389 | in every run of calls on the service, replaying the journal of an unfiltered watch that was live at each observation gives the stored snapshot after every call if and only if no observation re-baselined |
| WatchLaws.FetchesFollowGate | src/git_tools/change_stream/service.py:347-410 | the fetch table of a run is that of the gate fed with the fetches and deletions of the run, so the spacing of attempts holds for the service |
| FetchGate.Gate.MaybeFetch | src/git_tools/change_stream/service.py:399-410 | the locked check-and-set: a call is let through, and remembered, exactly when an interval has passed since the last one |
| FetchGate.Gate.Forget | src/git_tools/change_stream/service.py:256-264 | deleting a watch drops its last attempt and no other |
| FetchGate.AttemptIsMadeWhenDue | src/git_tools/change_stream/service.py:399-410 | a call is let through exactly when one interval has passed since the last attempt, or since time zero without one |
| FetchGate.AttemptsAreSpaced | src/git_tools/change_stream/service.py:399-410 | for any mix of calls, with clock readings in any order, two attempts for an undeleted watch lie one interval apart for each step between them |
| FetchGate.WindowIsCapped | src/git_tools/change_stream/service.py:399-410 | a window of length t holds at most floor(t / interval) + 1 attempts |
| JobDispatch.JobsAreConserved | src/git_tools/jobs/runtime.py:308-359 | no step of a submitter or runner loses or duplicates a job |
| JobDispatch.RunKeepsInv | src/git_tools/jobs/runtime.py:308-359 | in every interleaving the lock holder is the only runner in its loop, and a non-empty queue has someone coming for it |
| JobDispatch.WorkerIsExclusive | src/git_tools/jobs/runtime.py:311-326 | at most one runner is ever inside the worker |
| JobDispatch.SomeStepIsEnabled | src/git_tools/jobs/runtime.py:308-328 | no deadlock: as long as a thread is not done some step can be taken |
| JobDispatch.ThreadsMoveFreely | src/git_tools/jobs/runtime.py:308-359 | no interleaving is excluded: every thread may take its next step at any time, but for the lock, and any queued job may be taken |
| JobDispatch.QuietMeansDone | src/git_tools/jobs/runtime.py:308-359 | once all threads are done the queue is empty and every job was run as often as it was submitted |
| JobDispatch.EveryJobIsRun | src/git_tools/jobs/runtime.py:308-359 | every interleaving ends, after at most seven steps a submission, with every submitted job run exactly once |
| JobDispatch.RetryRunsExactlyWhenAttended | src/git_tools/jobs/runtime.py:163-184 | every run from a retry that cannot be continued has run the retried job and all others if and only if, when it was retried, a submitter had yet to submit or start a runner or a runner had yet to look at the queue; otherwise the queue never changes again |
| JobDispatch.RetryCanBeStranded | src/git_tools/jobs/runtime.py:163-184 | this is reached: from every start some run ends with all jobs done, and a job retried then stays queued with no thread to take it |
| JsonPointer.UnescapeUndoesEscape | src/git_tools/files/edit/json_yaml.py:26-29 | decoding `~1` before `~0`, as section 4 of RFC 6901 asks, undoes the encoding of every string |
| JsonPointer.OtherOrderIsWrong | src/git_tools/files/edit/json_yaml.py:26-29 | in the other order the token "~1" would come back as "/" |
| JsonPointer.UnescapeIsOnePass | src/git_tools/files/edit/json_yaml.py:29 | on every string the two replacements one after the other decode as one pass from the left does |
| JsonPointer.PointerRoundTrip | src/git_tools/files/edit/json_yaml.py:26-29 | a token list survives being written as a pointer and split again if and only if it is empty or its first token is not |
| JsonPointer.LeadingSlashesAreDropped | src/git_tools/files/edit/json_yaml.py:26-29 | one more leading slash makes no difference, unless the pointer was empty or "/" |
| JsonDocument.Document.Pad | src/git_tools/files/edit/json_yaml.py:44-45 | the padding loop appends new cells to one list |
| JsonDocument.Document.SetPointer | src/git_tools/files/edit/json_yaml.py:32-60 | the walk with padding, creation and Python's indexing, with its three errors; an empty pointer replaces the document |
| JsonPositions.UpdateSetsItem | src/git_tools/files/edit/json_yaml.py:51-59 | an update that ends in a list puts the value at the index that the last token parses to, counted from the end if negative, keeps every other item and fills new ones with null; it raises exactly when the token is no number or lies before the start |
| JsonPositions.UpdateEntersItem | src/git_tools/files/edit/json_yaml.py:42-46 | a list on the way is left at the index that its token parses to, keeps all its items and gets no more than it needs |
| JsonPositions.NewItemsStayEmpty | src/git_tools/files/edit/json_yaml.py:44-45 | the items that a list on the way got beside the one that was entered are empty dictionaries |
| JsonPositions.DictionariesAreSet | src/git_tools/files/edit/json_yaml.py:40-52 | of a dictionary exactly one entry is set, and a missing one on the way is made, an empty dictionary |
| JsonPositions.ScalarsRefuse | src/git_tools/files/edit/json_yaml.py:47-59 | anything else raises a type error |
| JsonPositions.RefusedExactly | src/git_tools/files/edit/json_yaml.py:38-59 | a token is blocked exactly by a scalar, or by a list to which it is no number or a number before its start |
| JsonLaws.GetAfterSet | src/git_tools/files/edit/json_yaml.py:32-60 | after a successful set the same tokens, resolved in the updated document, lead to the value without creating anything, negative list indices included |
| JsonLaws.OtherPlacesStay | src/git_tools/files/edit/json_yaml.py:32-60 | every place that is not at or below the pointer still holds the same cell |
| JsonLaws.UnrelatedContentsStay | src/git_tools/files/edit/json_yaml.py:32-60 | a place that is moreover not above the pointer keeps its very contents |
| JsonLaws.ValueArrivesWhole | src/git_tools/files/edit/json_yaml.py:52-57 | everything below the value is found unchanged below the pointer |
| JsonLaws.ListsGrowAsNeeded | src/git_tools/files/edit/json_yaml.py:42-57 | a list on the way or at the end has the larger of its old length and index + 1 |
| JsonLaws.FailedUpdateChangesNothing | src/git_tools/files/edit/json_yaml.py:38-59 | a set that raises leaves the whole memory as it was, even with shared cells |
| JsonLaws.UpdateFailsWhenBlocked | src/git_tools/files/edit/json_yaml.py:38-59 | a set raises if and only if the document, as it was, blocks one of the tokens |
| JsonLaws.UpdateKeepsTree | src/git_tools/files/edit/json_yaml.py:32-60 | the document is a tree again, so the laws hold for the next set |
| ConfigTree.FlattenTree | src/git_mcp_server/config_sources.py:58-80 | the recursive flattener with its loops over containers computes the flat map of a tree |
| ConfigTree.StripIsHarmless | src/git_mcp_server/config_sources.py:53-55 | dropping a list index from a segment never changes whether it is secret |
| ConfigTree.MaskThenFlatten | src/git_mcp_server/ui_endpoints.py:299-317 | for any nesting over keys on which the two views agree, flattening the masked tree is redacting the flat one |
| ConfigTree.ViewsAgreeExactlyOn | src/git_mcp_server/config_sources.py:47-80 | the key sets on which the two views agree for every tree are exactly those whose secret keys have a secret last segment |
| ConfigTree.DottedKeyDisagrees | src/git_mcp_server/config_sources.py:53-55 | the concrete failure: "secret.x" |
| ConfigTree.MaskedViewShowsNoSecret | src/git_mcp_server/ui_endpoints.py:299-317 | the masked view has the same paths, equals the open one on every path not flagged, and holds "****" on the flagged ones unless the value there is null or empty |
| ConfigPaths.FlattenHoldsLeaves | src/git_mcp_server/config_sources.py:58-80 | the flat view has a path exactly for each leaf, where the walk by keys and positions ends at the first scalar or secret name, and holds a leaf with that path |
| ConfigPaths.FlattenIsExact | src/git_mcp_server/config_sources.py:58-80 | over keys without dots and brackets each leaf is under its own path |
| ConfigPaths.PathTellsSteps | src/git_mcp_server/config_sources.py:66-73 | over such keys a path determines the keys and positions |
| ConfigPaths.LeafKeyOfPath | src/git_mcp_server/config_sources.py:53-55 | the name behind a path is its last key, list index or not |
| ConfigPaths.SecretNames | src/git_mcp_server/config_sources.py:37-50 | a key is secret exactly when it holds one of the eight words, in any case |
| AdminRuntime.Runtime.SyncUserGroups | src/git_tools/admin/runtime.py:239-247 | the loop makes every group list the user exactly when it is a target |
| AdminRuntime.Runtime.SyncGroupMembers | src/git_tools/admin/runtime.py:341-349 | the loop makes every user list the group exactly when it is a member |
| AdminRuntime.Runtime.CreateUser | src/git_tools/admin/runtime.py:282-302 | refuses a known id, else stores the user and rewrites the groups |
| AdminRuntime.Runtime.UpdateUser | src/git_tools/admin/runtime.py:304-325 | refuses an unknown id, else replaces the user and rewrites the groups |
| AdminRuntime.Runtime.DeleteUser | src/git_tools/admin/runtime.py:327-339 | removes the user, its bindings and memberships, and revokes the keys recorded as its own |
| AdminRuntime.Runtime.CreateGroup | src/git_tools/admin/runtime.py:366-385 | refuses a known id, else stores the group and rewrites the users |
| AdminRuntime.Runtime.UpdateGroup | src/git_tools/admin/runtime.py:387-406 | refuses an unknown id, else replaces the group and rewrites the users |
| AdminRuntime.Runtime.DeleteGroup | src/git_tools/admin/runtime.py:408-415 | removes the group from the store and from every user |
| AdminRuntime.Runtime.CreateKey | src/git_tools/admin/runtime.py:450-469 | a fresh key is valid and recorded for its owner |
| AdminRuntime.Runtime.RevokeKey | src/git_tools/admin/runtime.py:471-476 | a known key becomes invalid and its record, made if missing, says so |
| AdminRuntime.Runtime.UpdateKey | src/git_tools/admin/runtime.py:478-492 | refuses an unknown key, and never makes a key valid or gives it an owner |
| AdminRuntime.Runtime.BindRole | src/git_tools/tools/registry.py:1478-1481 | any id, with or without a user, can be bound to a role |
| AdminRuntime.Runtime.UnbindRole | src/git_tools/tools/registry.py:1483-1487 | one role is taken from an id |
| AdminRuntime.Runtime.Resolve | src/git_tools/admin/runtime.py:269-280 | the loop collects the direct roles and those of the existing groups given, or of the user's own |
| AdminEffects.CreatedUserIsPut | src/git_tools/admin/runtime.py:282-302 | a new user is stored with exactly the given fields and groups, active, and each stored group lists it exactly when it was asked for; every other user and membership stays, and a known id changes nothing |
| AdminEffects.UpdatedUserIsPut | src/git_tools/admin/runtime.py:304-325 | the same for an update, with the given status or "active" |
| AdminEffects.PutUserRoles | src/git_tools/admin/runtime.py:269-325 | after either its roles are the direct ones and those of the stored groups asked for, and no other user's roles change |
| AdminEffects.CreatedGroupIsPut | src/git_tools/admin/runtime.py:366-385 | a new group is stored with exactly the given fields, roles and members, and exactly its members among the stored users list it |
| AdminEffects.UpdatedGroupIsPut | src/git_tools/admin/runtime.py:387-406 | the same for an update |
| AdminEffects.PutGroupRoles | src/git_tools/admin/runtime.py:269-406 | after either its members have its roles, and nobody else gains or keeps any by it |
| AdminEffects.OwnGroupsGiveRoles | src/git_tools/admin/runtime.py:269-280 | without named groups the roles are the direct ones and those of the user's own stored groups |
| AdminEffects.NamedGroupsGiveRoles | src/git_tools/admin/runtime.py:253-280 | named groups take the place of the user's own, and naming its own changes nothing |
| AdminEffects.DeletedUserIsGone | src/git_tools/admin/runtime.py:327-339 | a deletion takes the user from the store, the groups and the bindings, revokes exactly the keys recorded as its own, and changes nothing else |
| AdminEffects.DeletedGroupIsGone | src/git_tools/admin/runtime.py:408-415 | a deletion takes the group from the store and from every user, and changes nothing else |
| AdminEffects.DeletedGroupRoles | src/git_tools/admin/runtime.py:269-415 | its members keep exactly the roles that they have otherwise |
| AdminEffects.KeyCallsAreDone | src/git_tools/admin/runtime.py:450-492 | a created key is valid and its owner's, a revoked one is not valid, and an update changes neither |
| AdminEffects.BindingIsLocal | src/git_tools/tools/registry.py:1478-1487 | binding and unbinding change one direct role of one id and nothing else |
| AdminLaws.RunKeepsInverse | src/git_tools/admin/runtime.py:239-415 | in every reachable state a stored user lists a stored group if and only if the group lists the user, also after calls that name unknown ids |
| AdminLaws.RolesAgreeWithGroups | src/git_tools/admin/runtime.py:269-280 | the roles of a stored user are its direct roles and those of all groups that list it |
| AdminLaws.RolesAgreeInEveryRun | src/git_tools/admin/runtime.py:269-415 | the same after any calls on a directory that starts without users and groups |
| AdminLaws.DeleteStrips | src/git_tools/admin/runtime.py:327-339 | a deleted user has no role, is in no group and owns no valid key |
| AdminLaws.RevokedForGood | src/git_tools/admin/runtime.py:450-492 | no sequence of calls makes a revoked key valid again |
| AdminLaws.DirectRolesAreStillBound | src/git_tools/tools/registry.py:1478-1487 | the direct roles of an id that started with none are those bound to it and not unbound, or deleted with the user, since |
| AdminLaws.DeletedUserRegainsNothing | src/git_tools/admin/runtime.py:282-339 | a user deleted and, after any calls, created again without groups has exactly the roles that were bound to the id since the deletion and not taken away again, so none if and only if every one was; it is in no group and its old keys stay revoked |
| AdminLaws.RoleBoundAfterDeletion | src/git_tools/tools/registry.py:1478-1481 | the concrete case: a role bound to the id of a deleted user is there when the user is created again |
| ConfigEvents.Subscription.Push | src/git_tools/admin/runtime.py:69-74 | a push appends, and the loop drops the oldest beyond the bound |
| ConfigEvents.Subscription.ReadFromJournal | src/git_tools/admin/runtime.py:104-117 | a read appends the events of the lines behind the offset and moves the offset to the end |
| ConfigEvents.Subscription.Poll | src/git_tools/admin/runtime.py:76-92 | one round of `get`: the journal is read only when nothing is pending |
| ConfigEvents.Subscription.GetNowait | src/git_tools/admin/runtime.py:94-102 | reads first, then takes the oldest event or reports that there is none |
| ConfigEvents.ReadingInvertsAppending | src/git_tools/admin/runtime.py:104-149 | line framing undoes the serialised appends: from any line boundary the text gives back its events |
| ConfigEvents.JournalFeedIsExactlyOnce | src/git_tools/admin/runtime.py:58-117 | fed by other processes in any interleaving, a subscriber receives the events appended after its subscription once each and in order, and its offset is a line boundary |
| ConfigEvents.ReadsDeliverAll | src/git_tools/admin/runtime.py:94-117 | reads without waiting deliver what is available one by one, in order, until nothing is left |
| ConfigEvents.AwaitDelivers | src/git_tools/admin/runtime.py:76-92 | a waiting read delivers the oldest pending event without looking at the journal, or the oldest unread one |
| ConfigEvents.PushKeepsNewest | src/git_tools/admin/runtime.py:69-74 | a push keeps the newest events, as many as the bound allows |
| ConfigEvents.BlankLinesAreSkipped | src/git_tools/admin/runtime.py:110-113 | a line of white space is no event |
| ConfigEvents.PaddingIsDropped | src/git_tools/admin/runtime.py:110-114 | white space around an event is dropped |
| ConfigEvents.UnfinishedLineCounts | src/git_tools/admin/runtime.py:109-114 | a last line counts also when its line break is missing |
| ConfigEvents.ShrunkJournalIsPassed | src/git_tools/admin/runtime.py:108-115 | a journal that has become shorter than what was read gives nothing, and is read on from its new end |
| ConfigEvents.PublishedTwice | src/git_tools/admin/runtime.py:146-151 | right after a publish of the own hub the event is in the buffer and also still to be read |
| ConfigEvents.ExactlyOnceWithoutPublish | src/git_tools/admin/runtime.py:104-151 | over distinct events a subscriber that has read everything has received each once and in order if and only if its own hub published none |
| ProfileStore.IndexOf | src/git_tools/admin/profile_store.py:74-76 | the row looked up by name is the first with that name, and no row is missed |
| ProfileStore.Store.Backfill | src/git_tools/admin/profile_store.py:60-91 | the loop inserts missing seeds and rewrites managed ones |
| ProfileStore.Store.GetItem | src/git_tools/admin/profile_store.py:93-103 | only rows that are switched on are found |
| ProfileStore.Store.SetItem | src/git_tools/admin/profile_store.py:105-126 | inserts, or rewrites and switches on the row there is |
| ProfileStore.Store.DeleteItem | src/git_tools/admin/profile_store.py:128-139 | switches a row off, and fails if none is on |
| ProfileStore.PutIsLocal | src/git_tools/admin/profile_store.py:105-126 | a write is seen under its own name and nowhere else, names stay unique and rows keep place and key |
| ProfileStore.DeleteIsLocal | src/git_tools/admin/profile_store.py:128-139 | a deletion hides one name and forgets none |
| ProfileStore.BackfillIsExact | src/git_tools/admin/profile_store.py:60-91 | a restart writes the seeds whose names are new or managed and nothing else, so an ordinary row is never revived or overwritten and a managed one always restored |
| ProfileStore.RestartIsQuietExactly | src/git_tools/admin/profile_store.py:60-91 | a restart changes nothing if and only if every seed has its row and the managed rows are as the seeds want them |
| ProfileStore.BackfillIsIdempotent | src/git_tools/admin/profile_store.py:60-91 | a second restart with the same seeds changes nothing |
| ProfileStore.RunAgrees | src/git_tools/admin/profile_store.py:47-161 | over any writes, deletes and restarts the table answers like a plain map, with one row for each name ever used |
| ProfileStore.KeyIsForever | src/git_tools/admin/profile_store.py:105-139 | a profile deleted and created again keeps its row key |
| ProfileStore.NamesAreTheLiveOnes | src/git_tools/admin/profile_store.py:141-161 | iteration gives every live name once and the length counts them |
| ProfileStore.RunKeepsLabels | src/git_tools/admin/profile_store.py:43-44 | every row is shown under its body's display name, or its own name if there is none |
| Workspaces.Manager.constructor | src/git_tools/workspaces/manager.py:94-98 | a new manager tracks each id that some metadata on disk names, where the metadata was found, and leaves the disk alone; where every metadata file lies in the directory of its id it tracks exactly those directories |
| Workspaces.Manager.RestorePersistent | src/git_tools/workspaces/manager.py:100-124 | the scan tracks each id that some metadata names, as one of the directories naming it has it; with all metadata at home, exactly those directories |
| Workspaces.Manager.CreateWorkspace | src/git_tools/workspaces/manager.py:126-214 | returns the tracked workspace, restores the one on disk, clones, or fails; an owner is only ever added |
| Workspaces.Manager.SaveMetadata | src/git_tools/workspaces/manager.py:216-237 | writes the metadata of a persistent workspace with a directory and nothing else |
| Workspaces.Manager.GetWorkspace | src/git_tools/workspaces/manager.py:239-245 | a tracked workspace is returned and marked as used now |
| Workspaces.Manager.CloseWorkspace | src/git_tools/workspaces/manager.py:271-282 | drops the tracking, and the directory of an ephemeral workspace |
| Workspaces.Manager.CleanupExpired | src/git_tools/workspaces/manager.py:284-293 | the loop closes exactly the expired workspaces, once each, in the order in which it returns them |
| Workspaces.Manager.DeleteWorkspaceDir | src/git_tools/workspaces/manager.py:372-379 | removes directory and tracking, and says whether there was a directory |
| Workspaces.Manager.CollectGarbage | src/git_tools/workspaces/manager.py:381-400 | the loop over the disk removes exactly the stale ephemeral directories |
| Workspaces.OneMoreClosed | src/git_tools/workspaces/manager.py:284-293 | closing one more workspace after a set of them closes the larger set |
| Workspaces.CleanupIsAllAtOnce | src/git_tools/workspaces/manager.py:284-293 | in whatever order a cleanup takes the expired workspaces, it closes them as if all at once |
| Workspaces.RunKeepsConsistent | src/git_tools/workspaces/manager.py:94-400 | in every run, memory, directories and metadata agree |
| Workspaces.OnlyDeleteRemoves | src/git_tools/workspaces/manager.py:271-400 | a call removes a persistent workspace from disk if and only if it is an explicit delete of it |
| Workspaces.PersistentSurvives | src/git_tools/workspaces/manager.py:94-400 | over any run without such a delete it keeps its directory, id, profile and time of creation, and its owner once it has one |
| Workspaces.ReopenFindsTheSame | src/git_tools/workspaces/manager.py:152-180 | asking for a persistent workspace again, after any run without its explicit deletion, gives the same id, profile, time of creation and owner, whatever the request says |
| Workspaces.RestartFindsPersistent | src/git_tools/workspaces/manager.py:100-124 | after a restart exactly the persistent workspaces are tracked, as they were |
| Workspaces.CollectIsExact | src/git_tools/workspaces/manager.py:381-400 | garbage collection takes exactly the ephemeral directories past their age limit, a shorter one during a merge, with their tracking, and changes nothing else |
| WorkspaceUse.CreateDoesAsAsked | src/git_tools/workspaces/manager.py:126-214 | a create returns the workspace that there is in memory or on disk, or makes exactly what was asked for, used now and owned by who asks if nobody owned it; or it fails and changes nothing |
| WorkspaceUse.CallsAreLocal | src/git_tools/workspaces/manager.py:126-379 | a call about one id leaves all others as they are |
| WorkspaceUse.CloseIsExact | src/git_tools/workspaces/manager.py:271-282 | a close ends the tracking, removes an ephemeral directory and saves a persistent one with the time of the close |
| WorkspaceUse.CleanupIsClosing | src/git_tools/workspaces/manager.py:284-293 | a cleanup does to each expired workspace what a close does, and nothing to the others |
| WorkspaceUse.UsedAtLastUse | src/git_tools/workspaces/manager.py:239-245 | over any run the time of last use of a tracked workspace is that of the last create or get that returned it |
| WorkspaceUse.UsedAsStored | src/git_tools/workspaces/manager.py:100-124 | or the stored time, if a restart found it and nobody used it since |
| WorkspaceUse.LastUseExists | src/git_tools/workspaces/manager.py:94-293 | in a run from nothing every tracked workspace has such a last use or restart |
| WorkspaceUse.StoredAtLastSave | src/git_tools/workspaces/manager.py:216-237 | the stored time is that of the last create, close or cleanup that wrote the metadata |
| WorkspaceUse.CleanupGoesByLastUse | src/git_tools/workspaces/manager.py:284-293 | a cleanup closes a workspace exactly when the last create or get of it in the run is longer ago than the limit |
| WorkspaceIds.PersistentIdsAgree | src/git_tools/workspaces/manager.py:81-88 | two persistent ids agree if and only if the profiles are equal and the digests collide |
| WorkspaceIds.PersistentIdIsInjective | src/git_tools/workspaces/manager.py:81-88 | without a collision of the two digests the id determines profile and session |
| WorkspaceIds.TextIsAmbiguousExactly | src/git_tools/workspaces/manager.py:87 | the digested text alone agrees for two different pairs if and only if a piece between dashes moves from the session into the profile |
| WorkspaceIds.EphemeralIdsAgree | src/git_tools/workspaces/manager.py:150 | two ephemeral ids agree exactly when their random ends do and the texts before them |
| WorkspaceIds.PersistentIsNotEphemeral | src/git_tools/workspaces/manager.py:146-150 | no persistent id is an ephemeral one |
| WorkspaceIds.RunMadeAll | src/git_tools/workspaces/manager.py:126-214 | in every run from nothing each workspace and metadata file was made under its id by a create of the run, with its profile, mode and time of creation |
| WorkspaceIds.ReopenedIsTheirOwn | src/git_tools/workspaces/manager.py:146-180 | after any run of creates under generated ids, what stands under the persistent id of a profile and session is a persistent workspace that was created for that very pair, unless another pair of the run collides with it |
| LogTail.ScanLines | src/git_mcp_server/ui_endpoints.py:403-411 | the inner loop adds the rows of one file, last line first, and stops at the limit |
| LogTail.ReadRows | src/git_mcp_server/ui_endpoints.py:390-415 | for a positive limit the result is the last rows, up to the limit, of filtering and parsing all readable files oldest to newest; any other limit gives at most the last row of the newest readable file |
| LogTail.GatheredIsText | src/git_mcp_server/ui_endpoints.py:393-413 | reading file by file gives the rows of the whole text |
| LogTail.RowsAreOfWantedLines | src/git_mcp_server/ui_endpoints.py:403-411 | the rows are the parses of exactly the lines whose lower-cased text holds the search text somewhere |

## Left out

- The text of git's output: parsing the lines of `for-each-ref`, `rev-list` and `diff-tree`, and git calls that fail, which the code answers with an empty list, an empty author or "not an ancestor".
- A negative `max_commits`, which git reads as no limit; the service never passes one.
- Whole-run claims about the watch service are for calls taken one after another; an observation that races with a delete or with another observation of the same watch is not modelled.
- The watch coordinator of the platform is not part of this model: it is assumed to keep a state and a journal for each watch and to accept or refuse an id. Trimming and expiry of journals, batches, cursors, acknowledgements, synthetic test events and broadcasting are left out.
- Event envelopes: correlation ids, summaries and actor. Metadata fields that repeat others (`commit_author`, `paths_changed`, `path`) are left out too.
- `validate_criteria` and a profile without a repository, which are refused before any state is read.
- Glob and regular-expression semantics; criteria values that are not text.
- Two annotated tags are compared by the ids listed; what a tag message says is left out.
- Fetching itself: a failed fetch counts as an attempt, and what it brings is part of the live refs that are given to an observation.
- Workspaces.RunKeepsConsistent: runs, unlike the manager's own methods, are about disks where every metadata file lies in the directory of the id that it names; a copied directory breaks that, and then which copy is tracked is up to the order of the scan.
- Roles bound by a server when it starts are the initial bindings of a run, and the stores that the tool registry uses without an admin runtime are left out.
- JobDispatch.EveryJobIsRun: storing the state of a job, auditing and starting a thread are assumed not to fail; a failure there would leave a job queued without a runner.
- FetchGate.AttemptsAreSpaced: deleting a watch forgets its last attempt, so the spacing is stated for a watch that is not deleted.
- Cancelling, deleting and recovering jobs, job handlers (`_handle_file_batch` among them), progress and job listings. `retry_job` is modelled only in its effect on the queue.
- Reading and writing JSON and YAML files; parsing a list index is a parameter, so only its result matters.
- JsonLaws: documents with shared nodes, as YAML anchors give, are covered only by FailedUpdateChangesNothing and UpdateFailsWhenBlocked; the other laws need a tree, since a shared node changes everywhere at once.
- `_classify` and `build_config_sources`, which count what `flatten` gives; lower-casing and digits outside ASCII, and the `$` of a regular expression before a final line break.
- Membership and role lists are kept as sets, so their order and the trimming done by `_string_list` are left out; ids are trimmed and not empty. So are views of users and groups, capabilities and key expiry, and the key manager's internals.
- The waiting of an asynchronous subscriber, torn appends, a journal that is rewritten, several subscribers of one hub, and journals outside printable ASCII.
- ProfileStore: bodies are JSON data that survive writing and reading; row keys are assumed fresh; SQL sessions and concurrent transactions are left out.
- Cloning, credentials, path resolution, refs of a workspace, disk pressure, listings and warnings; removals and metadata writes that fail, corrupt metadata, and repositories that ship a metadata file of their own. Ages are whole seconds.
- WorkspaceIds: a digest of 12 digits cannot be injective on all texts, so each law names the collision it excludes; runs with ids chosen by the caller are covered by the laws of `Workspaces` but not by that of reopening.
- How rotated files are found and ordered, decompression and decoding, and the filters that the audit endpoint applies to the rows.
- HTTP, tool registry, web UI, audit writing and configuration loading.
