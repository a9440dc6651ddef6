# Verified model of the fulfillment service core

This project models, in Dafny, the parts of the service in which something has to stay true over every input or every
run, and proves it.  `dafny verify dfyconfig.toml` checks everything.

| file | what it models |
|---|---|
| `Messages.dfy`, `MaskCalculator.dfy`, `MaskUpdate.dfy` | messages as trees over a (possibly recursive) descriptor, field paths, the field mask calculator, and what applying a mask does to an object that others change too |
| `MaskWalk.dfy` | which compiled paths can be walked without a panic |
| `MaskMemory.dfy` | `Path.Get`, `Path.Set` and `Path.Clear` as loops over mutable messages that may be shared, and the update loop of the generic server |
| `MaskCompiler.dfy`, `Strings.dfy` | the compiler from dotted text to path steps, and the text functions it uses |
| `MaskPipeline.dfy` | calculator, compiler with its cache, and update put together |
| `ConsoleSessions.dfy` | the console session manager as a protocol of concurrent goroutines, and its operations as a class |
| `JwksCache.dfy`, `TokenCache.dfy` | the cache of JSON web key sets and the cache of validated tokens, as protocols under a clock that does not run backwards |
| `Groups.dfy` | creation and lookup of hierarchical groups in the identity provider |
| `Transactions.dfy`, `Outbox.dfy` | lazy transactions, and the notification outbox with its notifier, listener and cleaner |
| `ListenLoop.dfy` | the loops with which the listener connects, waits and retries |
| `JsonEncoder.dfy`, `JsonDecoder.dfy` | the JSON encoder with ignored fields, at the level of tokens, and the decoder that undoes it |
| `CoFiniteSets.dfy` | sets given by finitely many inclusions or exclusions |
| `DeviceFlow.dfy` | the OAuth device flow and the token source that saves what it yields |

A protocol is a state, a set of actions, and one program counter per goroutine; every atomic step of the code is one
action.  A run is a sequence of states that starts in the initial one and in which each step does an enabled action, so
a statement about runs covers every interleaving.  What other systems answer (HTTP, PostgreSQL, the identity provider,
the JWT library, the listener of the device flow) is chosen by the actions or given as parameters.

Where the code and its own comments disagree, the model does what the code does:

- `txManager.Run` can return no error although writes are missing: because the task reported an error and then returned
  none, or because it went on after a statement that was never sent, either for want of a transaction or because the
  client library refused it; such errors are not recorded (`Transactions.NoErrorButRolledBack`,
  `Transactions.NoErrorButPartlyPersisted`, `Transactions.NoErrorButRefused`; `Transactions.NoErrorMeansPersistedIff`
  says exactly when all the writes are there).
- The path compiler accepts paths through scalars, such as "id.id", on which Get and Clear panic once the scalar is set
  (`MaskWalk.ScalarInTheMiddleExample`; `MaskMemory.MaskAppliesIff` says which masks never panic).
- `GetGroupIDByPath` and `CreateGroup` normalise paths differently; they mean the same group exactly when the trimmed path
  has no double slash (`Groups.LookupAgreesIff`).
- The age of an issuer that was never refreshed does not exceed every TTL: with the largest duration as minimum TTL no
  key is ever loaded (`JwksCache.KeysCanBeLoadedIff`).
- The cleanup interval of the token validator is documented as the minimum time between cleanup runs.  It is, exactly,
  when at most one goroutine at a time is inside `maybeCleanup` and every cleanup runs at the time at which it was
  decided on (`TokenCache.CleanupRunsAreApartIff`); between the decisions it is with one goroutine at a time alone
  (`TokenCache.CleanupsAreSpacedIff`).
- `Subset` and `Equal` of sets answer as for an infinite element type; their contracts say exactly when the answer differs
  from inclusion and equality over a finite type.
- The device flow polls without bound when its interval is not positive, which a configured negative interval or the
  overflow of a huge interval of the server can bring about (`DeviceFlow.PollsAreBoundedIff`).
- The listener is documented to reconnect when nothing arrives for a while; the code waits again on the same connection
  (`ListenLoop.NewConnectionIff`, `ListenLoop.ListenInVain`).  It is documented to return only when its context is
  cancelled; when the context reaches a deadline of its own, a listener that waits never returns, and one that does not
  wait does (`ListenLoop.ReturnsIff`).

## Model

| member | source | states |
|---|---|---|
| `Messages.ReadAfterEdit` | internal/masks/mask_path.go:133-214 | after a Set or a Clear along a path, Get along it finds exactly what can be stored there: the value if it counts as present, nothing otherwise |
| `Messages.EditFrames` | internal/masks/mask_path.go:133-214 | a Set or Clear does not change what a path reads that is neither prefix nor extension of the edited one, even when Set creates messages on its way |
| `Messages.EditsCommute` | internal/masks/mask_path.go:133-214 | edits along two such paths give the same message in either order |
| `Messages.DivergeMeansIncomparable` | internal/masks/masks_calculator.go:53-65 | two paths part company exactly when neither sequence of names is a prefix of the other |
| `MaskCalculator.RoundTrip` | internal/masks/masks_calculator.go:47-125 | applying to `before` every path of the mask from `before` to `after`, set from `after` or cleared when absent there, gives exactly `after` |
| `MaskCalculator.DiffIsWitnessed` | internal/masks/masks_calculator.go:53-125 | each path of the mask is a non-empty path of the descriptor that reads differently in `before` and `after` |
| `MaskCalculator.DiffIsAntichain` | internal/masks/masks_calculator.go:53-125 | the paths of the mask are pairwise distinct and none is a prefix of another |
| `MaskCalculator.CompareLists` | internal/masks/masks_calculator.go:129-152 | the loop answers whether the two lists are equal |
| `MaskCalculator.CompareMaps` | internal/masks/masks_calculator.go:156-189 | the loop over the keys of one map, with its flag, answers whether the two maps are equal |
| `MaskCalculator.CompareField` | internal/masks/masks_calculator.go:58-121 | one round of the field loop emits the texts of exactly that field's part of the mask |
| `MaskCalculator.CompareMessages` | internal/masks/masks_calculator.go:53-125 | the recursive comparison terminates for recursive descriptors and emits the texts of exactly the paths of the mask, in descriptor order, below the prefix |
| `MaskCalculator.Calculate` | internal/masks/masks_calculator.go:47-50 | the mask is the texts of exactly the paths for which the round trip holds |
| `MaskUpdate.NonInterference` | internal/masks/masks_calculator.go:22-24 | a mask computed from one change and applied to any third object makes its paths read as in `after` and leaves every path that meets none of them as it was |
| `MaskUpdate.InsideReadsAsRequested` | internal/servers/generic_server.go:695-702 | after an update whose mask paths do not overlap, each of them reads as in the request, whatever the object was |
| `MaskUpdate.OutsideIsUntouched` | internal/servers/generic_server.go:695-702 | a path that meets no path of the mask reads as before the update |
| `MaskUpdate.DiffIsComplete` | internal/masks/masks_calculator.go:44-50 | any path that reads differently on the two sides meets some path of the mask |
| `MaskUpdate.DiffIsFinest` | internal/masks/masks_calculator.go:100-105 | no path of the mask reads a message on both sides: the calculator goes into messages that both sides have |
| `MaskUpdate.DiffIsExact` | internal/masks/masks_calculator.go:53-125 | below messages that both sides have, a path meets no path of the mask exactly when it reads the same on both sides |
| `MaskUpdate.NeighboursAreKept` | internal/masks/masks_calculator.go:22-24 | an update leaves on the current object whatever reads the same on both sides of the change, however close to the change it is |
| `MaskUpdate.EmptyMaskIffEqual` | internal/masks/masks_calculator.go:44-50 | the mask is empty exactly when the messages are equal |
| `MaskUpdate.ConcurrentUpdatesCommute` | internal/masks/masks_calculator.go:22-24 | updates whose masks do not meet give the same object in either order |
| `MaskUpdate.NoLostUpdate` | internal/masks/masks_calculator.go:22-24 | of two disjoint changes made from one base, neither is lost: either order of arrival merges both |
| `MaskUpdate.PatchKeepsWellFormed` | internal/servers/generic_server.go:695-702 | an update of a well formed object from a well formed request leaves a well formed object |
| `MaskMemory.Enter` | internal/masks/mask_path.go:145-147 | a step into an existing message keeps the object a tree and hands the edit on to that message |
| `MaskMemory.Create` | internal/masks/mask_path.go:142-144 | a step over a missing message field creates and stores an empty message, and hands the edit on to it |
| `MaskMemory.Store` | internal/masks/mask_path.go:149-152 | the last step stores or removes one field; a message shared with another object is left as it was |
| `MaskMemory.Set` | internal/masks/mask_path.go:133-174 | in place, with its loop, for every compiled field path: the object becomes the one written along the path; or it panics, exactly when there is another field than a message before the last, with the walk up to that field done and its default stored if it was not set; messages shared with another object stay as they are |
| `MaskWalk.ReachesEndIff` | internal/masks/mask_path.go:133-174 | a write along a compiled path gets to its last step exactly when the path goes through message fields only |
| `MaskWalk.PanickedWriteReads` | internal/masks/mask_path.go:142-147 | a write that panics leaves at the scalar what was there, or else its default, which is stored only with explicit presence |
| `MaskMemory.Clear` | internal/masks/mask_path.go:177-214 | in place, with its loop: the object becomes the one erased along the path, and no message is created; it panics, and changes nothing, exactly when a value other than a message is met before the last step |
| `MaskMemory.Get` | internal/masks/mask_path.go:100-130 | the loop returns what the path reads, or nothing exactly when the path reads nothing, and panics exactly when a value other than a message is met before the last step |
| `MaskMemory.IdleChangesNothing` | internal/masks/mask_path.go:133-214 | setting what is already there, or clearing what is not, changes nothing |
| `MaskMemory.ApplyPath` | internal/servers/generic_server.go:695-702 | one round of the update loop, for any compiled field path, edits the object and not the request, although the object may share messages with it; it panics, and changes nothing, exactly when the path cannot be walked on the request or on the object |
| `MaskMemory.ApplyMask` | internal/servers/generic_server.go:695-702 | for every compiled mask, overlapping paths included, the object becomes the one patched with the paths before the first that panics, all of them if none does, and the request keeps every field of every message |
| `MaskMemory.MaskAppliesIff` | internal/masks/mask_path.go:100-214 | a compiled mask never panics, whatever the object and the request, exactly when each of its paths goes through message fields only |
| `MaskMemory.Clone` | internal/servers/generic_server.go:684-686 | the copy stands for the same tree and consists of new messages only |
| `MaskMemory.Update` | internal/servers/generic_server.go:684-705 | the result is the patched object, or the request when there is no mask; there is none exactly when a path panics; and neither the stored object nor the request changes |
| `MaskMemory.ReachableIsWhole` | internal/servers/generic_server.go:684-686 | the messages that an object reaches form an object of its own, so copies can serve as requests |
| `MaskWalk.CompiledIff` | internal/masks/mask_path_compiler.go:70-133 | the field paths that some text compiles into are exactly those that follow the descriptor as the compiler moves it, which stays in place after a scalar |
| `MaskWalk.ReadIsTyped` | internal/masks/mask_path.go:100-130 | a compiled path that reads something in some message goes through message fields only |
| `MaskWalk.WalkableIffTyped` | internal/masks/mask_path.go:100-130 | a compiled path can be walked on every message of its descriptor exactly when it goes through message fields only |
| `MaskWalk.ScalarInTheMiddleExample` | internal/masks/mask_path_compiler.go:115-119 | "id.id" compiles for a scalar `id`, cannot be walked once `id` is set, and can while it is not |
| `MaskPipeline.Server.CompilePath` | internal/servers/generic_server.go:810-823 | the result is that of the compiler, cached or not |
| `MaskPipeline.Server.CompilePaths` | internal/servers/generic_server.go:798-808 | all the texts compile, or the error is that of the first that does not |
| `MaskPipeline.Server.PathsOfChange` | internal/masks/masks_calculator.go:47-50 | compiling the calculated texts gives back exactly the paths that the calculator walked |
| `MaskPipeline.Server.SendChange` | internal/servers/generic_server.go:684-705 | calculating, compiling and applying the mask of a change succeeds, puts exactly that change on whatever the object has become, and gives exactly the changed copy when the object is still what it was; neither the stored object nor the request changes |
| `MaskCompiler.TrimChunks` | internal/masks/mask_path_compiler.go:137-139 | every chunk is trimmed in place |
| `MaskCompiler.CollectChunks` | internal/masks/mask_path_compiler.go:140-146 | the non-empty chunks remain, in order |
| `MaskCompiler.SplitPath` | internal/masks/mask_path_compiler.go:135-147 | the result is the trimmed, non-empty segments of the text |
| `MaskCompiler.CompileStep` | internal/masks/mask_path_compiler.go:76-121 | one round consumes one or two segments and yields the step and descriptor that the resolution of the text asks for, or its error |
| `MaskCompiler.Compile` | internal/masks/mask_path_compiler.go:70-133 | the loop yields the steps, or the first error, that the resolution of the text yields |
| `MaskCompiler.CompilePrint` | internal/masks/mask_path_compiler.go:70-147 | compiling the printed form of any step sequence that a text can denote gives back those steps |
| `MaskCompiler.CompileNormalizes` | internal/masks/mask_path_compiler.go:70-147 | whatever compiles gives such a step sequence, and compiling its printed form gives it again |
| `MaskCompiler.CompileIff` | internal/masks/mask_path_compiler.go:70-133 | a text compiles into some steps exactly when they follow the descriptor and its segments spell them, names and keys as they are and indices in decimal |
| `MaskCompiler.StepsFollowDescriptors` | internal/masks/mask_path_compiler.go:86-119 | the segment after a message, an item of a list of messages or an entry of a map of messages is looked up in that type of message, and any other in the same descriptor |
| `MaskCompiler.CalculatedPathsCompile` | internal/masks/masks_calculator.go:61-65 | every text the calculator emits compiles without error into field steps that name exactly the walked fields in order |
| `ConsoleSessions.RunInv` | internal/console/manager.go:109-240 | every reachable state of every run keeps the lock exclusive, the map keyed by its sessions, and every unregistered session cancelled or owed a cancel |
| `ConsoleSessions.AdmissionIff` | internal/console/manager.go:123-141 | over all runs, a request with the lock gets a free console; a session of the same user and non-empty client makes way for it; any other session keeps the console and the request is refused |
| `ConsoleSessions.AtMostOneLiveSession` | internal/console/manager.go:109-182 | in every reachable state a console has at most one session that is neither cancelled nor owed a cancel |
| `ConsoleSessions.QuietStateHasNoStrays` | internal/console/manager.go:109-240 | when no call is in flight every session outside the map is cancelled |
| `ConsoleSessions.RemovalHasACause` | internal/console/manager.go:123-172 | a session leaves the map only by its own failed dial, its own Close, or the return of the same user with the same non-empty client identifier |
| `ConsoleSessions.CancelHasACause` | internal/console/manager.go:109-240 | a session is cancelled only by expiring, by its own failed dial or Close, by the sweep, or by the eviction in favour of another session of the same console, user and non-empty client identifier |
| `ConsoleSessions.RemovalIsFinal` | internal/console/manager.go:207-213 | a session that left the map never returns |
| `ConsoleSessions.LateCloseIsHarmless` | internal/console/manager.go:207-240 | the late Close of an evicted session removes nothing, so not its successor |
| `ConsoleSessions.SweepCancelsAll` | internal/console/manager.go:195-205 | when the sweep releases the lock, every registered session is cancelled |
| `ConsoleSessions.SecondCloseChangesNothing` | internal/console/manager.go:223-240 | closing a connection again, at any later time and by anybody, changes nothing |
| `ConsoleSessions.CloseRunsOnce` | internal/console/manager.go:223-240 | no two goroutines are ever inside the close of one connection |
| `ConsoleSessions.Manager.Register` | internal/console/manager.go:123-154 | a free console is registered; the session of the same user and non-empty client is evicted; any other one is named in the refusal, which changes nothing |
| `ConsoleSessions.Manager.Connect` | internal/console/manager.go:109-182 | the error cases change nothing, and "session exists" is answered exactly when the console is taken by another user or client, or the request has no client identifier; a failed dial leaves neither the new nor the evicted session registered; a good one replaces the evicted session |
| `ConsoleSessions.Manager.CancelSessions` | internal/console/manager.go:195-205 | exactly the registered sessions are cancelled and all stay registered |
| `JwksCache.LastUsableKeyWins` | internal/auth/auth_jwks_cache.go:600-632 | an identifier has a key exactly when it is not empty and some key with it can be parsed, and it is that of the last such one |
| `JwksCache.RunInv` | internal/auth/auth_jwks_cache.go:362-462 | every reachable state of every run keeps the per-issuer locks exclusive, the cache equal to the recorded loads and the refresh times spaced |
| `JwksCache.CacheIsLastLoad` | internal/auth/auth_jwks_cache.go:429-462 | in every reachable state the entries of each issuer are exactly the usable keys of its last completed successful load in the run; failed loads and other issuers have no part in it |
| `JwksCache.UntrustedIssuersHaveNoKeys` | internal/auth/auth_jwks_cache.go:362-368 | no entry ever exists for an issuer that is not trusted |
| `JwksCache.LoadsAreThrottled` | internal/auth/auth_jwks_cache.go:449-454 | a load starts only more than the minimum TTL after every earlier successful refresh of that issuer |
| `JwksCache.LoadsIff` | internal/auth/auth_jwks_cache.go:449-462 | over all runs, a refresh with the lock loads exactly when the minimum TTL is less than the largest duration and more than that has passed since every successful refresh of the issuer |
| `JwksCache.SuccessIsStampedNow` | internal/auth/auth_jwks_cache.go:459-461 | a successful refresh is recorded with the time at which it is over |
| `JwksCache.NothingIsEverLoaded` | internal/auth/auth_jwks_cache.go:114-120 | with the largest duration as minimum TTL no run ever starts a load, and the cache stays empty |
| `JwksCache.FirstRefreshLoads` | internal/auth/auth_jwks_cache.go:449-462 | with any smaller one there is a run that puts any given key of any trusted issuer in the cache |
| `JwksCache.KeysCanBeLoadedIff` | internal/auth/auth_jwks_cache.go:112-120 | some run fills the cache exactly when the minimum TTL is less than the largest duration |
| `JwksCache.RefreshesPerWindow` | internal/auth/auth_jwks_cache.go:446-462 | with a positive minimum TTL, a window of length W holds at most floor(W / minTTL) + 1 successful refreshes of an issuer |
| `JwksCache.Cache.Refresh` | internal/auth/auth_jwks_cache.go:449-462 | no more than the minimum TTL after the stamp nothing is loaded and nothing changes, without error; a failed load changes nothing; a good one replaces exactly the entries of the issuer and stamps it |
| `JwksCache.Cache.Get` | internal/auth/auth_jwks_cache.go:362-411 | an untrusted issuer is refused; a cached key is returned at once, with a background refresh exactly when older than the maximum TTL; otherwise the answer is that of the cache after the refresh, or the load error; the cache and the stamp change exactly when a load is let through and succeeds |
| `JwksCache.Cache.ReadKeys` | internal/auth/auth_jwks_cache.go:600-632 | the loop collects exactly the keys that `LastUsableKeyWins` describes |
| `JwksCache.Cache.DeleteEntries` | internal/auth/auth_jwks_cache.go:432-436 | deleting while iterating removes all the entries of the issuer and no other |
| `JwksCache.Cache.ReplaceEntries` | internal/auth/auth_jwks_cache.go:429-444 | the entries of the issuer become exactly the given keys and those of other issuers stay |
| `TokenCache.RunInv` | internal/auth/auth_jwt_validator.go:191-270 | every reachable state of every run keeps cached deadlines a function of the bearer string and the cleanup lock exclusive |
| `TokenCache.ReturnedTokensAreValid` | internal/auth/auth_jwt_validator.go:191-240 | every token returned was fully validated by an earlier step for the same bearer string, and a cached one is returned no later than its expiration plus the leeway |
| `TokenCache.OnlyExpiredEntriesAreRemoved` | internal/auth/auth_jwt_validator.go:198-270 | no interleaving of validations and cleanups removes an entry that is not past its deadline |
| `TokenCache.StoredTokenStays` | internal/auth/auth_jwt_validator.go:230-238 | a token that was stored is in the cache until its expiration plus the leeway has passed, whatever cleanups run |
| `TokenCache.CachedTokenIsUsedIff` | internal/auth/auth_jwt_validator.go:194-206 | a call that finds the token in the cache returns it exactly when that time has not passed, and otherwise, or when it finds none, validates it again |
| `TokenCache.VisitedIsRemovedIff` | internal/auth/auth_jwt_validator.go:261-270 | a cleanup removes an entry that it visits exactly when the entry is past that time |
| `TokenCache.AtMostOneCleanup` | internal/auth/auth_jwt_validator.go:244-258 | at most one goroutine is between taking the cleanup lock and releasing it |
| `TokenCache.CleanupRunsAreApartIff` | internal/auth/auth_jwt_validator.go:109-112 | for a positive interval, cleanup runs are at least the interval apart, in all runs of the protocol with at most n goroutines inside `maybeCleanup` and at most d between the decision on a cleanup and its run, exactly when n is zero, or n is one and d is zero |
| `TokenCache.LoneRunsAreApart` | internal/auth/auth_jwt_validator.go:244-270 | with one goroutine at a time in it and such a bound d, cleanup runs are at least the interval less d apart |
| `TokenCache.LateRun` | internal/auth/auth_jwt_validator.go:244-270 | for every d up to the interval that distance is reached |
| `TokenCache.CleanupsAreSpacedIff` | internal/auth/auth_jwt_validator.go:244-258 | for a positive interval, no decision on a cleanup is ever less than the interval after the last one, in the runs with at most n goroutines inside `maybeCleanup` at a time, exactly when n is at most one |
| `TokenCache.LoneCleanupsAreSpaced` | internal/auth/auth_jwt_validator.go:244-258 | with one goroutine at a time in it, nobody decides on a cleanup less than the interval after the last one |
| `TokenCache.UnracedCleanupsAreSpaced` | internal/auth/auth_jwt_validator.go:244-258 | however many goroutines race, one between whose check and start no other cleanup starts keeps the interval |
| `TokenCache.CleanupsCanCrowd` | internal/auth/auth_jwt_validator.go:244-258 | for every positive interval there is a run with two goroutines that check before either starts: the second decision comes too soon, and the two cleanups run at the same time |
| `TokenCache.Validator.DoCleanup` | internal/auth/auth_jwt_validator.go:261-270 | exactly the entries past their deadline go and the others keep their deadline |
| `Groups.NormalisationsAgree` | internal/idp/groups.go:67-72 | the key that CreateGroup recomputes equals the last path accumulated by the segment loop, for every path on which the hierarchy is built, so "ID not found in cache" is unreachable |
| `Groups.TrimSlashesTakesOnlySlashes` | internal/idp/groups.go:123-123 | the text is slashes, the trimmed text and slashes |
| `Groups.CollapseHalvesRuns` | internal/idp/groups.go:124-124 | one pass of the replacement halves a run of slashes, rounding up |
| `Groups.CreateSegmentsAreEmptyIff` | internal/idp/groups.go:123-131 | the path is rejected as empty exactly when nothing is left after trimming slashes |
| `Groups.SegmentsAgreeIff` | internal/idp/groups.go:270-298 | creation and lookup walk the same segments exactly when the trimmed path has no double slash |
| `Groups.LookupAgreesIff` | internal/idp/groups.go:270-298 | once created, a group is found by its path exactly when the trimmed path has no double slash |
| `Groups.LookupDisagreesExample` | internal/idp/groups.go:270-298 | for "/a//b" the created group is not the one the lookup walks to |
| `Groups.PathIsUnique` | internal/idp/groups.go:119-176 | two sequences of segments that lead to the same group are the same |
| `Groups.CreationAddsExactlyTheMissing` | internal/idp/groups.go:119-176 | a creation that succeeds has a new group for exactly the prefixes of the path that were missing |
| `Groups.CreationIsIdempotent` | internal/idp/groups.go:43-81 | creating an existing group changes no group and leads to the same identifier |
| `Groups.Client.Create` | internal/idp/groups.go:180-221 | a request adds one group with a fresh identifier, or reports a conflict exactly when a sibling has the name, or fails; the last two change nothing |
| `Groups.Client.List` | internal/idp/groups.go:225-243 | the children of a group, all of them and only them |
| `Groups.Client.GetGroupIDByName` | internal/idp/groups.go:225-258 | the loop finds the child with that name if there is one |
| `Groups.Client.EnsureSegment` | internal/idp/groups.go:146-167 | one segment is created or looked up, existing groups stay, and the identifier is that of the group at the path so far |
| `Groups.Client.NextSegment` | internal/idp/groups.go:136-173 | one round of the loop, cache included, leaves the cache right about the tree and holding the path so far |
| `Groups.Client.EnsureSegments` | internal/idp/groups.go:119-176 | the loop leaves every existing group as it was, adds groups only at missing prefixes of the path, and caches the identifier of the group at the path |
| `Groups.Client.EnsureGroupHierarchy` | internal/idp/groups.go:119-176 | the same for a path text; an empty path is rejected and changes nothing |
| `Groups.Client.CreateGroup` | internal/idp/groups.go:43-81 | the identifier returned is that of the group at the normalised path; existing groups keep their identifiers; only missing prefixes are added; it fails only for an empty path or when one of its own requests fails |
| `Groups.Client.GetGroupIDByPath` | internal/idp/groups.go:270-316 | the walk finds the group at the trimmed path, or none when some segment has no group |
| `Transactions.ErrorFreeIff` | internal/database/database_tx_manager.go:183-308 | the transaction ends with no recorded error exactly when no depth of the task reported one, returned one or panicked, and none failed to start |
| `Transactions.FailedTaskPersistsNothing` | internal/database/database_tx_manager.go:111-128 | a task that panics, returns an error or is rejected persists nothing and makes Run return an error, whatever it did before and whatever the database answers |
| `Transactions.FailedNestedTaskPersistsNothing` | internal/database/database_tx_manager.go:189-195 | a nested task that panics, returns an error or is rejected makes the whole transaction persist nothing, although the outer task goes on |
| `Transactions.RunFailsIff` | internal/database/database_tx_manager.go:111-144 | Run returns an error exactly when the task itself fails, or the transaction that it opened cannot be committed when nothing went wrong, or cannot be rolled back when something did |
| `Transactions.PersistedIsWhatRan` | internal/database/database_tx_manager.go:111-206 | read off the trace: the durable writes are those of the statements that were sent in a transaction, when nothing went wrong at any depth, none of them failed in the database and the commit succeeded; otherwise there are none |
| `Transactions.WritesPersistIff` | internal/database/database_tx_manager.go:111-206 | all the writes of the trace become durable exactly when there are none, or nothing went wrong at any depth, every statement was sent in a transaction and succeeded, and the commit succeeded |
| `Transactions.CleanTaskPersistsEverything` | internal/database/database_tx_manager.go:111-128 | a task in which nothing goes wrong and every statement runs and succeeds persists all its writes, nested ones included, in order |
| `Transactions.NoErrorButRolledBack` | internal/database/database_tx_manager.go:111-128 | a task that reports an error and returns none makes Run return no error although the write is rolled back |
| `Transactions.NoErrorButPartlyPersisted` | internal/database/database_tx_manager.go:174-206 | a task that goes on after a failed begin makes Run return no error although one of its two writes is missing |
| `Transactions.NoErrorButRefused` | internal/database/database_tx_manager.go:174-181 | so does one that goes on after a statement that was refused before it was sent |
| `Transactions.NoErrorMeansPersistedIff` | internal/database/database_tx_manager.go:111-206 | when Run returns no error, all the writes of the trace are durable exactly if there are none, or the task reported no error on the way and every statement was sent in a transaction |
| `Transactions.ManagedTx.EnsureReal` | internal/database/database_tx_manager.go:198-206 | a real transaction is begun only if there is none yet |
| `Transactions.ManagedTx.Exec` | internal/database/database_tx_manager.go:174-181 | the real transaction is begun if there is none; then the write becomes pending, or the transaction aborted when the statement fails in the database, or nothing happens when it is refused before it is sent |
| `Transactions.ManagedTx.RunTask` | internal/database/database_tx_manager.go:221-308 | every task trace, panics included, leaves the transaction in the state that the trace denotes and yields the task's error |
| `Transactions.ManagedTx.RunOp` | internal/database/database_tx_manager.go:155-195 | one operation of a task, nested runs included, leaves the state that the trace denotes |
| `Transactions.ManagedTx.Run` | internal/database/database_tx_manager.go:189-195 | a nested run works in the same transaction and records its error there |
| `Transactions.ManagedTx.End` | internal/database/database_tx_manager.go:130-144 | without a real transaction nothing happens; otherwise it is ended once, committed exactly if no error was recorded |
| `Transactions.RunInNewTx` | internal/database/database_tx_manager.go:111-128 | at most one real transaction is begun, what is begun is ended once, and the durable writes are those that `WritesPersistIff` is about |
| `Transactions.WithNewTx` | internal/database/database_tx_scope.go:26-53 | the same decision; without a manager nothing is touched; a panic is raised again after the rollback |
| `Outbox.RunInv` | internal/database/database_notifier.go:117-213 | every reachable state of every run keeps identifiers fresh, rows as committed and notifications in flight unique |
| `Outbox.CommittedRowWasNotified` | internal/database/database_notifier.go:117-165 | every committed row was passed to Notify in a transaction that committed later in the run |
| `Outbox.DeliveredWasCommitted` | internal/database/database_listener.go:278-360 | every payload given to the callback was passed to Notify, with that identifier, in a transaction that committed before |
| `Outbox.RolledBackIsNeverDelivered` | internal/database/database_notifier.go:117-165 | what was notified in a transaction that rolled back is never delivered |
| `Outbox.FailedNotifyDooms` | internal/database/database_notifier.go:117-165 | a transaction in which a notification failed cannot commit |
| `Outbox.DeliveredAtMostOnce` | internal/database/database_listener.go:267-360 | no notification is delivered twice, over all reconnections |
| `Outbox.ProcessedWithinAMinuteIsDelivered` | internal/database/database_notifier.go:195-196 | a notification whose row is fetched and decoded within one minute of the creation timestamp of the row finds it and delivers the committed payload, whatever cleanups ran |
| `Outbox.RowAgesFromTransactionStart` | internal/database/database_notifier.go:117-165 | that timestamp is the start of the transaction, not the commit |
| `Outbox.NotificationIsAccountedFor` | internal/database/database_listener.go:257-360 | while the listener stays connected after a commit, each notification of the transaction is on its way, was delivered, was processed more than a minute after the creation of its row, or was lost because the row could not be fetched or decoded |
| `Outbox.DeliveriesKeepOrder` | internal/database/database_listener.go:257-360 | over all runs the callback gets payloads in the order of the commits and, within a transaction, of its notifications, whatever was lost in between |
| `Outbox.AnnouncedInCallOrder` | internal/database/database_notifier.go:117-165 | the notifications of a transaction are in the order of its calls to Notify |
| `ListenLoop.NewConnectionIff` | internal/database/database_listener.go:172-209 | the next wait is on a new connection exactly when the last one ended with an error other than the deadline and a cancellation |
| `ListenLoop.RetriesSleepFirst` | internal/database/database_listener.go:195-230 | every connection but the first is attempted right after a sleep that was not interrupted, and every sleep follows a failed attempt or a broken wait |
| `ListenLoop.ListenInVain` | internal/database/database_listener.go:145-209 | for every n, Listen goes through n deadlines in a row on its first connection when nothing arrives, and is still listening and ready |
| `ListenLoop.ReturnsIff` | internal/database/database_listener.go:145-276 | once the context of the caller is done, Listen returns, after at most one more failed attempt, exactly if the context was cancelled or the listener is not waiting; otherwise every further wait ends at the deadline |
| `ListenLoop.Listener.Attempt` | internal/database/database_listener.go:234-253 | every attempt replaces the connection and succeeds exactly when connecting and listening do |
| `ListenLoop.Listener.Connect` | internal/database/database_listener.go:213-230 | the loop ends with a connection that listens, or because a sleep was cancelled |
| `ListenLoop.Listener.WaitLoop` | internal/database/database_listener.go:257-276 | the loop processes notifications and ends with the first wait that brings none |
| `ListenLoop.Listener.Listen` | internal/database/database_listener.go:145-209 | what happens is exactly the behaviour that the answers of connecting, waiting and sleeping lead to, until it returns or the answers end; it is ready exactly while it waits on a connection |
| `JsonEncoder.ParseRender` | internal/json/json_encoder.go:163-329 | the token parser undoes the printing of every JSON value and leaves the following tokens alone |
| `JsonEncoder.IgnoringIsRemoving` | internal/json/json_encoder.go:163-208 | encoding with ignored fields succeeds, fails or panics, and gives the value, as encoding without them the message from which they were removed at every depth outside well-known types |
| `JsonDecoder.DecodeEncode` | internal/json/json_encoder.go:163-329 | whenever encoding succeeds, decoding the JSON by the types of the fields, looked up by text name, gives back the message without the ignored fields: every kind of value, list, map and nested message |
| `JsonDecoder.DecodeTokens` | internal/json/json_encoder.go:144-329 | so do the tokens that are written, once parsed |
| `JsonDecoder.EncodesIff` | internal/json/json_encoder.go:221-271 | encoding succeeds exactly when every float that is not ignored is finite, every enumeration number has a name or is zero, and every kind is known, at every depth |
| `JsonDecoder.WhatFailsHow` | internal/json/json_encoder.go:250-271 | an enumeration number without a name panics; the other failures are errors |
| `JsonDecoder.FirstBadFieldDecides` | internal/json/json_encoder.go:176-201 | the first field that is not ignored and cannot be encoded decides how the encoding ends |
| `JsonDecoder.StripKeepsTheOthers` | internal/json/json_encoder.go:177-179 | the fields that stay are exactly those whose name and full name are not ignored |
| `JsonDecoder.StripCleans` | internal/json/json_encoder.go:163-208 | what is left has no ignored field at any depth outside well-known types, and a message that has none stays as it is |
| `JsonEncoder.Encoder.MarshalMessage` | internal/json/json_encoder.go:163-208 | a message either appends exactly the tokens of its JSON value or fails in exactly the described cases |
| `JsonEncoder.Encoder.MarshalFields` | internal/json/json_encoder.go:170-207 | the field loop, its flag and its commas append exactly the object of the fields that are not ignored |
| `JsonEncoder.Encoder.MarshalEntry` | internal/json/json_encoder.go:180-197 | one field adds exactly one member; a hidden error of an earlier field comes out at the comma |
| `JsonEncoder.Encoder.MarshalValue` | internal/json/json_encoder.go:210-219 | a list, a map or a single value appends exactly its tokens |
| `JsonEncoder.Encoder.MarshalSingle` | internal/json/json_encoder.go:221-271 | each kind appends exactly its token, unknown enum numbers panic and unknown kinds fail |
| `JsonEncoder.Encoder.MarshalList` | internal/json/json_encoder.go:273-294 | the loop appends exactly the array of the items |
| `JsonEncoder.Encoder.MarshalMap` | internal/json/json_encoder.go:296-329 | the loop appends exactly the object of the entries |
| `JsonEncoder.Encoder.Marshal` | internal/json/json_encoder.go:144-161 | on success the tokens parse back to exactly the JSON value of the message, with nothing left over |
| `CoFiniteSets.NewSet` | internal/collections/sets.go:48-56 | the set is finite and has exactly the listed items |
| `CoFiniteSets.UnionMaps` | internal/collections/sets.go:279-288 | the two loops collect the union |
| `CoFiniteSets.IntersectMaps` | internal/collections/sets.go:290-299 | the loop collects the intersection |
| `CoFiniteSets.DiffMaps` | internal/collections/sets.go:301-310 | the loop collects the difference |
| `CoFiniteSets.Negate` | internal/collections/sets.go:134-139 | contains exactly what the set does not |
| `CoFiniteSets.Union` | internal/collections/sets.go:142-174 | contains exactly what one of the sets contains, for all four combinations of finite and infinite |
| `CoFiniteSets.Intersection` | internal/collections/sets.go:177-206 | contains exactly what both sets contain, for all four combinations |
| `CoFiniteSets.Difference` | internal/collections/sets.go:209-211 | contains exactly what the first contains and the second does not |
| `CoFiniteSets.Subset` | internal/collections/sets.go:214-257 | decides inclusion exactly unless an infinite set is compared with a finite one and their items make up the whole type; always for an infinite type |
| `CoFiniteSets.Equal` | internal/collections/sets.go:260-277 | decides, from the sizes and one inclusion, whether the elements are the same, exactly unless a finite and an infinite set split the whole type; always for an infinite type |
| `CoFiniteSets.FiniteTypeExample` | internal/collections/sets.go:234-263 | over the truth values the universal set and the finite set of both have the same elements, which is the case that Subset and Equal deny |
| `DeviceFlow.PollsAreBounded` | internal/oauth/oauth_device_flow.go:145-210 | with a positive interval I and lifetime E the loop polls at most floor(E / I) + 2 times, or once when E is negative, whatever the server replies and however long calls and sleeps take |
| `DeviceFlow.BoundIsTight` | internal/oauth/oauth_device_flow.go:145-210 | some server makes the loop poll exactly that often |
| `DeviceFlow.UnboundedWithoutInterval` | internal/oauth/oauth_device_flow.go:145-210 | without a positive interval, for every n some server is polled n times and the flow goes on |
| `DeviceFlow.PollsAreBoundedIff` | internal/oauth/oauth_device_flow.go:121-210 | the number of polls has a bound exactly when the interval is positive or the code is born expired |
| `DeviceFlow.GoesOnIff` | internal/oauth/oauth_device_flow.go:145-210 | within the lifetime of the code the loop goes on exactly after an unexpected error, "authorization_pending" and "slow_down" |
| `DeviceFlow.PollsAreSpaced` | internal/oauth/oauth_device_flow.go:145-210 | each poll is sent at least the interval after the last reply |
| `DeviceFlow.WhereDurationsComeFrom` | internal/oauth/oauth_device_flow.go:78-130 | the lifetime of the server wins over the configured one, the configured interval over that of the server, and five seconds is the last resort |
| `DeviceFlow.IntervalIsPositive` | internal/oauth/oauth_device_flow.go:121-130 | a configured interval that is not negative, and a server interval that fits 64-bit nanoseconds, give a positive interval |
| `DeviceFlow.WrappedIntervalExample` | internal/oauth/oauth_token_source.go:835-837 | a server interval of 9223372037 seconds overflows to a negative one, and the flow is then unbounded |
| `DeviceFlow.Flow.Run` | internal/oauth/oauth_device_flow.go:48-227 | a failed start sends no end; after a good start exactly one end event is sent when the flow returns, with outcome true exactly when a token was received; the loop stops at the first reply that ends it; the token and the error are determined, a denied request giving neither |
| `DeviceFlow.TokenSource.RunFlow` | internal/oauth/oauth_token_source.go:690-735 | success means a token that is already in the store; a token is returned exactly when discovery did not just fail, the flow received one and the store took it; otherwise nothing is saved |

## Left out

- Fields in a `oneof`: setting one member clears another, so field edits would not be independent.
- Index and key steps in `Path.Get`, `Path.Set` and `Path.Clear`: the calculator emits none; the compiler model covers them.
- `Path.String`, nil messages, unknown fields and extensions, and scalars that are not equal to themselves (NaN).
- MaskMemory.Store: the value that `Set` stores for a missing last field and overwrites in the same round is not modelled.
- JwksCache.CacheIsLastLoad: a load counts from the moment it replaces the entries; discovery of the key set address and the HTTP exchange are one step that succeeds or fails.
- Groups.Client.Create: stands for the identity provider; a create that fails is taken to leave the server unchanged, and the lookup of the organization and the parsing of the Location header are not modelled.
- Groups.Client.List: is taken to return all the children, while the code asks for one page of them.
- Groups.Client.constructor: assumes non-empty fresh identifiers and unique sibling names on the server.
- Outbox.DeliveredWasCommitted: assumes that PostgreSQL delivers notifications on commit and only then; payloads are opaque, and decoding one either succeeds or loses the notification.
- DeviceFlow.Flow.Run: does not increase the interval on `slow_down`, which section 3.5 of RFC 8628 asks for, because the code does not.
- The rest of `TokenSource.Token`: its last branch keeps the error of a failed refresh, so there is no clean statement to make.
- JSON at the level of characters: number formats, string escapes and base64 are inside tokens.
- Protobuf reflection, gRPC, HTTP, pgx, JWT parsing, RSA keys and OPA: their outcomes are chosen by actions or given as parameters.
- `TxInterceptor`, `ProjectGroupManager`, `TenantManager`, the reconciler and membership changes of groups.
- Builders, flags, logging, metrics, health checks, certificates, tenancy logic, subject JSON and schema checks.
