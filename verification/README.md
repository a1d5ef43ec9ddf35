# Verified models of the repository's stateful cores

This Dafny project models the parts of the repository in which something can go wrong between steps, and proves what
they keep:

- the event-stream hook of a loop and the task-polling hook, as transition systems with suspended continuations;
- the redaction of credentials in log text and log metadata, and the cycle-safe serializer, on arbitrary object graphs;
- nested reads and writes on a heap of mutable records, and the deep comparison;
- the Prisma schema parser against a printer, directory names, and the decoder of git's quoted paths;
- the work lock of the loops over a store with expiring keys, as a protocol of single commands;
- image sizes under a locked aspect ratio, and the session expiry that the browser and the routing guard must share;
- optimistic updates with rollback, the analytics queue, array combination, the dashboard's grouped views, and file
  chunks.

Imperative code is modelled by methods and classes whose `ensures` tie the new state to a function of the old one
(`Step`, `Deep`, `Serialized`, `SetKeys`, `Parsed`, ...); the theorems are lemmas about those functions, over every
input or every run. A run is a finite sequence of events, each of which the environment may produce only where it is
enabled; code between two suspension points is one step. Numbers are exact integers and reals, clocks are parameters,
and so are the JSON parser, the locale's string order, the hash function and the labels of phases.

What code and specification share, such as character classes, rules, constants and the keys of a lock, is pinned by theorems
that state it on characters, fields and events alone.

`dafny verify dfyconfig.toml` checks everything.

## Where the code does not do what it seems to promise

Each of these is a lemma with a concrete input or an exact condition.

- A token check during a pending connect makes two connects overlap: one stream is overwritten and is never closed by
  the hook, not even at disposal (`AdvanceStream.OverlapLeaks`, `AdvanceStream.LeakIsForever`). From then on, whenever it
  holds no stream, and only then, the hook can report a connection that it does not hold
  (`AdvanceStream.MisreportsNextIff`).
- A session of polls that has reported an outcome can report another one exactly while it has a request in flight
  (`TaskPolling.OutcomeRepeatsIff`), and a running session can end silently exactly while another session has one
  (`TaskPolling.EndsSilentlyIff`).
- A NaN in log metadata sets the changed flag and forces a copy (`DeepRedaction.NaNForcesCopy`).
- Writing below a property that holds a JSON text loses what could be read there (`ObjectPaths.JsonTextIsLost`), and a
  write changes an unrelated read in no other way (`ObjectPaths.UnrelatedReadIff`). Writes skip empty segments of a path
  and reads do not, so what is written at `a.` is not read there (`ObjectPaths.TrailingDotIsLost`,
  `ObjectPaths.ReadBackIff`).
- `isEqual` holds in one direction only exactly where the second object has properties of its own that are not undefined
  (`ObjectEquality.SymmetricIffExtrasUndefined`, with a witness in `ObjectEquality.UndefinedBreaksSymmetry`).
- Locked edits stay between 1 and the limits exactly if the quotient of the ratio's parts lies between 1/12480 and 12480
  (`AspectRatio.LockedEditsWithinIff`), so not for the ratio "16", whose missing part counts as 0
  (`AspectRatio.MissingPartLeavesRange`); they leave a side that is no number exactly for ratios without a quotient
  (`AspectRatio.EditLeavesSidesIff`).
- A session expiry given in seconds makes the routing guard turn away a valid client after one second
  (`TokenStorage.SecondsLockOut`).
- A field of a schema counts as id, unique or relation if the text of a comment or of an attribute's argument says so
  (`SchemaPrinter.FieldIsReadIffQuiet`, `SchemaPrinter.OneFieldIsInvertedIffQuiet`), and a line with a brace is not read,
  whatever it declares (`SchemaPrinter.LineIsReadIff`, `SchemaPrinter.BracedLinesAreSkipped`). A brace too many, in a
  comment for instance, loses the model it stands in or cuts it off (`SchemaBraces.ModelIsReportedIffClosed`,
  `SchemaBraces.ClosingLineTruncates`).
- Git's letter escapes are not decoded (`GitPath.RoundTripIff`).
- Once a lock of the Redis backend has expired while held, and only then, two calls can come to hold its key, and a call
  can delete it from under another one (`LoopsLock.ExclusiveIffSound`, `LoopsLock.StolenIffUnsound`). The ownership check
  of a release prevents the deletion only among calls that do not share a holder, not in the window between its two
  commands, and not in a rollback (`LoopsLock.OwnershipIsChecked`, `LoopsLock.SharedHolderSteals`,
  `LoopsLock.WindowSteals`, `LoopsLock.RollbackSteals`).
- A rollback never takes back the first optimistic value of an absent cache entry, so a list that was never fetched
  becomes an empty one; and two mutations that fail in the order of their start leave the failed update of the first in
  the cache (`OptimisticUpdate.AbsentEntryKeepsFirst`, `OptimisticUpdate.AbsentListBecomesEmpty`,
  `OptimisticUpdate.OverlapKeepsFailedUpdate`).
- Of a key that starts with a falsy array element, nothing is dropped as a duplicate
  (`ArrayCombine.CombinedHasFirstOfEachKey`).
- The fleet's blocked counts exceed the number of blocked loops exactly when ids are shared with a blocked loop, and the
  repository view and the board do not mean the same by "blocked" (`LoopFleet.BlockedAddUpIff`,
  `LoopAggregates.HaltedMeansStuck`).

## Model

| member | source | states |
|---|---|---|
| `UrlRedaction.ScannerIsThePattern` | apps/api/src/bootstrap/log-redaction.util.ts:16 | The greedy scanner finds a match exactly where the text reads as the declarative pattern, and that reading is unique |
| `UrlRedaction.RedactedIsClean` | apps/api/src/bootstrap/log-redaction.util.ts:19-21 | For every text, no credential URL starts anywhere in the output, not even across a mask |
| `UrlRedaction.UnchangedIffClean` | apps/api/src/bootstrap/log-redaction.util.ts:19-21 | A text is returned unchanged if and only if it holds no credential URL |
| `UrlRedaction.RedactIsIdempotent` | apps/api/src/bootstrap/log-redaction.util.ts:19-21 | Redacting twice is redacting once |
| `UrlRedaction.OnlyLoginsChange` | apps/api/src/bootstrap/log-redaction.util.ts:16-21 | Every text cuts into plain characters and leftmost credential URLs, and the output differs only in their logins |
| `UrlRedaction.LoginIsMasked` | apps/api/src/bootstrap/log-redaction.util.ts:16-21 | For a scheme of letters, digits, `+`, `.` and `-` that starts with a letter, a user without white space, `:`, `/` or `@` and a non-empty password without white space, `/` or `@`, and whatever stands behind the URL, user and password become `***` |
| `UrlRedaction.ChangedIffLogin` | apps/api/src/bootstrap/log-redaction.util.ts:16-21 | A text is changed if and only if such a URL starts somewhere in it |
| `UrlRedaction.NoLoginIsLeft` | apps/api/src/bootstrap/log-redaction.util.ts:19-21 | None starts anywhere in an output |
| `DeepRedaction.RedactDeep` | apps/api/src/bootstrap/log-redaction.util.ts:24-50 | The recursion with its copy-on-change loops computes the recursive specification on any heap, cyclic ones included |
| `DeepRedaction.LogRecord.RedactSecretUrls` | apps/api/src/bootstrap/log-redaction.util.ts:57-67 | Each field of the record is overwritten in place by its redaction where that differs, and no key changes |
| `DeepRedaction.RedactedPathByPath` | apps/api/src/bootstrap/log-redaction.util.ts:24-50 | Along every path: same shape, strings redacted down to depth 6, everything below untouched |
| `DeepRedaction.NoCredentialWithinDepth` | apps/api/src/bootstrap/log-redaction.util.ts:24-50 | No string reached at depth 6 or less holds a credential URL afterwards |
| `DeepRedaction.LooksDifferentIffSecret` | apps/api/src/bootstrap/log-redaction.util.ts:24-50 | The result is observably different exactly if a credential URL lies within the depth limit |
| `DeepRedaction.ChangedIffSecretOrNaN` | apps/api/src/bootstrap/log-redaction.util.ts:31-47 | The changed flag is set exactly if a credential URL, or a NaN one level deeper, is in reach |
| `DeepRedaction.FlagIsExactUnlessNaN` | apps/api/src/bootstrap/log-redaction.util.ts:31-47 | The flag agrees with the observable difference if and only if no NaN is in reach or a credential URL is |
| `DeepRedaction.NaNForcesCopy` | apps/api/src/bootstrap/log-redaction.util.ts:30-38 | An array holding only NaN is copied although nothing in it changes |
| `AdvanceStream.Hook.constructor` | apps/web/hooks/useLoopAdvanceSSE.ts:38-41 | The effect starts in a consistent state with the token check armed and the first connect waiting |
| `AdvanceStream.Hook.OnToken` | apps/web/hooks/useLoopAdvanceSSE.ts:60-75 | The rest of a connect after its token: opens a stream, gives up, or schedules a retry; consistency is kept |
| `AdvanceStream.Hook.OnOpen` | apps/web/hooks/useLoopAdvanceSSE.ts:72-75 | An opened stream resets the backoff and reports a connection |
| `AdvanceStream.Hook.OnError` | apps/web/hooks/useLoopAdvanceSSE.ts:89-94 | Only the referenced stream of a live hook is closed and retried |
| `AdvanceStream.Hook.OnRetryTimer` | apps/web/hooks/useLoopAdvanceSSE.ts:47-54 | The retry doubles the delay up to the cap and connects again |
| `AdvanceStream.Hook.OnTokenTick` | apps/web/hooks/useLoopAdvanceSSE.ts:100-102 | An expired token starts a connect, whether or not another one is waiting |
| `AdvanceStream.Hook.OnDispose` | apps/web/hooks/useLoopAdvanceSSE.ts:105-110 | Disposal clears both timers and closes the referenced stream |
| `AdvanceStream.StepKeepsConsistent` | apps/web/hooks/useLoopAdvanceSSE.ts:38-110 | Every step keeps: at most one retry armed, the timers agree with the flags, the referenced stream is open |
| `AdvanceStream.LiveStreams` | apps/web/hooks/useLoopAdvanceSSE.ts:42-98 | In every run the streams created and not closed number one if the reference is set, plus the overwritten references |
| `AdvanceStream.OneStreamAtATime` | apps/web/hooks/useLoopAdvanceSSE.ts:42-110 | If no connect starts while another waits, at most one stream is open, it is the referenced one, and disposal leaves none |
| `AdvanceStream.ConnectedMeansStream` | apps/web/hooks/useLoopAdvanceSSE.ts:56-94 | In such runs a live hook reports a connection only while it holds a stream |
| `AdvanceStream.MisreportsNextIff` | apps/web/hooks/useLoopAdvanceSSE.ts:56-94 | In every run, a live hook can come to report a connection that it does not hold if and only if it holds no stream and has overwritten one |
| `AdvanceStream.DisposalLeavesTheOverwritten` | apps/web/hooks/useLoopAdvanceSSE.ts:105-110 | After disposal exactly the overwritten streams are still open |
| `AdvanceStream.OverlapLeaks` | apps/web/hooks/useLoopAdvanceSSE.ts:56-102 | A concrete run in which two connects overlap, a stream survives disposal, and a connection is reported that is not held |
| `AdvanceStream.LeakIsForever` | apps/web/hooks/useLoopAdvanceSSE.ts:42-98 | An overwritten stream stays open for the rest of any run |
| `AdvanceStream.NothingAfterDisposal` | apps/web/hooks/useLoopAdvanceSSE.ts:47-62 | From disposal on no stream is created or closed and no timer is armed, whatever connects were pending |
| `AdvanceStream.BackoffDoubles` | apps/web/hooks/useLoopAdvanceSSE.ts:47-54 | In every run the delay is the initial one times two to the number of retries since the last open, capped |
| `AdvanceStream.OneRetryWithBackoff` | apps/web/hooks/useLoopAdvanceSSE.ts:47-54 | At most one retry is pending, and a newly armed one waits for the current backoff delay |
| `AdvanceStream.IdleOnlyWithoutToken` | apps/web/hooks/useLoopAdvanceSSE.ts:56-97 | A live hook with no stream, no waiting connect and no retry was refused a token by its last connect |
| `AdvanceStream.ExpiryEndsTheStream` | apps/web/hooks/useLoopAdvanceSSE.ts:56-102 | In every run, an expired token closes the referenced stream and no other, withdraws the connection and awaits a fresh token |
| `AdvanceStream.CurrentIsFresh` | apps/web/hooks/useLoopAdvanceSSE.ts:56-102 | In every run, the referenced stream was created after the last time that a token was found to have expired |
| `AdvanceStream.EveryConnectAwaitsAToken` | apps/web/hooks/useLoopAdvanceSSE.ts:45-103 | The awaits, those pending and those over, number one more than the retries that fired and the expired tokens |
| `AdvanceStream.StreamsAreTokens` | apps/web/hooks/useLoopAdvanceSSE.ts:60-71 | One stream is created for each token that arrives before disposal, and no other |
| `AdvanceStream.RetriesAreFailures` | apps/web/hooks/useLoopAdvanceSSE.ts:47-98 | Up to disposal, one retry is armed for each failed await or error of the referenced stream while none is pending, and no other; a refused token arms none |
| `AdvanceStream.ConnectedIffOpened` | apps/web/hooks/useLoopAdvanceSSE.ts:56-98 | A connection is reported exactly from the opening of a stream to the next connect or the error of the referenced stream |
| `TaskPolling.TaskHook.StopPolling` | apps/web/hooks/useTask.ts:198-207 | Clears the interval, the polling flag and the counter together |
| `TaskPolling.TaskHook.Poll` | apps/web/hooks/useTask.ts:236-256 | A poll issues one request, or at the limit stops and reports the timeout |
| `TaskPolling.TaskHook.StartPolling` | apps/web/hooks/useTask.ts:224-234 | Starts a session with an immediate poll unless one is running |
| `TaskPolling.TaskHook.OnTick` | apps/web/hooks/useTask.ts:389-393 | The interval polls for the session that armed it, with or without requests in flight |
| `TaskPolling.TaskHook.OnResponse` | apps/web/hooks/useTask.ts:256-386 | An answer of any session continues, or stops the hook and reports success or failure |
| `TaskPolling.TaskHook.OnStop` | apps/web/hooks/useTask.ts:198-221 | A stop or reset ends the session and reports nothing |
| `TaskPolling.RunIsBalanced` | apps/web/hooks/useTask.ts:198-393 | In every run: interval set exactly while polling, requests, ticks and outcomes of each session in balance with the state |
| `TaskPolling.SessionsAreBounded` | apps/web/hooks/useTask.ts:236-256 | With limit N a session issues at most N requests and ends within N ticks after its immediate poll, in any response order |
| `TaskPolling.LimitShownOnlyAfterTimeout` | apps/web/hooks/useTask.ts:239-251 | The limit is shown as reached only if the newest session timed out |
| `TaskPolling.LimitShownIff` | apps/web/hooks/useTask.ts:198-256 | In every run, the limit is shown as reached if and only if the newest session timed out and the user has not reset the hook since |
| `TaskPolling.TimeoutSpendsTheLimit` | apps/web/hooks/useTask.ts:236-256 | A session that timed out issued exactly as many requests as the limit allows |
| `TaskPolling.OutcomesAreAnswers` | apps/web/hooks/useTask.ts:256-386 | In every run, the successes reported of a session number its successful answers, the failures its failed and throwing ones, and with the timeouts these are all its outcomes |
| `TaskPolling.OneOutcomePerSession` | apps/web/hooks/useTask.ts:224-393 | If every request settles before the next poll, a session reports at most once, and exactly once unless stopped by the user |
| `TaskPolling.NothingFollowsTheOutcome` | apps/web/hooks/useTask.ts:224-393 | After its outcome such a session issues no request, gets no tick and reports nothing |
| `TaskPolling.OutcomeRepeatsIff` | apps/web/hooks/useTask.ts:256-386 | In every run, a session that has reported an outcome can report another one if and only if it has a request in flight |
| `TaskPolling.SequentialOutcomeIsFinal` | apps/web/hooks/useTask.ts:224-393 | The outcome of a session whose requests settled before the next poll is its only one, however the run goes on |
| `TaskPolling.OverlapReportsTwice` | apps/web/hooks/useTask.ts:256-307 | A witness: two polls in flight that both succeed |
| `TaskPolling.EndsSilentlyIff` | apps/web/hooks/useTask.ts:198-207 | In every run, a running session can end without a report and without the user if and only if another session has a request in flight |
| `TaskPolling.CleanSessionsReport` | apps/web/hooks/useTask.ts:198-393 | If no session starts while a request is in flight, every session that is over reported or was stopped |
| `TaskPolling.LateAnswerEndsNextSession` | apps/web/hooks/useTask.ts:198-207 | A witness: a late answer of a stopped session ends the next one, which never reports |
| `GraphSerializer.Serializer.Serialize` | packages/utils/bigint.util.ts:72-107 | The traversal terminates on every graph, computes the specification and leaves `seen` as it was |
| `GraphSerializer.SerializedPathByPath` | packages/utils/bigint.util.ts:77-103 | '[Circular]' exactly where an object is its own ancestor on the path, nothing behind it, the converted graph elsewhere |
| `GraphSerializer.PlainIffAcyclic` | packages/utils/bigint.util.ts:72-107 | The output is the plain unfolding if and only if no cycle is in reach; sharing is not marked |
| `GraphSerializer.MarkersAreClosings` | packages/utils/bigint.util.ts:78-80 | A marker in the output is a closing object, or that text stood in the input |
| `ObjectPaths.Store.SetNestedValue` | packages/utils/object.util.ts:77-104 | The loop over the path changes the heap as the recursive specification says, empty segments included |
| `ObjectPaths.GetValueIsGetAll` | packages/utils/object.util.ts:31-46 | A read by name is the reduction over its segments, with or without dots |
| `ObjectPaths.WriteKeepsClosed` | packages/utils/object.util.ts:87-103 | A write leaves no dangling reference and only adds records |
| `ObjectPaths.WriteFrame` | packages/utils/object.util.ts:87-103 | A write changes no record but those passed on the way, for any path |
| `ObjectPaths.ReadBack` | packages/utils/object.util.ts:31-104 | Reading the written path gives the non-blank value back, if the path has no empty segment and the records passed are pairwise different |
| `ObjectPaths.ReadBackIff` | packages/utils/object.util.ts:31-104 | Where no property, stored or parsed, has an empty name, and the records passed are pairwise different, it does so if and only if the path has no empty segment |
| `ObjectPaths.TrailingDotIsLost` | packages/utils/object.util.ts:89-103 | A witness: what is written at `a.` in an empty record reads as null there |
| `ObjectPaths.ReadBackIffFilled` | packages/utils/object.util.ts:31-104 | What is written under a name without dots is read back if and only if it is null or, afterwards, filled: true or false, a number other than 0, a text that is not all white space, a non-empty array or record |
| `ObjectPaths.PropertyIsRead` | packages/utils/object.util.ts:31-46 | A property is read as it is if it is filled, and as null otherwise |
| `ObjectPaths.TextIsRead` | packages/utils/object.util.ts:31-46 | In a text, be it a part of another text, a property is read if the text parses to a record in which it is filled, and as null otherwise |
| `ObjectPaths.LastWriteWins` | packages/utils/object.util.ts:77-104 | A second write to any path whose records are pairwise different leaves the heap that it would have left without the first |
| `ObjectPaths.UnsharedHasPlainWays` | packages/utils/object.util.ts:87-98 | On unshared trees every path, empty segments included, passes pairwise different records |
| `ObjectPaths.UnrelatedRead` | packages/utils/object.util.ts:31-104 | If no written segment is empty, a read that forks off is unchanged exactly if no record was created above the fork or it gave null anyway |
| `ObjectPaths.UnrelatedReadIff` | packages/utils/object.util.ts:31-104 | If no written segment is empty, it is changed exactly if the write replaces, above the fork, the JSON text of a record in which the rest of the other path leads to a value |
| `ObjectPaths.UnrelatedReadWithoutJson` | packages/utils/object.util.ts:31-104 | If no written segment is empty, it is unchanged whenever the write replaces no string that holds the JSON text of a record |
| `ObjectPaths.JsonTextIsLost` | packages/utils/object.util.ts:91-97 | Writing over a JSON text loses what could be read in it |
| `ObjectEquality.CompareTrees` | packages/utils/object.util.ts:129-156 | The loop over the first object's keys decides the recursive comparison, in any order of enumeration |
| `ObjectEquality.StructuralIffComparable` | packages/utils/object.util.ts:129-156 | Comparison with a tree is structural equality if and only if the tree holds no NaN, array or undefined property |
| `ObjectEquality.EqualToItselfIffReflexive` | packages/utils/object.util.ts:129-138 | A tree equals a copy of itself if and only if it holds no NaN and no array |
| `ObjectEquality.SymmetricIffExtrasUndefined` | packages/utils/object.util.ts:129-156 | A tree that compares as equal does so the other way round if and only if, wherever both have a record, the properties that only the second names are undefined |
| `ObjectEquality.UndefinedBreaksSymmetry` | packages/utils/object.util.ts:139-154 | A witness: an undefined property against one of another name |
| `AspectRatio.SizeHook.constructor` | apps/web/hooks/useAspectRatioSize.ts:99-107 | The hook starts with the calculated size |
| `AspectRatio.SizeHook.HandleWidthChange` | apps/web/hooks/useAspectRatioSize.ts:120-144 | An invalid input changes nothing; otherwise the width is clamped and a locked height follows, for any two numbers as ratio |
| `AspectRatio.SizeHook.HandleHeightChange` | apps/web/hooks/useAspectRatioSize.ts:147-171 | The same for the height |
| `AspectRatio.EditLeavesSidesIff` | apps/web/hooks/useAspectRatioSize.ts:26-47 | Whatever the ratio, zero, negative, infinite or no number, a locked edit leaves two sides of at least 1 if and only if its parts have a quotient |
| `AspectRatio.PositiveSides` | apps/web/hooks/useAspectRatioSize.ts:50-74 | On positive ratios the hook starts with whole sides, those of the exact calculation |
| `AspectRatio.PositiveEdits` | apps/web/hooks/useAspectRatioSize.ts:120-171 | On positive ratios every edit turns whole sides into those of the exact calculation |
| `AspectRatio.LimitsAreSidesIff` | apps/web/hooks/useAspectRatioSize.ts:26-47 | For any two numbers as ratio, both limits are numbers of at least 1 if and only if the quotient of its parts lies between 1/12480 and 12480 |
| `AspectRatio.LockedEditsWithinIff` | apps/web/hooks/useAspectRatioSize.ts:120-171 | For any two numbers as ratio and any input, a locked edit of either side leaves both sides between 1 and their limits if and only if this holds |
| `AspectRatio.MissingPartLeavesRange` | apps/web/hooks/useAspectRatioSize.ts:6-9 | A witness: the ratio "16" limits the height to 0, and an edit leaves it at 1 |
| `AspectRatio.LimitsArePositive` | apps/web/hooks/useAspectRatioSize.ts:26-47 | On positive ratios the limits are at least 1 if and only if the ratio is at most 12480 to 1 either way |
| `AspectRatio.EditsStayWithin` | apps/web/hooks/useAspectRatioSize.ts:120-171 | So the exact edits on a positive ratio stay within the limits if and only if it is at most 12480 to 1 |
| `AspectRatio.HeightKeepsRatio` | apps/web/hooks/useAspectRatioSize.ts:134-141 | The cross products differ by at most half the longer ratio side if and only if the exact height is at least one half |
| `AspectRatio.WidthKeepsRatio` | apps/web/hooks/useAspectRatioSize.ts:161-168 | The same for the derived width |
| `AspectRatio.RoundedCrossProduct` | apps/web/hooks/useAspectRatioSize.ts:136 | Rounding a derived side errs by at most half of the other ratio side in the cross product |
| `AspectRatio.CalculatedLandscape` | apps/web/hooks/useAspectRatioSize.ts:59-63 | The three-way minimum of a landscape size is always the base size, 1024, 2048 or 4096 by the resolution and 2048 for any other |
| `AspectRatio.CalculatedPortrait` | apps/web/hooks/useAspectRatioSize.ts:64-73 | The same for a portrait size |
| `AspectRatio.LimitsOfTheLonger` | apps/web/hooks/useAspectRatioSize.ts:26-47 | The longer side may be 6240, the other what belongs to it by the ratio, or 6240 too |
| `AspectRatio.ExtremeLimits` | apps/web/hooks/useAspectRatioSize.ts:26-47 | An infinite or a vanishing ratio leaves 6240 for one side and nothing for the other |
| `AspectRatio.UnlockedEditsAreApart` | apps/web/hooks/useAspectRatioSize.ts:120-171 | Unlocked edits leave the other side alone, commute, and override earlier ones of the same side |
| `AspectRatio.EditedSideIsNearest` | apps/web/hooks/useAspectRatioSize.ts:120-171 | An edited side is the number entered, or the nearer of 1 and the limit |
| `ProxyAuth.LocaleInFront` | apps/web/lib/auth/proxy-auth.ts:4-10 | A locale in front of a path is stripped |
| `ProxyAuth.LocaleIsIgnored` | apps/web/lib/auth/proxy-auth.ts:7-22 | A locale in front does not change whether a path is public, unless a public path already has one |
| `ProxyAuth.PublicIff` | apps/web/lib/auth/proxy-auth.ts:5-22 | A path without a locale is public if and only if it is one of the four public paths or lies below one |
| `ProxyAuth.RedirectedIff` | apps/web/lib/auth/proxy-auth.ts:24-45 | A path is redirected if and only if it is not public and the cookies are not the mark 1 and a time in the future, in seconds below 10000000000 and else in milliseconds |
| `ProxyAuth.UnitsAgreeIff` | apps/web/lib/auth/proxy-auth.ts:12-14 | Seconds and milliseconds are taken for the same instant exactly at zero and from 10000000 seconds on |
| `TokenStorage.BrowserStorage.SetTokens` | apps/web/lib/storage/index.ts:114-122 | Stores the tokens and both cookies, which end with the session rounded up to whole seconds, one at least |
| `TokenStorage.BrowserStorage.IsTokenExpired` | apps/web/lib/storage/index.ts:156-161 | Decides expiry from the stored tokens without changing anything |
| `TokenStorage.BrowserStorage.ClearAll` | apps/web/lib/storage/index.ts:204-222 | Leaves neither tokens nor session cookies |
| `TokenStorage.CookiesLastAsTheSession` | apps/web/lib/storage/index.ts:114-122 | The cookies carry the mark and the end of the access token, and last as long as the session, explicit or by default, rounded up to whole seconds, or one second if it is over |
| `TokenStorage.ExpiredIff` | apps/web/lib/storage/index.ts:156-161 | Stored tokens are expired from the earlier of their ends on, and always if the access token has none |
| `TokenStorage.ClearedIsOver` | apps/web/lib/storage/index.ts:204-222 | After clearing, both the client and the guard take the session for over |
| `TokenStorage.GuardAgreesWithClient` | apps/web/lib/storage/index.ts:114-171 | With a future expiry in milliseconds the guard accepts whatever the client takes for valid; they differ at most in the last started second, never if the access token ends with the session |
| `TokenStorage.ValidTokensStayLoggedIn` | apps/web/lib/auth/proxy-auth.ts:37-45 | With such an expiry no path is redirected to the login while the client takes its tokens for valid |
| `TokenStorage.NeverLocksOutIff` | apps/web/lib/storage/index.ts:114-171 | For tokens of any kind the guard follows the client if and only if they end no later than the cookies |
| `TokenStorage.SecondsLockOut` | apps/web/lib/storage/index.ts:118-119 | An expiry in seconds makes the guard turn away a valid client after one second |
| `SchemaParser.CollectModelNames` | apps/api/scripts/generate-db-crud.js:75-84 | The first pass collects the names of all models, forward ones included |
| `SchemaParser.ReadLine` | apps/api/scripts/generate-db-crud.js:90-164 | One pass of the second loop is a step of the specification |
| `SchemaParser.ParseSchema` | apps/api/scripts/generate-db-crud.js:72-167 | The two passes compute the specification of the parser |
| `SchemaPatterns.ModelStartIff` | apps/api/scripts/generate-db-crud.js:94 | A line starts a model if and only if it is `model`, white space, a name of letters, digits and underscores, white space or none, and a brace |
| `SchemaPatterns.FieldLineIff` | apps/api/scripts/generate-db-crud.js:138 | A line is read as a field if and only if it is a name, white space and a type that white space or the end of the line ends |
| `SchemaPatterns.CompositeIff` | apps/api/scripts/generate-db-crud.js:128 | A line declares a composite key over a list if and only if that stands in brackets behind `@@unique(` |
| `SchemaPrinter.ParserReadsRevealed` | apps/api/scripts/generate-db-crud.js:72-167 | Parsing any printed schema, with padded fields, dotted attributes, arguments and comments, gives one record per model, in order: those of the schema in which marks in arguments and comments count as attributes and lines with braces as nothing |
| `SchemaPrinter.ParserInvertsPrinter` | apps/api/scripts/generate-db-crud.js:72-167 | If those texts feign no mark, these are the declared records: id or first unique field, uniques, composite keys, flags and relations; names are letters of either case, digits and underscores |
| `SchemaPrinter.FieldIsReadIffQuiet` | apps/api/scripts/generate-db-crud.js:137-163 | A field line adds what the field declares to every model if and only if no argument and no comment of it holds a mark that the field does not carry, but for a unique mark on an id and a relation mark beside a model's type |
| `SchemaPrinter.OneFieldIsInvertedIffQuiet` | apps/api/scripts/generate-db-crud.js:72-167 | For a model of one field, parsing inverts printing if and only if this holds |
| `SchemaPrinter.LineIsReadIff` | apps/api/scripts/generate-db-crud.js:109-125 | A line that a model meets at its own depth, starts no model and has something to declare is read if and only if it has no brace; with braces it is passed over exactly if it closes as many as it opens |
| `SchemaPrinter.BracedLinesAreSkipped` | apps/api/scripts/generate-db-crud.js:111-123 | A schema parses as if its lines with balanced braces were not there |
| `SchemaPrinter.ReorderingReorders` | apps/api/scripts/generate-db-crud.js:75-84 | Reordering the blocks of a printed schema only reorders the records |
| `SchemaBraces.ModelIsReportedIffClosed` | apps/api/scripts/generate-db-crud.js:94-123 | Whatever lines stand in a model, the models before and behind it are reported as ever, and the model is reported if and only if the braces up to the next model bring its depth to 0 |
| `SchemaBraces.ClosingLineTruncates` | apps/api/scripts/generate-db-crud.js:111-119 | A line that closes one brace too many ends its model: what follows, up to the next model, is not read |
| `SchemaBraces.NestedIsSkipped` | apps/api/scripts/generate-db-crud.js:109-123 | The lines of a nested block are not read, whatever they declare |
| `KebabNames.SameDirectoryIff` | apps/api/scripts/generate-db-crud.js:57-62 | Two models share a directory exactly if their names differ at most in the case of the first letter |
| `KebabNames.DirectoryTellsTheName` | apps/api/scripts/generate-db-crud.js:57-62 | A directory has no capitals, and a name that starts with a capital can be told from it |
| `GitPath.DecodeGitPath` | scripts/export-scaffold-for-create.js:47-67 | The loop decodes as specified; an unquoted line passes through |
| `GitPath.GoodRoundTrip` | scripts/export-scaffold-for-create.js:52-63 | Octal quoting of a path without letter escapes is undone, byte by byte |
| `GitPath.LetteredIsLost` | scripts/export-scaffold-for-create.js:53-62 | A path with a quote, a backslash or a control character from BEL to CR never comes back |
| `GitPath.RoundTripIff` | scripts/export-scaffold-for-create.js:47-67 | Decoding what git prints gives the path back if and only if it has none of those bytes |
| `GitPath.EscapeIsOctal` | scripts/export-scaffold-for-create.js:53-62 | In any text, a backslash and three digits from 0 to 7 make a byte, and any other backslash stays |
| `GitPath.UnquotedPasses` | scripts/export-scaffold-for-create.js:47-50 | A line is decoded if and only if it begins and ends with a quote |
| `OptimisticUpdate.QueryCache.OnMutate` | apps/web/lib/queries/optimistic-update.ts:44-58 | Saves the entry as the mutation's context and overwrites it at once, unless the updater returns undefined |
| `OptimisticUpdate.QueryCache.OnError` | apps/web/lib/queries/optimistic-update.ts:60-70 | Puts the saved entry back, unless it was absent |
| `OptimisticUpdate.QueryCache.OnSuccess` | apps/web/lib/queries/optimistic-update.ts:72-75 | A mutation that succeeds leaves the entry as it is |
| `OptimisticUpdate.BracketedFailuresRestore` | apps/web/lib/queries/optimistic-update.ts:44-70 | When mutations fail in reverse order of their start, the entry is restored if and only if it was populated or no updater makes a value of an absent entry |
| `OptimisticUpdate.AbsentEntryKeepsFirst` | apps/web/lib/queries/optimistic-update.ts:65-68 | An absent entry ends as the first value that an updater makes of it, and as absent if none does |
| `OptimisticUpdate.AbsentListBecomesEmpty` | apps/web/lib/queries/optimistic-update.ts:94-119 | A failed update or deletion turns a list that was never fetched into an empty one |
| `OptimisticUpdate.RollbackReturnsToStart` | apps/web/lib/queries/optimistic-update.ts:44-70 | A failing mutation puts back what the entry was when it began, whatever happened since, successes included |
| `OptimisticUpdate.SuccessIsFinal` | apps/web/lib/queries/optimistic-update.ts:60-75 | A mutation that succeeded changes nothing any more, and cannot be rolled back |
| `OptimisticUpdate.OverlapKeepsFailedUpdate` | apps/web/lib/queries/optimistic-update.ts:44-70 | Two mutations failing in order of their start restore a populated entry if and only if the first update was undefined or no change |
| `OptimisticUpdate.DeleteUndoesAdd` | apps/web/lib/queries/optimistic-update.ts:118-121 | Deleting an added item gives the list back, at either end, if and only if its id was new |
| `OptimisticUpdate.DeleteForgetsUpdate` | apps/web/lib/queries/optimistic-update.ts:94-121 | An update changes nothing of what deleting the same id leaves |
| `OptimisticUpdate.UpdatesCompose` | apps/web/lib/queries/optimistic-update.ts:94-99 | Updates of one id merge into one, updates of different ids commute |
| `OptimisticUpdate.UpdateOverwrites` | apps/web/lib/queries/optimistic-update.ts:94-99 | An update takes its properties over into the items with its id, whose other properties stay, and changes no others |
| `OptimisticUpdate.DeletionKeepsOthers` | apps/web/lib/queries/optimistic-update.ts:118-121 | A deletion leaves every item with another id as often as it was there, and none with that id |
| `OptimisticUpdate.AddedStandsAtItsEnd` | apps/web/lib/queries/optimistic-update.ts:137-141 | An added item stands at the end that was asked for, and alone in an absent list |
| `Analytics.Tracker.SetPageContext` | apps/web/lib/analytics/index.ts:62-74 | Tracks the stay on the page that is left, if it is measured, and starts the next one |
| `Analytics.Tracker.Track` | apps/web/lib/analytics/index.ts:89-104 | Queues the enriched event and flushes a full queue |
| `Analytics.Tracker.PageView` | apps/web/lib/analytics/index.ts:109-118 | Is a page change followed by a tracked view |
| `Analytics.Tracker.Flush` | apps/web/lib/analytics/index.ts:123-133 | Hands the whole queue over as one batch and empties it |
| `Analytics.EveryEventIsSentOnce` | apps/web/lib/analytics/index.ts:62-133 | In every run batches and queue are exactly the tracked events in order, fewer than 10 wait, batches have 1 to 10 events and never change |
| `Analytics.OnlyFullBatchesWithoutFlush` | apps/web/lib/analytics/index.ts:95-103 | Without timer flushes n events make n / 10 batches and leave n % 10 |
| `Analytics.EventCarriesItsCall` | apps/web/lib/analytics/index.ts:89-96 | A tracked event has its kind, all of the caller's properties, and the time stamp, the page and the browser's properties where the caller names none |
| `Analytics.LeavingTracksTheStay` | apps/web/lib/analytics/index.ts:62-74 | Leaving a page tracks it with the whole seconds spent there, if the page and its start are known, and nothing otherwise |
| `Analytics.ReportedTimeIsClose` | apps/web/lib/analytics/index.ts:64-73 | For any clock, time on measured pages less the reported seconds is 0 to 999 ms per page left |
| `Analytics.ElapsedTimeIsReported` | apps/web/lib/analytics/index.ts:62-74 | From one page start to a later one, nothing is lost but that and the time inside the calls |
| `StableSort.SortedIsStable` | packages/utils/array.util.ts:290-312 | The specified sort is in order and keeps the order of ties |
| `StableSort.StableSortIsUnique` | packages/utils/array.util.ts:290-312 | Any stable sort gives the same sequence, so the algorithm does not matter |
| `ArrayCombine.UniqueKeepsFirst` | packages/utils/array.util.ts:227-254 | The reduction keeps an element if and only if no truthy element came first with its key |
| `ArrayCombine.CombinedHasFirstOfEachKey` | packages/utils/array.util.ts:187-204 | Every key is left with exactly its first element if that is truthy, and with all its elements otherwise |
| `ArrayCombine.OtherwiseAllAreKept` | packages/utils/array.util.ts:187-241 | Without a field, or where the combination starts with neither an object nor null, nothing is dropped |
| `ArrayCombine.CombinedIsStable` | packages/utils/array.util.ts:281-313 | The result is ordered in the requested direction, equal ranks keep their order in both directions, and undefined elements come last |
| `LoopsLock.EntriesAreAccounted` | apps/api/libs/domain/services/loops-locks/redis-loops-lock.backend.ts:47-67 | In every run, whatever expires or is aborted, an entry bears its call's holder, and that call still claims it or was aborted: a finished or rejected call leaves nothing |
| `LoopsLock.SoundnessEndsIff` | apps/api/libs/domain/services/loops-locks/redis-loops-lock.backend.ts:47-67 | As long as every claimed key has its entry, a step ends this if and only if it is the expiry of a key that is held |
| `LoopsLock.MutualExclusion` | apps/api/libs/domain/services/loops-locks/loops-work-lock.service.ts:21-32 | In every run, no two calls hold a key that never expires while held, whatever their holders and whatever becomes of other keys |
| `LoopsLock.KeysMeetIff` | apps/api/libs/domain/services/loops-locks/loops-work-lock.service.ts:25 | Two calls have a key in common if and only if their issues or their repositories are equal |
| `LoopsLock.RejectionHasCause` | apps/api/libs/domain/services/loops-locks/loops-work-lock.service.ts:21-32 | In every run, a call is rejected only while another call on the same issue or repository has an entry |
| `LoopsLock.CallWorksIff` | apps/api/libs/domain/services/loops-locks/redis-loops-lock.backend.ts:47-59 | After every run, an uninterrupted call gets to work if no entry is of a call on the same issue or repository, and, where every call with an entry has both of its own, only then |
| `LoopsLock.ExclusiveIffSound` | apps/api/libs/domain/services/loops-locks/redis-loops-lock.backend.ts:47-67 | After every run, no two calls will hold the key in a continuation in which it does not expire while held if and only if every call that claims it has its entry |
| `LoopsLock.StolenIffUnsound` | apps/api/libs/domain/services/loops-locks/redis-loops-lock.backend.ts:47-67 | Such a continuation can delete the key from under another call if and only if some call claims it without its entry |
| `LoopsLock.StealsNextIff` | apps/api/libs/domain/services/loops-locks/redis-loops-lock.backend.ts:47-67 | The next command of a call does so if and only if it is the rollback, or the second command of the release, of a key that another call holds |
| `LoopsLock.OwnershipIsChecked` | apps/api/libs/domain/services/loops-locks/redis-loops-lock.backend.ts:26-67 | If no two calls share a holder, and the key never expires while its call acquires, rolls back or is between the two commands of its release, no call ever deletes it from under another one |
| `LoopsLock.SharedHolderSteals` | apps/api/libs/domain/services/loops-locks/redis-loops-lock.backend.ts:44 | A witness: two calls of one process, with no expiry at such a time |
| `LoopsLock.WindowSteals` | apps/api/libs/domain/services/loops-locks/redis-loops-lock.backend.ts:63-64 | A witness: two processes, with the expiry between the two commands of a release |
| `LoopsLock.RollbackSteals` | apps/api/libs/domain/services/loops-locks/redis-loops-lock.backend.ts:51-54 | A witness: three processes, with the expiry before a rollback |
| `LoopsLock.InMemoryLoopsLockBackend.Acquire` | apps/api/libs/domain/services/loops-locks/in-memory-loops-lock.backend.ts:14-20 | Names the first held key and changes nothing, or adds all keys |
| `LoopsLock.FirstHeldIsFirst` | apps/api/libs/domain/services/loops-locks/in-memory-loops-lock.backend.ts:15 | The key that is named is the first in order that is held |
| `LoopsLock.InMemoryLoopsLockBackend.Release` | apps/api/libs/domain/services/loops-locks/in-memory-loops-lock.backend.ts:22-24 | Removes the keys, whoever added them |
| `LoopsLock.UninterruptedAcquire` | apps/api/libs/domain/services/loops-locks/redis-loops-lock.backend.ts:47-59 | Uninterrupted, a Redis call acquires like the default backend: both keys, or none and the store is as before |
| `LoopsLock.UninterruptedRelease` | apps/api/libs/domain/services/loops-locks/redis-loops-lock.backend.ts:61-67 | Uninterrupted, a call that has its keys releases like the default backend |
| `LoopsDashboard.FillColumns` | apps/web/app/loops/loops-dashboard-model.ts:1168-1195 | Every column gets the cards of its loops, in order |
| `LoopsDashboard.BuildLoopBoard` | apps/web/app/loops/loops-dashboard-model.ts:1157-1205 | The board is the six columns, each filtered and sorted |
| `LoopsDashboard.ColumnRules` | apps/web/app/loops/loops-dashboard-model.ts:1065-1102 | Each column has a condition on status, phase, verdict, pause, specification and the last cost of the issue, and a loop meets exactly one |
| `LoopsDashboard.GateRules` | apps/web/app/loops/loops-dashboard-model.ts:1125-1146 | The same for the gates |
| `LoopsDashboard.ModeAndBlockerRules` | apps/web/app/loops/loops-dashboard-model.ts:1104-1155 | The same for the modes, and the blocker is the first of cost guard, pause and verdict |
| `LoopsDashboard.CardsByPriority` | apps/web/app/loops/loops-dashboard-model.ts:1197-1203 | P0 comes before P1, P2, P3 and any other priority, in this order, and the title decides within one |
| `LoopsDashboard.CardShowsItsLoop` | apps/web/app/loops/loops-dashboard-model.ts:1168-1195 | Every loop has a card with its id, title, priority, mode, gate and blocker in its column |
| `LoopsDashboard.BoardIsPermutation` | apps/web/app/loops/loops-dashboard-model.ts:1168-1195 | The columns together hold one card for every loop and no other |
| `LoopsDashboard.ColumnIsStable` | apps/web/app/loops/loops-dashboard-model.ts:1197-1204 | A column is sorted by priority and title, and ties keep the order of the loops |
| `LoopsDashboard.BlockedAreExceptions` | apps/web/app/loops/loops-dashboard-model.ts:1065-1146 | The blocked column holds exactly the cards gated 'Exception', the delivered column those that are done |
| `LoopAggregates.BuildTriggerPortfolio` | apps/web/app/loops/loops-dashboard-model.ts:1770-1798 | The fold over a map gives the direct counts and latest dates of all sources, sorted, with the number of repositories and the five loops created last |
| `LoopAggregates.RecentAreLatest` | apps/web/app/loops/loops-dashboard-model.ts:1798-1800 | No loop left out of the recent ones was created after one of them |
| `LoopAggregates.LatestIsMaximum` | apps/web/app/loops/loops-dashboard-model.ts:1777-1785 | The latest date of a group is one of its dates and none is greater |
| `LoopAggregates.SourcesAddUp` | apps/web/app/loops/loops-dashboard-model.ts:1770-1798 | The counts of the sources add up to the number of loops |
| `LoopAggregates.SourcesInOrder` | apps/web/app/loops/loops-dashboard-model.ts:1796-1798 | The sources come by descending count, then by descending latest date, then by name |
| `LoopAggregates.SourcesAreListedOnce` | apps/web/app/loops/loops-dashboard-model.ts:1774-1787 | Every loop has its source in the list, once |
| `LoopAggregates.SourceRowTells` | apps/web/app/loops/loops-dashboard-model.ts:1774-1787 | A source, channel and kind, has the number of its loops and the latest of their creation dates |
| `LoopAggregates.RecentByCreation` | apps/web/app/loops/loops-dashboard-model.ts:1798-1800 | The recent loops are the first five by creation date |
| `LoopAggregates.BuildRepoContextMap` | apps/web/app/loops/loops-dashboard-model.ts:1813-1887 | The fold over a map gives the direct counts of all repositories, and the total of the blocked loops |
| `LoopAggregates.IssuesAddUp` | apps/web/app/loops/loops-dashboard-model.ts:1832-1861 | The loops of the repositories add up to all loops |
| `LoopAggregates.BlockedAddUp` | apps/web/app/loops/loops-dashboard-model.ts:1844-1885 | The blocked loops of the repositories add up to the direct count |
| `LoopAggregates.PhasesAddUp` | apps/web/app/loops/loops-dashboard-model.ts:1850-1872 | The phases of a repository add up to its loops |
| `LoopAggregates.ReposInOrder` | apps/web/app/loops/loops-dashboard-model.ts:1876-1879 | The repositories come by descending number of loops, then by descending last update, then by name |
| `LoopAggregates.RepoRowTells` | apps/web/app/loops/loops-dashboard-model.ts:1832-1861 | A repository, or 'unassigned', has the number of its loops, that of the paused, failed or tripped ones among them, and the latest of their updates |
| `LoopAggregates.PhaseRowTells` | apps/web/app/loops/loops-dashboard-model.ts:1866-1868 | A phase of a repository has the number of its loops in it, and the phases come by descending number |
| `LoopAggregates.RecentInRepo` | apps/web/app/loops/loops-dashboard-model.ts:1869-1872 | The up to three recent loops of a repository are of it, and none left out was updated after one of them |
| `LoopFleet.BuildFleetHealth` | apps/web/app/loops/loops-dashboard-model.ts:2438-2502 | Active and blocked loops, and by repository their direct counts |
| `LoopFleet.FleetCounts` | apps/web/app/loops/loops-dashboard-model.ts:2443-2454 | Active are the loops that are not closed, archived or rejected, and blocked those of them that are over budget, paused or refused |
| `LoopFleet.FleetRowTells` | apps/web/app/loops/loops-dashboard-model.ts:2465-2471 | A repository has the number of its active loops, and of those that share an id with a blocked one |
| `LoopFleet.FleetInOrder` | apps/web/app/loops/loops-dashboard-model.ts:2491-2498 | The repositories come by descending number of active loops |
| `LoopFleet.ActiveAddUp` | apps/web/app/loops/loops-dashboard-model.ts:2465-2471 | The active loops of the repositories add up to all active loops |
| `LoopFleet.BlockedAddUpIff` | apps/web/app/loops/loops-dashboard-model.ts:2446-2471 | The blocked counts add up to at least the blocked loops, and to exactly those if and only if every active loop with the id of a blocked one is blocked |
| `FileChunks.CreateFileChunks` | packages/utils/file.ts:81-95 | The chunks make up the file, all but the last are full, and their number is the size over the chunk size, rounded up |
| `FileChunks.CalculateSHA256` | packages/utils/file.ts:9-62 | For any hash function the bytes are absorbed once and in order; the progress is the rounded share of the full chunks read, never decreases, stays in 0..100 and ends with 100 |
| `FileChunks.PercentIsNearest` | packages/utils/file.ts:34 | The share is the nearest whole percentage, and of two the greater |

## Left out

- The server-side loops engine and its file store: of the server's loops code only the work lock is modelled.
- `LoopsLock.MutualExclusion`: a key may expire at any time, so its time to live is not measured, and a rejected command ends its call at once; the work itself is one step.
- JavaScript doubles: sizes, ratios and ranks are exact reals and timestamps are integers, so rounding errors and overflow are not captured.
- UTF-16: strings are sequences of characters, git paths are sequences of bytes, and the decoding of those bytes to text is not modelled.
- An own property named `__proto__`, accessors and class instances: records have plain entries, and a Map or an Error has the entries that enumeration shows. A Date is a leaf of the serializer only.
- `DeepRedaction.LogRecord.RedactSecretUrls`: the record is no node of the heap, so a record whose later fields refer back to the record itself, and would see its earlier fields redacted already, is not captured.
- `DeepRedaction.RedactDeep`: fresh containers are a result datatype beside the heap, not new heap objects, so identity among copies is not captured.
- `ObjectPaths.GetValueIsGetAll`: covers the default null only; with another default a stored value equal to it would end a dotted read early.
- `traverseKeys`, `addProperty` and the other small object helpers: they list or copy single records.
- `ObjectEquality.StructuralIffComparable`: covers trees that share no objects with each other; a shared object is equal to itself by identity whatever it holds.
- `AdvanceStream.Hook.OnToken`: the status messages of a stream and remounting with other dependencies are not modelled; one effect runs once.
- `TaskPolling.TaskHook.OnResponse`: callbacks neither throw nor call back into the hook, and the displayed texts and results are not modelled.
- `TokenStorage.BrowserStorage.SetTokens`: the clock is read once per call, and the cookie's number is not printed and parsed back.
- `TokenStorage.BrowserStorage.ClearAll`: covers the tokens and their two cookies; the user, tenant and legacy keys are removed alike.
- `SchemaPrinter.ParserReadsRevealed`: the printer writes one item per line, indented by two blanks; models on a single line and composite keys with a named argument are not printed; lines with unbalanced braces are the subject of `SchemaBraces`.
- `AspectRatio.EditLeavesSidesIff`: the sign of zero is not modelled, so a negative zero in a ratio counts as zero.
- The generators and `ensureExportsInIndex`: text templates around the parsed records.
- `OptimisticUpdate.QueryCache.OnMutate`: one cache entry; that an update to undefined is ignored is the query client's behaviour; the cancellation before it and the refetch after a mutation are not modelled.
- `Analytics.Tracker.Flush`: the answer to a request only logs, so a batch counts as sent when it is handed over; the timer is the environment's call of a flush.
- `ArrayCombine.CombinedIsStable`: ranks are numbers; dates compare alike, NaN and mixtures make the comparison inconsistent, and the sort's change of its argument array is not observable through `combine`.
- `diffByField` and the filters of the array helpers: each is one filter by a key.
- `LoopsDashboard.BuildLoopBoard`: evidence, links and other display strings of a card are not modelled.
- `LoopFleet.BuildFleetHealth`: runtime readiness, release readiness and the other plain filters are not modelled.
- The workforce, review and rules views of the dashboard: they repeat the same counts under other labels.
- `FileChunks.CalculateSHA256`: the file is read without errors, a read returns the whole slice, and the hash itself is abstract.
- User interface, network, database, queues and bootstrap code.
