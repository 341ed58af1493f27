# MuditaOS: a verified model of its core logic

This project models, in Dafny 4.11, six parts of MuditaOS and proves what they promise over every input and every run.
Check it with `dafny verify dfyconfig.toml`.

1. **The audio block stream** (`audio::Stream`). `BlockRing.dfy` is the control state: four cursors that wrap round a ring
   of blocks, and three counters. `StreamRuns.dfy` says what whole runs deliver. `StreamBuffer.dfy` is the class as written,
   over a raw byte buffer with byte-addressed cursors; every method moves the buffer, read as blocks, exactly as the block
   machine does.
2. **The modem response assembler** (`at::ATStream`). `AtText.dfy` holds the text helpers, `AtResponse.dfy` the incremental
   parser as written (`WriteStep`) beside a description of its state as a function of the bytes received (`Of`),
   `AtStream.dfy` the class, whose invariant is that the two agree. `AtMeaning.dfy` says, from the text alone, when a
   response is complete and what it reports.
3. **The database migration tool** (`db_migration.py`): `Migration.dfy`. A script is a sequence of comment lines and
   statements; what a statement does to a database is a parameter of every theorem, failures included.
4. **Windows, popups and closing** (`apps-common`): `Windows.dfy` and `WindowsStack.dfy`, `Popups.dfy`,
   `CallbackStorage.dfy` and `CloseProtocol.dfy`.
5. **Audio input arbitration** (`AudioMux`, `Token`): `AudioMux.dfy`.
6. **Arithmetic**: buffer sizing and the table-driven logarithm, `BufferSizing.dfy`.

Each part that the source writes as an object changed in place is a class here; the class is proved against step functions
on values, and the run theorems are about those.

## What does not hold, and exactly when it does

The code is modelled as it is. Where it misses a property one would expect, a lemma shows the case and another gives the
exact condition.

- Three calls break a stream's bookkeeping: a push with every block reserved, a pop with every block peeked, and an
  overflowing reserve with a peek open. `StepConsistentIffSafe` shows these are the only ones; `UnsafeCallsAreReachable`
  reaches them. The position guards cannot see a full turn (`GuardsSeeOnlyPartialTurns`).
- `reserve` hands out the block after the one `push` would use, so blocks written in place are read one block late
  (`ZeroCopyFromReset`), and the reservation of the last free block is an unread one (`OpenReservationsInEveryRun`).
- Cutting a modem response into pieces matters exactly when bytes follow the write that completed it
  (`ChunkingIrrelevantIff`). A write can complete it too early. A text makes the stream ready on an unterminated line if and
  only if its last delimiter is at index 0 or 1 and the text after it is a result code (`ReadyUnterminatedIff`); a ready
  response was decided by a terminated line if and only if that delimiter is at index 2 or later
  (`DecidedByTerminatedLineIff`). So an error number can lose its last digits (`TruncatedErrorNumber`).
- Committing revisions keeps their meaning exactly when no statement stands where the licence header is expected
  (`MergedUpFaithfulIff`): those lines are dropped unread (`UnheaderedStatementIsLost`). Single scripts each have a
  connection of their own and the merged script has one, so what a script leaves in its connection reaches the next only
  after a commit (`SessionLeaksIntoMergedScript`). With statements told apart as kept by the connection or stored, the
  outcome is the same exactly when no revision with a kept one comes before a revision with a stored one
  (`MergedUpSessionIff`); and for any database, when no script but the last leaves anything (`CommitPreservesUpgrade`).
- A window just switched to is on top unless it is the SIM unlock window and the SIM info popup is due
  (`SwitchStaysOnTopIff`). A switch to the empty name with one window stacked shows the default window (`SwitchLandsOnTop`).
- The popup taken from the queue need not be one the filter permits (`PoppedPermittedIff`, `UnpermittedPopupCanComeOut`).
- A close that waits for callbacks is never confirmed too early (`ConfirmedOnlyUnblocked`), but may never be confirmed at
  all. Without a further request it is confirmed if and only if a response arrives that runs a pending callback, which asks
  for a refresh and leaves nothing blocked (`WaitingCloseConfirmedIff`); otherwise it waits on, whatever is pending
  (`StrandedForever`, `StrandedStateIsReachable`).
- Two inputs share a token exactly when a multiple of 32768 increments lies between them (`TokensCollideIff`); resetting one
  of two inputs 32768 times gets there (`TokensCanCollide`).
- The blocks buffered cover the time constraint if and only if their number does not wrap round
  (`BufferingCoversConstraintIff`, `BufferingCanWrap`).

In `build_revision_entries_up_to` (tools/db_migration.py:321) the default of `next` is a non-empty list, so the `else`
branch is never taken; an unknown revision gives None all the same. The comment at
module-apps/apps-common/ApplicationCommon.cpp:900 speaks of dropping all subsequent windows; the code drops one.

## Model

| member | source | states |
|---|---|---|
| BlockRing.GuardsSeeOnlyPartialTurns | module-audio/Audio/Stream.cpp:35-38 | the two position guards refuse exactly when some but not all blocks are reserved or peeked |
| BlockRing.StepConsistentIffSafe | module-audio/Audio/Stream.cpp:26-168 | any call keeps counters and cursors consistent if and only if it is not one of the three unsafe ones |
| BlockRing.SafeRunStaysConsistent | module-audio/Audio/Stream.cpp:26-168 | every run of all operations that avoids them stays consistent |
| BlockRing.FirstUnsafeCallBreaks | module-audio/Audio/Stream.cpp:128-149 | after any such run the next call keeps consistency exactly when it is safe |
| BlockRing.UnsafeCallsAreReachable | module-audio/Audio/Stream.cpp:36-51 | all three unsafe calls occur from a fresh one-block stream |
| BlockRing.Step | module-audio/Audio/Stream.cpp:26-168 | every operation, safe or not, keeps cursors inside the ring, counters inside size_t and the geometry fixed |
| StreamRuns.StepRefinesQueue | module-audio/Audio/Stream.cpp:26-126 | with nothing reserved one copying call answers and changes the stream as a bounded queue does, exactly when it is not the pop that misses a full peek; a refused call changes nothing |
| StreamRuns.RunRefinesQueue | module-audio/Audio/Stream.cpp:26-126 | every run of push, pop, peek, consume, unpeek and reset gives the queue's answers, events, blocks and final contents |
| StreamRuns.CopyingRunConserves | module-audio/Audio/Stream.cpp:26-126 | over every copying run blocks accepted = blocks delivered + blocks still held, in order, and the peeked ones are the front of these |
| StreamRuns.StepCounts | module-audio/Audio/Stream.cpp:26-168 | from a consistent stream every call, unsafe ones too, answers, signals its event and moves the counters as counting blocks says; only a push or a write through a span changes blocks |
| StreamRuns.RunCounts | module-audio/Audio/Stream.cpp:26-168 | over every safe run of copying and zero-copy calls all answers and events follow from the counts |
| StreamRuns.StepKeepsOpen | module-audio/Audio/Stream.cpp:128-168 | the spans given out and still open are the blocks after dataEnd, in order, after any safe call |
| StreamRuns.OpenReservationsInEveryRun | module-audio/Audio/Stream.cpp:128-149 | open reservations are pairwise distinct, avoid all unread blocks exactly while a free block is left, and the last free block is dataStart |
| StreamRuns.StepOneLate | module-audio/Audio/Stream.cpp:94-168 | each zero-copy call keeps the relation: stale block followed by committed blocks = delivered blocks followed by those left |
| StreamRuns.ZeroCopyRunOneLate | module-audio/Audio/Stream.cpp:94-168 | so does every run in which no reservation takes the last free block |
| StreamRuns.ZeroCopyFromReset | module-audio/Audio/Stream.cpp:263-276 | from reset, the first block read is the buffer's old content and the i-th after it is the (i-1)-th committed; counts balance |
| StreamBuffer.AdvanceIsNext | module-audio/Audio/Stream.cpp:296-304 | the byte cursor's increment is the wrapping increment of the block index |
| StreamBuffer.OverwriteOneBlock | module-audio/Audio/Stream.cpp:46-47 | copying a block's bytes in place changes that block and no other |
| StreamBuffer.Stream.constructor | module-audio/Audio/Stream.cpp:11-18 | a new stream is empty, consistent and has a zeroed null block |
| StreamBuffer.Stream.Push | module-audio/Audio/Stream.cpp:26-56 | the bytes, cursors and counters change as the block machine's push does, with its answer and event |
| StreamBuffer.Stream.Pop | module-audio/Audio/Stream.cpp:64-92 | likewise for pop: the caller's memory gets the oldest block, or is untouched; an empty stream redirects the span to the null block |
| StreamBuffer.Stream.Peek | module-audio/Audio/Stream.cpp:105-118 | likewise for peek: the span is the block under the peek cursor or the null block |
| StreamBuffer.Stream.Consume | module-audio/Audio/Stream.cpp:94-103 | likewise for consume |
| StreamBuffer.Stream.Unpeek | module-audio/Audio/Stream.cpp:120-126 | likewise for unpeek |
| StreamBuffer.Stream.Reserve | module-audio/Audio/Stream.cpp:128-149 | likewise for reserve, the overflow branch included; the span is the block under the new write cursor |
| StreamBuffer.Stream.Commit | module-audio/Audio/Stream.cpp:151-160 | likewise for commit |
| StreamBuffer.Stream.Release | module-audio/Audio/Stream.cpp:162-168 | likewise for release |
| StreamBuffer.Stream.Reset | module-audio/Audio/Stream.cpp:263-276 | likewise for reset; the null block is zeroed |
| StreamBuffer.FillSpan | module-audio/Audio/Stream.cpp:342-345 | writing through a span a reservation gave out is the block machine's fill |
| AtText.Find | module-cellular/modem/ATStream.cpp:87 | the first delimiter at or after a position, or none |
| AtText.RFind | module-cellular/modem/ATStream.cpp:102-105 | the last delimiter at or before a position, or none |
| AtText.NumberReadsBack | module-utils/utility/Utils.hpp:245-255 | every int written in decimal after a blank is trimmed and read back as itself |
| AtText.NumberIsRead | module-utils/utility/Utils.hpp:245-255 | a decimal, with or without a sign and with any text after it, is read as its value, and refused if and only if that does not fit an int |
| AtText.NoDigitIsRefused | module-utils/utility/Utils.hpp:245-255 | what does not begin, after blanks and a sign, with a digit is refused |
| AtResponse.BeginLineStable | module-cellular/modem/ATStream.cpp:84-98 | the first line of a response does not change when more bytes arrive |
| AtResponse.CountLinesResumes | module-cellular/modem/ATStream.cpp:119-133 | counting lines can stop at the end of any prefix and go on later with the same outcome |
| AtResponse.BeginPhaseCatchesUp | module-cellular/modem/ATStream.cpp:135-154 | the begin check brings beginChecked, atAtTheBegin, code and errcode to what the longer text alone determines |
| AtResponse.WriteIsFunctionOfBytes | module-cellular/modem/ATStream.cpp:179-202 | one write takes the state that belongs to b to the state that belongs to b + c |
| AtResponse.RunIsFunctionOfBytes | module-cellular/modem/ATStream.cpp:84-202 | after any run of writes the whole state is a function of the bytes taken in |
| AtResponse.ReadyStays | module-cellular/modem/ATStream.cpp:181-183 | a ready stream refuses everything further |
| AtResponse.ChunkingIrrelevantIff | module-cellular/modem/ATStream.cpp:84-202 | any cutting into chunks ends in the state of one write of the whole if and only if no bytes follow the completing write |
| AtResponse.ChunkingIrrelevantUnlessReadyEarly | module-cellular/modem/ATStream.cpp:84-202 | in particular if no earlier write made the stream ready |
| AtResponse.CountedLinesAreSplitLines | module-cellular/modem/ATStream.cpp:124-131 | the lines counted are those split returns, but for an unterminated last one |
| AtResponse.ReadyResponseLines | module-cellular/modem/ATStream.cpp:185-197 | a ready response that began with its code has the lines asked for, and more lines than asked for is exactly the TOKENS case |
| AtResponse.LastTerminatedLineDecides | module-cellular/modem/ATStream.cpp:100-117 | for all texts the end check judges the line between the last two delimiters |
| AtResponse.EndVerdictReported | module-cellular/modem/ATStream.cpp:156-196 | without a code at the beginning, a code in the text the end check looks at makes the response ready with all lines and that code, number or TOKENS |
| AtResponse.FinalCodeReported | module-cellular/modem/ATStream.cpp:156-196 | a response ending with any result code, after any other lines and for any count of lines asked for, is ready with it, its error number and all its lines |
| AtResponse.EndLineByLastDelimiter | module-cellular/modem/ATStream.cpp:100-117 | for every text: with the last delimiter at index 2 or later, the line it terminates is judged, or nothing if no other delimiter precedes that line; below index 2, the rest of the text |
| AtResponse.EndLineTerminatedIff | module-cellular/modem/ATStream.cpp:105-107 | the text judged in the end stands between two delimiters if and only if the last one is at index 2 or later |
| AtResponse.DecidedByTerminatedLineIff | module-cellular/modem/ATStream.cpp:135-172 | a ready response was decided by a terminated line if and only if its last delimiter is at index 2 or later |
| AtResponse.ReadyUnterminatedIff | module-cellular/modem/ATStream.cpp:105-107 | a text makes the stream ready on an unterminated line if and only if its last delimiter is below index 2 and what follows it is a result code |
| AtResponse.UnterminatedCodeCompletes | module-cellular/modem/ATStream.cpp:160-169 | at most one character, a delimiter and an unterminated code: ready, with that code, number and all lines |
| AtResponse.ErrorResponseReported | module-cellular/modem/ATStream.cpp:51-82 | every +CME and +CMS ERROR response is ready with code ERROR and its own number, or Unknown if the number is not listed |
| AtResponse.TruncatedErrorNumber | module-cellular/modem/ATStream.cpp:105-107 | a write ending inside the number completes the response with ERROR and the number the digits seen make, and the rest is refused |
| AtMeaning.SplitOfJoin | module-utils/utility/Split.hpp:28-50 | the lines of a text are its parts between delimiters, without the empty ones, in order |
| AtMeaning.EveryTextIsJoined | module-utils/utility/Split.hpp:28-50 | every text has such parts |
| AtMeaning.ResultLineIff | module-cellular/modem/ATStream.cpp:11-49 | a line is a result code if and only if it is OK, ERROR or starts with +CME ERROR: or +CMS ERROR: |
| AtMeaning.FirstLineIs | module-cellular/modem/ATStream.cpp:84-98 | the first line is the one between a delimiter that opens the text and the next |
| AtMeaning.FirstLineOnlyThere | module-cellular/modem/ATStream.cpp:137-143 | there is no other first line, and none in a text of at most five characters |
| AtMeaning.CountedAreTerminated | module-cellular/modem/ATStream.cpp:119-133 | the lines counted are those that a delimiter ends |
| AtMeaning.CompleteIff | module-cellular/modem/ATStream.cpp:135-172 | for every text: complete if and only if the first line is a result code and the lines asked for are there, or, with no result code first, the text the end check looks at is one; any other line completes nothing |
| AtMeaning.PlainReported | module-cellular/modem/ATStream.cpp:11-26 | when OK decides, OK is reported, and when ERROR does, ERROR, with all lines, or TOKENS if there are too many |
| AtMeaning.NumberReported | module-cellular/modem/ATStream.cpp:28-82 | when a numbered error decides, after any blanks and sign and with anything after the digits: ERROR with its number, or Unknown if it has no name, or a parsing error if it does not fit an int |
| AtMeaning.NoNumberReported | module-cellular/modem/ATStream.cpp:33-41 | an error prefix with no digit after blanks and sign is a parsing error |
| AtMeaning.NamedErrors | module-cellular/at/ErrorCode.hpp:20-110 | the error numbers that have a name |
| AtMeaning.FinalLineReported | module-cellular/modem/ATStream.cpp:156-196 | any text ending with OK or ERROR, not opening with a result code, is complete with that code |
| AtMeaning.FirstLineReported | module-cellular/modem/ATStream.cpp:135-154 | one that opens with OK or ERROR is complete with that code once as many lines as asked for have ended |
| AtMeaning.BareResponse | module-cellular/modem/ATStream.cpp:11-26 | OK alone and ERROR alone are complete if and only if at most one line was asked for, with that code and that line |
| AtStream.ATStream.constructor | module-cellular/modem/ATStream.hpp:35-36 | a new stream is the one that belongs to no bytes |
| AtStream.ATStream.CheckATBegin | module-cellular/modem/ATStream.cpp:84-98 | the fields after the begin check, and its verdict |
| AtStream.ATStream.CheckATEnd | module-cellular/modem/ATStream.cpp:100-117 | the fields after the end check, and its verdict |
| AtStream.ATStream.CountLines | module-cellular/modem/ATStream.cpp:119-133 | the loop's final position and count |
| AtStream.ATStream.Parse | module-cellular/modem/ATStream.cpp:135-172 | the fields after parsing, and whether the response is complete |
| AtStream.ATStream.CheckError | module-cellular/modem/ATStream.cpp:51-82 | numbered errors become ERROR with the number, or Unknown |
| AtStream.ATStream.Write | module-cellular/modem/ATStream.cpp:179-202 | a ready stream is unchanged; otherwise the object becomes the one that belongs to all bytes so far |
| AtStream.ATStream.Reset | module-cellular/modem/ATStream.cpp:204-216 | back to the state that belongs to no bytes, with code NONE |
| Migration.BuildRevisionEntries | tools/db_migration.py:294-313 | the bounded loop follows parent links from 0 as far as they go |
| Migration.EntriesFollowFirstChildren | tools/db_migration.py:294-313 | for every listing, branched or broken too: each entry is the first listed child of the one before, and the list ends where there is none or with as many entries as are listed |
| Migration.ChainFoundInAnyOrder | tools/db_migration.py:294-313 | a chain is recovered completely, in order, from every listing order of its directory |
| Migration.CreatingKeepsChain | tools/db_migration.py:96-110 | creating revisions with new ids keeps the directory one chain in creation order |
| Migration.RevisionsComeBackInCreationOrder | tools/db_migration.py:278-284 | from an empty directory, any listing after any number of calls gives back exactly the revisions created, in order, each with its id and both its scripts |
| Migration.UpTo | tools/db_migration.py:316-328 | exactly the prefix ending with the first revision of the id asked for, or None if there is none |
| Migration.RevisionEntriesUpTo | tools/db_migration.py:316-328 | the loop computes that prefix |
| Migration.MergeUps | tools/db_migration.py:345-348 | the merged up script is the header and all bodies in chain order |
| Migration.MergeDowns | tools/db_migration.py:359-361 | the merged down script is the header and all bodies in reverse |
| Migration.MergeSql | tools/db_migration.py:337-361 | both, for the chain found in the directory |
| Migration.MergedUpRunsAll | tools/db_migration.py:337-372 | for every interpretation of statements and every database the merged up script, on one connection, does what the single ones do in turn on their own, failing where they fail, if no script but the last leaves anything in its connection |
| Migration.MergedUpSessionIff | tools/db_migration.py:364-372 | the merged script stores the same statements, each seeing the same connection, if and only if no revision with a statement its connection keeps comes before one with a statement that is stored |
| Migration.SessionLeaksIntoMergedScript | tools/db_migration.py:364-372 | two revisions made by the tool, a pragma and an insert, whose merged script gives another outcome |
| Migration.MergedUpFaithfulIff | tools/db_migration.py:81-93 | it records the same statements if and only if no statement stands where the header is expected |
| Migration.UnheaderedStatementIsLost | tools/db_migration.py:81-93 | a revision that starts with its statement: the upgrade runs it, the committed script does not |
| Migration.MergedDownUndoesMergedUp | tools/db_migration.py:337-361 | if each down script undoes its up script where it is used, the merged one undoes the merged one, for any length |
| Migration.MigrateDatabaseUp | tools/db_migration.py:375-385 | the loop computes what the next three rows describe |
| Migration.VersionsRunInOrder | tools/db_migration.py:375-385 | if versions 0 to n are there and run, the content is that of executing their up scripts in that order, each on its own connection, and n is recorded |
| Migration.VersionsStop | tools/db_migration.py:364-385 | a missing version, 0 included, fails with exactly those before it applied and recorded; a failing script fails with what it left |
| Migration.VersionsRunOrStop | tools/db_migration.py:375-385 | one of these cases applies to every set of versions |
| Migration.RevisionsRunInOrder | tools/db_migration.py:226-231 | revisions that run are all run, in order, each on its own connection |
| Migration.RevisionsStop | tools/db_migration.py:226-231 | a failing revision ends the run with what it left behind |
| Migration.UpgradeGoesOnFromVersions | tools/db_migration.py:195-234 | after the committed versions: no current directory ends the upgrade there; an empty one fails unless a target is named; otherwise the revisions follow; an unknown target runs none |
| Migration.CommitPreservesUpgrade | tools/db_migration.py:251-272 | an upgrade after commit gives the same database and the same success as before it, up to the version recorded, however the directory is listed, if no script but the last leaves anything in its connection |
| Migration.CommittedDownRestoresPreviousVersion | tools/db_migration.py:251-272 | after a commit the new version's down script restores the database of the version before |
| Migration.UpgradeToTarget | tools/db_migration.py:195-234 | upgrading to a revision runs exactly those up to it, with their success, over the committed version recorded; to an unknown one, none, without failing |
| Migration.RevertReturnsToPreviousRevision | tools/db_migration.py:180-187 | revert after a full upgrade gives the database of an upgrade to the revision before the last, or of the committed versions if there is one revision |
| Windows.IndexOf | module-apps/apps-common/WindowsStack.cpp:114-117 | the first window of that name, or none |
| Windows.StepSound | module-apps/apps-common/WindowsStack.cpp:22-137 | every handler keeps stacked names distinct, built and registered |
| Windows.RunSound | module-apps/apps-common/ApplicationCommon.cpp:573-620 | so does every run of them |
| Windows.WithoutPopupsSelects | module-apps/apps-common/WindowsStack.cpp:124-137 | dropping pending popups keeps exactly the other windows, in their order |
| Windows.PushWindowShows | module-apps/apps-common/ApplicationCommon.cpp:978-992 | a stacked window is gone back to with its data unchanged; any other is built, put in the map and stacked with the disposition given, or nothing happens if it is not registered; the empty name clears a single window |
| Windows.SwitchShows | module-apps/apps-common/ApplicationCommon.cpp:573-606 | the whole stack and map after a switch: without the window to ignore, never empty, then gone back to the window or exactly that window with its disposition on top |
| Windows.SwitchThenPopup | module-apps/apps-common/ApplicationCommon.cpp:888-913 | an unregistered name changes nothing; a SIM info popup drops the SIM unlock window and nothing else, any other popup nothing |
| Windows.SwitchLandsOnTop | module-apps/apps-common/ApplicationCommon.cpp:573-606 | a switch ends with the window on top over a prefix of the stack there was, or over the default window alone; the empty name on a single window ends with just the default window |
| Windows.SwitchStaysOnTopIff | module-apps/apps-common/ApplicationCommon.cpp:888-913 | it is still on top after a popup is taken from the queue, unless it is SIM unlock and the popup is SIM info |
| Windows.ReturnLandsOnNearest | module-apps/apps-common/ApplicationCommon.cpp:304-324 | going back, with its own switch message, leaves the stack up to the nearest earlier window that is not SIM info, and the built windows as they were |
| Windows.ReturnWithNowhereToGo | module-apps/apps-common/ApplicationCommon.cpp:304-324 | with fewer than two windows nothing happens; above the SIM info popup alone it stops there |
| Windows.AbortRemovesPopupAndAbove | module-apps/apps-common/ApplicationCommon.cpp:915-936 | a regular abort so completed removes the popup and everything above it and builds nothing |
| Windows.AbortWithNowhereToGo | module-apps/apps-common/ApplicationCommon.cpp:927-936 | aborting a popup that is not stacked changes nothing; one at the bottom stays, alone |
| Windows.TetheringAbortKeepsLock | module-apps/apps-common/ApplicationCommon.cpp:919-926 | aborting tethering on a locked phone removes that popup alone; the lock window stays |
| Windows.TetheringAbortDropsOne | module-apps/apps-common/ApplicationCommon.cpp:919-926 | the stack is the same without that one window |
| WindowsStackObjects.WindowsStack.Push | module-apps/apps-common/WindowsStack.cpp:22-29 | the window replaces any of its name in the map and goes on top |
| WindowsStackObjects.WindowsStack.Get | module-apps/apps-common/WindowsStack.cpp:37-51 | the window at a depth from the top, or none |
| WindowsStackObjects.WindowsStack.FindInStack | module-apps/apps-common/WindowsStack.cpp:114-117 | the search loop finds the first of that name |
| WindowsStackObjects.WindowsStack.Pop | module-apps/apps-common/WindowsStack.cpp:59-66 | the top goes, if there is one |
| WindowsStackObjects.WindowsStack.PopTo | module-apps/apps-common/WindowsStack.cpp:68-76 | everything above the first window of that name goes |
| WindowsStackObjects.WindowsStack.PopLastWindow | module-apps/apps-common/WindowsStack.cpp:78-85 | a single window goes; otherwise nothing happens |
| WindowsStackObjects.WindowsStack.Drop | module-apps/apps-common/WindowsStack.cpp:87-95 | that window alone goes |
| WindowsStackObjects.WindowsStack.DropPendingPopups | module-apps/apps-common/WindowsStack.cpp:124-137 | erasing inside the backward loop removes all popups and nothing else |
| WindowsStackObjects.WindowsStack.RebuildWindows | module-apps/apps-common/WindowsStack.cpp:97-106 | throws if and only if a built window has no builder, with each window then old or new; otherwise every one is newly built; the stack is unchanged |
| WindowsStackObjects.ApplicationWindows.GetCurrentWindow | module-apps/apps-common/ApplicationCommon.cpp:999-1011 | an empty stack gets the default window |
| WindowsStackObjects.ApplicationWindows.PushWindow | module-apps/apps-common/ApplicationCommon.cpp:978-992 | back to a stacked window, or a new one on top, or a cleared stack |
| WindowsStackObjects.ApplicationWindows.HandleSwitchWindow | module-apps/apps-common/ApplicationCommon.cpp:573-620 | the stack and map after a switch message |
| WindowsStackObjects.ApplicationWindows.ReturnToPreviousWindow | module-apps/apps-common/ApplicationCommon.cpp:304-324 | the stack left and the switch asked for |
| WindowsStackObjects.ApplicationWindows.AbortPopup | module-apps/apps-common/ApplicationCommon.cpp:915-936 | the stack left and the switch asked for |
| Popups.IsPermitted | module-apps/apps-common/WindowsPopupFilter.cpp:16-41 | permitted if and only if all set filters say Show and the top is of the same popup or no higher priority |
| Popups.StackDecides | module-apps/apps-common/WindowsPopupFilter.cpp:29-38 | without filters: the same popup as on top, or at least its priority; anything over no window |
| Popups.AddPopup | module-apps/apps-common/WindowsPopupFilter.cpp:43-51 | added if and only if every filter is set and none says Remove |
| Popups.InsertOrdered | module-apps/apps-common/WindowsPopupRequest.cpp:19-22 | a new request goes behind all of its priority and keeps the order, adding just itself |
| Popups.RunKeepsOrder | module-apps/apps-common/WindowsPopupQueue.cpp:14-27 | over every run the queue is by descending priority and, among equals, by arrival, whichever equal request is extracted |
| Popups.RunConserves | module-apps/apps-common/WindowsPopupQueue.cpp:14-27 | over every run each request pushed has come out once or is still there |
| Popups.WindowsPopupQueue.PushRequest | module-apps/apps-common/WindowsPopupQueue.cpp:24-27 | the request is inserted at its place |
| Popups.WindowsPopupQueue.PopRequest | module-apps/apps-common/WindowsPopupQueue.cpp:14-22 | nothing if and only if no request is permitted; else exactly one request of the priority of the first permitted one is removed and returned |
| Popups.PoppedPermittedWhenAlike | module-apps/apps-common/WindowsPopupQueue.cpp:16-18 | it is permitted whenever the filter treats equal priorities alike |
| Popups.PoppedPermittedIff | module-apps/apps-common/WindowsPopupQueue.cpp:16-18 | taken from the front of its priority, it is permitted if and only if none of that priority precedes the first permitted |
| Popups.UnpermittedPopupCanComeOut | module-apps/apps-common/WindowsPopupFilter.cpp:29-38 | with an alarm on top, a pending alarm lets out a volume popup that the filter on the windows stack does not permit |
| CallbackStorage.RunAccounted | module-apps/apps-common/CallbackStorage.cpp:19-73 | over every run each registration is in exactly one place: waiting, handed out (once), withdrawn by a cancel, or removed by a response to its id without being handed out |
| CallbackStorage.ResponseTakesItsEntries | module-apps/apps-common/CallbackStorage.cpp:19-58 | a response takes every entry of its id and no other, and its first entry decides: a query callback for a query, else the entry's function, else null; an unknown id gets null and changes nothing |
| CallbackStorage.ResponseRemovesEntryByEntry | module-apps/apps-common/CallbackStorage.cpp:37-42 | what a response leaves keeps its order |
| CallbackStorage.CancelRemovesEntryByEntry | module-apps/apps-common/CallbackStorage.cpp:68-73 | what a cancel leaves keeps its order |
| CallbackStorage.Storage.RegisterCallback | module-apps/apps-common/CallbackStorage.cpp:60-66 | one entry more, at the end |
| CallbackStorage.Storage.Retrieve | module-apps/apps-common/CallbackStorage.cpp:19-26 | the callback for a response and the entries left |
| CallbackStorage.Storage.RemoveAll | module-apps/apps-common/CallbackStorage.cpp:68-73 | all entries of a receiver go |
| CallbackStorage.Storage.CheckBlockingCloseRequests | module-apps/apps-common/CallbackStorage.cpp:75-80 | whether some entry must be answered before closing |
| CloseProtocol.CloseIsAnswered | module-apps/apps-common/ApplicationCommon.cpp:657-674 | from every state a close request is answered by exactly one message: confirmed, in DEACTIVATING, if and only if no blocking callback waits after the windows were closed; else not finished, in FINALIZING_CLOSE |
| CloseProtocol.ResponseRunsCallback | module-apps/apps-common/ApplicationCommon.cpp:385-396 | a response does what its callback does, and confirms exactly a waiting close that nothing blocks any more |
| CloseProtocol.SwitchesAreConfirmed | module-apps/apps-common/ApplicationCommon.cpp:513-571 | which states each switch, focus and refresh message acts in, and what is sent |
| CloseProtocol.EffectsInTurn | module-apps/apps-common/CallbackStorage.cpp:60-73 | registering and cancelling take effect one after the other |
| CloseProtocol.OneEffect | module-apps/apps-common/CallbackStorage.cpp:60-73 | a registered callback waits; a cancel leaves none of its receiver and all others |
| CloseProtocol.ConfirmedOnlyUnblocked | module-apps/apps-common/ApplicationCommon.cpp:657-683 | from any state a confirmation is sent only with no blocking callback pending |
| CloseProtocol.StepKeepsCloseInvariant | module-apps/apps-common/ApplicationCommon.cpp:513-571 | each handler keeps the account of requests and confirmations and does not bring a closing application back |
| CloseProtocol.RunKeepsCloseInvariant | module-apps/apps-common/ApplicationCommon.cpp:657-683 | over every run confirmations, plus one while finalizing, never exceed requests; after a request `render` draws nothing and the application is never in the foreground |
| CloseProtocol.FinalizingConfirmsIff | module-apps/apps-common/ApplicationCommon.cpp:385-396 | exactly which single messages confirm a waiting close |
| CloseProtocol.WaitingCloseConfirmedIff | module-apps/apps-common/ApplicationCommon.cpp:385-396 | over every run without a further request a waiting close is confirmed if and only if some message, in the state before it, runs a pending callback that asks for a refresh and leaves nothing blocked; until then it waits |
| CloseProtocol.StrandedForever | module-apps/apps-common/ApplicationCommon.cpp:385-396 | whatever is pending, the wait goes on over every run whose responses come for unknown ids or ask for no refresh |
| CloseProtocol.NothingPendingStrands | module-apps/apps-common/ApplicationCommon.cpp:385-396 | with nothing pending, no message but a new request or new registrations ever ends the wait |
| CloseProtocol.StrandedStateIsReachable | module-apps/apps-common/ApplicationCommon.cpp:1072-1075 | a cancelled blocking callback leads there |
| CloseProtocol.Application.HandleAppClose | module-apps/apps-common/ApplicationCommon.cpp:657-674 | state, callbacks and messages after a close request |
| CloseProtocol.Application.CheckBlockingRequests | module-apps/apps-common/ApplicationCommon.cpp:676-683 | a finalizing application with nothing blocked confirms |
| CloseProtocol.Application.HandleAsyncResponse | module-apps/apps-common/ApplicationCommon.cpp:385-396 | state, callbacks and messages after a response |
| CloseProtocol.Application.HandleApplicationSwitchLaunch | module-apps/apps-common/ApplicationCommon.cpp:513-558 | only a starting or background application named by the message goes to the foreground |
| CloseProtocol.Application.HandleApplicationSwitchOnAction | module-apps/apps-common/ApplicationCommon.cpp:560-571 | only a starting or background application goes to the foreground |
| CloseProtocol.Application.HandleAppFocusLost | module-apps/apps-common/ApplicationCommon.cpp:730-737 | only a foreground application goes to the background |
| CloseProtocol.Application.Render | module-apps/apps-common/ApplicationCommon.cpp:214-238 | only a foreground application with a window draws |
| AudioMux.GetAvailableInput | module-audio/Audio/AudioMux.cpp:112-142 | the scan's outcome in every case, told by where it stopped and which inputs were idle |
| AudioMux.NonMergableChoice | module-audio/Audio/AudioMux.hpp:70-74 | for a non-mergable type: none if and only if there is no input or a busy one outranks it; the last idle input is preferred |
| AudioMux.MergableNeverOverrides | module-audio/Audio/AudioMux.cpp:128-132 | a mergable type that meets a busy input of its type takes no busy input |
| AudioMux.OutranksByRank | module-audio/Audio/AudioMux.cpp:11-20 | which sounds hold off which |
| AudioMux.OnlyMeditationHoldsOffCalls | module-audio/Audio/AudioMux.cpp:112-142 | a call gets an input unless a busy one plays a meditation |
| AudioMux.RepeatedSound | module-audio/Audio/AudioMux.cpp:162-170 | a sound that finds its own kind on the only input takes it over, except the four that merge |
| AudioMux.GetInputInState | module-audio/Audio/AudioMux.cpp:87-95 | the first input in one of the states |
| AudioMux.GetPlaybackInput | module-audio/Audio/AudioMux.cpp:55-66 | none while routing or recording, else the available input |
| AudioMux.GetRoutingInput | module-audio/Audio/AudioMux.cpp:33-53 | the first routing input; if forced and there is none, the first with the largest priority number |
| AudioMux.IncrementsAreModular | module-audio/Audio/AudioCommon.hpp:298-303 | n increments are addition modulo 32768 |
| AudioMux.ConsecutiveTokensDistinct | module-audio/Audio/AudioCommon.hpp:298-303 | increments give valid tokens, equal if and only if a multiple of 32768 apart |
| AudioMux.Run | module-audio/Audio/AudioMux.cpp:144-151 | on every run each token is the one its increment number determines, and no two inputs have one increment |
| AudioMux.TokensCollideIff | module-audio/Audio/AudioMux.cpp:144-151 | two inputs share a token if and only if their increments are a multiple of 32768 apart |
| AudioMux.TokensCanCollide | module-audio/Audio/AudioMux.cpp:97-110 | after 32768 resets of the first of two inputs both have one token, and looking up the second's finds the first |
| AudioMux.TokensNameOwnersInEveryRun | module-audio/Audio/AudioMux.cpp:97-110 | on every run with no token over 32767 increments old, tokens are distinct and lookup finds the owner |
| AudioMux.AudioMux.constructor | module-audio/Audio/AudioMux.cpp:23-31 | at least one input, and up to 32768 inputs get distinct tokens |
| AudioMux.AudioMux.Reset | module-audio/Audio/AudioMux.cpp:144-151 | the next token, given to the input with its vibration off; other inputs unchanged |
| BufferSizing.CeilPowerOfTwoIsLeast | module-utils/math/Math.hpp:72-85 | below 2^31 it is the least power of two not smaller |
| BufferSizing.BytesThereAndBack | module-audio/Audio/AudioFormat.cpp:93-106 | bytes to microseconds and back never gains and loses at most one byte per started 1,000,000 bytes/s |
| BufferSizing.SecondOfSound | module-audio/Audio/AudioFormat.cpp:25-28 | the bytes of one second of sound last a second, where the rate fits 32 bits |
| BufferSizing.GetBlockSizeConstraint | module-audio/Audio/StreamFactory.cpp:101-125 | refused if and only if a size is zero or two differ; otherwise the one size named, or none |
| BufferSizing.GetTimingConstraints | module-audio/Audio/StreamFactory.cpp:127-141 | the largest constraint; refused if and only if the first is missing and all count as zero |
| BufferSizing.BlocksNeededIsLeast | module-audio/Audio/StreamFactory.cpp:65-68 | the number of blocks is the least that last as long as the constraint |
| BufferSizing.BufferingIs | module-audio/Audio/StreamFactory.cpp:67-68 | 24 times that many are buffered, if this fits unsigned int |
| BufferSizing.BufferingCoversConstraintIff | module-audio/Audio/StreamFactory.cpp:65-68 | buffering times true block duration is at least 24 times the time constraint if and only if the number of blocks fits unsigned int |
| BufferSizing.BufferingCanWrap | module-audio/Audio/StreamFactory.cpp:67-68 | a block size and constraint for which it does not |
| BufferSizing.UnconstrainedBuffering | module-audio/Audio/StreamFactory.cpp:61-68 | for at least 8000 bytes/s and 1 ms, without a block-size constraint: a block size is found if and only if the time constraint needs less than 2^31 bytes, and then the buffering is 24 or 48 |
| BufferSizing.MakeStream | module-audio/Audio/StreamFactory.cpp:48-76 | refused exactly for a null format, conflicting sizes or no timing; undefined exactly for a zero rate, a block of no whole microsecond or a quotient beyond unsigned int; otherwise sized by the agreed size or the one fitting the largest constraint, with every constraint covered 24 times if and only if the number of blocks does not wrap |
| BufferSizing.SmearOnes | host-tools/genlittlefs/parse_partitions.c:78-82 | the five steps set all bits below the highest and no other |
| BufferSizing.TableIsRight | host-tools/genlittlefs/parse_partitions.c:75-84 | the table maps each such number to the position of its highest bit |
| BufferSizing.CalculateShift | host-tools/genlittlefs/parse_partitions.c:72-85 | the result is the logarithm to base 2, rounded down, of every nonzero 32-bit number |

## Left out

- Listeners, locks and allocators of the stream: each call is one atomic step, and its event is an output.
- StreamBuffer.Stream.constructor: a block size or count of zero, with which the cursors leave the buffer, is not modelled.
- StreamBuffer.Stream.Pop: the destination is memory outside the ring; popping into a span of the stream's own buffer is not modelled.
- URC parsing, the AT channel, timeouts and the command factory.
- SQL text: a script is taken as a sequence of whole statements, one a line, so a last statement without a semicolon that
  would run into the next revision's text is not captured.
- Development scripts of the migration tool: merging them changes their order relative to the up scripts.
- Migration.CommitPreservesUpgrade: for arbitrary databases its condition, that scripts leave nothing in their connection, is sufficient; the exact one is proved for the interpretation of `MergedUpSessionIff`, which sees every difference.
- Two revisions whose directories collide because ids agree in their first eight characters and messages are equal.
- What windows do when shown or closed, except registering and cancelling callbacks while closing; switch data; key input.
- A missing window below the SIM info popup in `returnToPreviousWindow`, where the source dereferences an empty optional: the model sends no message.
- The iterator left behind by an erase in `dropPendingPopups` is formally invalid in C++; the model takes it as the position it denotes in memory.
- Windows.Push: building a window nobody registered also leaves an empty builder behind, so that the name counts as registered from then on; the model's set of builders is fixed.
- CloseProtocol.RunKeepsCloseInvariant: speaks of `render`; `requestShutdownWindow` (module-apps/apps-common/ApplicationCommon.cpp:938-964) draws in any state and is no message of the model.
- InitHandler and DeinitHandler: a run starts after the first and ends before the second.
- A mux over inputs built elsewhere, whose tokens may be anything at the start.
- Rounding of double in the rate conversions: the model computes with exact rationals, and sizes are 32 bits wide as on the device.
- Bluetooth, key storage, file-system tools, GUI and all other modules, which would add easy members or depend on libraries not modelled.
