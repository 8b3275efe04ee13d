# usher: proofs about its readers, schedulers, queues and pools

usher is a daemon that drives coding-agent command lines. This project models
the parts of it that are algorithms and state machines, in the shape its Go code
gives them, and proves what they keep. `dafny verify dfyconfig.toml` checks all
of it.

| file | what it models |
|---|---|
| `Lines`, `PiTranscript`, `TurnSpans`, `TurnContents`, `TurnCuts`, `Branch`, `PiLog`, `LogGrowth`, `Decimal`, `Window` | paging through an append-only session log: the window reader over the pi assembler and the pi log's branches, and the fork command over the same branches |
| `Calendar`, `Cron`, `Text`, `CronSteps`, `CronParse`, `CronMeaning`, `Runner` | a Gregorian calendar, the cron engine's search, its parser, and the schedule runner |
| `SendQueue`, `SendRuns` | a session's send queue and the foreign-turn watcher: the critical sections on the router's maps, and every interleaving of them |
| `WorkerPool`, `PoolRuns` | the worker pools: the managers' methods, and every interleaving |
| `ClaudeTurns`, `ClaudeTasks` | the turn queue and the background tasks of one Claude process |
| `CompleteLines`, `Discovery`, `Tail` | reading a growing log: metadata, whole or sparse, and the two tailers |
| `UsageLimit` | resuming a session once its usage limit resets |
| `Search`, `Relay`, `Markdown` | folded search, relay notes, the Lark markdown escaper |

How things stand for one another:

- A log is its bytes below the size taken when it was opened. `Log.decode` gives
  a line's id, parent and decoded record; JSON is not modelled.
- A method with `modifies` is one critical section, or a run of them with nothing
  in between. Its `ensures` gives the new state by a function on values, and the
  transition systems (`SendRuns`, `PoolRuns`, `ClaudeRuns`, `LimitRuns`) take the
  same functions as their atomic steps, in any order an environment allows.
  Their history fields only record what happened. Methods that stand for one step
  and are called by nothing: `AbortOperation` and `EndOperation` are the pool's
  `On` with `Aborted` and `Ended`; `EndUsageLimit`, `CancelLimitWait` and
  `SentResume` are a limit's `Ended`, `Cancelled` and `Forgotten`.
- A token, worker key, request number or record serial stands for a Go pointer's
  identity.
- A reading's `missed` flags, a zone's `offset` and `resolve`, the time, the
  jitter, file sizes and what a client reports are parameters, so the results
  hold for any of them.

Where the code does not do what its own comments say, the code is kept and the
difference proved:

- **Paging.** A page that ends ahead of an error turn does not hold the parts the
  error's own record added to the reply before it. Reading up to every turn gives
  the turns ahead of it exactly when no failed record adds anything to the turn
  it closes (`TurnCuts.SelfContainedExact`). Paging back gives back the transcript
  on those logs; on any log, when pages are of one turn or had from one span each,
  it does if and only if reading up to each turn where a page ends finds the turn
  ahead of it, so one turn at a time on those logs alone (`Window.PageBack`).
  `TurnCuts.FailedReplyIsCut` is a log where a part is lost.
- **Texts overwritten.** The turns of a transcript say each text of its assistant
  records once, in order (`TurnContents.EveryTextOnce`), as long as no tool result
  overwrites one: a record's texts are all said if and only if it is no result whose
  call's id is that of a text with other content (`TurnContents.FeedSays`). Only a
  result without a call's id can be one (`TurnContents.NamedResults`);
  `TurnContents.TextLost` is a log where it is.
- **Growing branches.** Cursors are kept because logs are append-only. A branching
  log that is appended to keeps its transcript if and only if what is appended
  hangs on the entry the log ended with (`LogGrowth.BranchKeptExactly`);
  `LogGrowth.BranchMoves` is a log where it does not, and a turn a client has is
  gone.
- **Cron steps.** `a/1` is read as `a`, not as `a` to the field's maximum
  (`CronParse.StepOfOne` says exactly when the two agree). The loop's 64-bit
  addition wraps for steps near the maximum: minutes `5/9223372036854775807` are
  1, 3 and 5 (`CronParse.WrappedMinutes`). An entry means what it says if and only
  if its first value and twice its step stay below 2^64 (`CronParse.ReadAsSaid`).
- **Repeated hours.** `NextAfter` is documented to answer strictly after `t`. Its
  search starts a minute after what `time.Date` names for `t`'s clock reading. So
  every expression is answered after `t` if and only if the zone resolves `t`'s
  clock reading to less than a minute before it (`Cron.AfterExactly`), and every
  window from `t` that fires holds a match if and only if that is so
  (`Runner.FiredHoldsMatch`). Where clocks west of Greenwich are set back, a
  repeated reading names its first showing. In the second one an expression is
  answered at or before `t` if and only if it admits a reading of the hour from
  the next one on, or any of them in the hour's last minute
  (`Cron.FoldGoesBack`); a schedule then fires at each tick, in windows that hold no match
  (`Runner.FiresEarly`, `Runner.FiresAgain`).
- **Claude's rollback.** A send whose write fails takes the last request off the
  queue, whichever it is. Every other send stays queued if and only if that was
  its own or one of Claude's own (`ClaudeRuns.RollbackExact`). So over a run, once
  the process has died, a written send was finished if and only if no rollback of
  another send took it (`ClaudeRuns.ExactlyOnce`). `ClaudeRuns.LostReply` is a run
  where one did, and the caller never hears back; `ClaudeRuns.RollbackOfNothing`
  is one where there is nothing to take.
- **Sparse reading.** A sparse reading tears a line exactly when the log's last
  16 MiB and the byte ahead of them hold no newline (`Discovery.Reading.ReadSparse`);
  it then goes on from the end of the log, inside that line, and feeds the rest of
  it as a line of its own once it ends. What a reading was fed are lines of the log
  if and only if it tore none or has not read on yet (`Discovery.FedExactly`).
  `Discovery.Tears` reads a log that does.

## Model

| member | source | states |
|---|---|---|
| Lines.FileLines | pkg/window/window.go:246-261 | the scanner's loop yields exactly the lines of a stretch, each with the offset it starts at |
| Lines.LineStart | pkg/window/window.go:265-284 | the first line start at or after an offset, and the end of the log when there is none: no line start lies between |
| Lines.SpanLines | pkg/window/window.go:246-261 | a stretch between line starts has exactly the whole log's lines that start in it |
| Lines.LineStarts | pkg/window/window.go:263-284 | the offsets of a log's lines are its line starts, and no others |
| Lines.LinesAppend | pkg/window/window.go:1-3 | appending to a log leaves the lines it has where they are |
| PiTranscript.FeedShape | pkg/pi/transcript.go:145-287 | one record completes at most two turns, an assistant's only first and a user's only last, and leaves none open when it completes any |
| PiTranscript.AssistantFed | pkg/pi/transcript.go:199-258 | an assistant record's turn gains as texts exactly its non-empty ones and as calls its named ones, in order, takes its model and ends at its time; one that failed ends that turn and adds an error turn of its own text, id and time |
| PiTranscript.ResultFed | pkg/pi/transcript.go:259-285 | a tool result sets content and error flag of the last part under its call's id, and its tool's name if it had none, and of no other; with no such part it adds one |
| PiTranscript.OwnFed | pkg/pi/transcript.go:153-198 | a compaction, a shown message, a question or a failure completes a turn of its own text, id and time, after the open one if that holds anything |
| PiTranscript.Assembler.FeedLineParts | pkg/pi/transcript.go:145-287 | every record's effect on the open turn, the turns it completes and the parts it hands out |
| TurnSpans.ParseIncreasing | pkg/window/window.go:161-169 | turns come in strictly increasing position, several of one line told apart by their index |
| TurnSpans.UserResets | pkg/pi/transcript.go:190-199 | a user line with text is where an assembler can start afresh: the turns of any lines are those ahead of it, then those a new assembler makes of it and the rest, in the same places, whatever turn was open |
| TurnSpans.ColdAgrees | pkg/window/window.go:178-204 | two assemblers in any states agree on all turns from the first user turn on |
| TurnSpans.ColdSpan | pkg/window/window.go:182-243 | what a mid-file span keeps is the end of what a read from the top keeps |
| TurnContents.FeedSays | pkg/pi/transcript.go:199-285 | a record's texts are added to what was said, and nothing lost, if and only if it is no result that overwrites a text |
| TurnContents.EveryTextOnce | pkg/pi/transcript.go:145-287 | a transcript's turns say exactly the texts of its assistant records, each once and in order, when no result overwrites one |
| TurnContents.NamedResults | pkg/pi/transcript.go:264-278 | results that name their call overwrite no text |
| TurnContents.TextLost | pkg/pi/transcript.go:264-278 | a log where a result that names none takes a text's place |
| TurnContents.OwnTurnsOnce | pkg/pi/transcript.go:145-287 | apart from replies a transcript's turns are exactly those its records are by themselves, in order |
| TurnCuts.AddsNothingExact | pkg/pi/transcript.go:246-256 | when closing a turn on a failed record yields the turn as it was before it |
| TurnCuts.TurnLine | pkg/window/window.go:161-165 | every turn's position is the offset of one of the log's lines |
| TurnCuts.SpanIsSlice | pkg/window/window.go:182-243 | the turns of a span that ends at a turn are the ones just ahead of that turn, and all of them when it starts at the top |
| TurnCuts.DirtyCut | pkg/pi/transcript.go:246-256 | a failed record that adds to the open turn makes reading up to its error turn differ from the turns ahead of it |
| TurnCuts.JoinsExact | pkg/window/window.go:50-52 | reading up to each turn ends with the turn ahead of it if and only if no failed record adds anything to the turn it closes |
| TurnCuts.JoinsWhole | pkg/window/window.go:50-52 | reading up to a turn ends with the turn ahead of it if and only if it yields all the turns ahead of it |
| TurnCuts.SelfContainedExact | pkg/window/window.go:50-52 | reading up to each turn yields the turns ahead of it if and only if no failed record adds anything to the turn it closes |
| TurnCuts.Growth | pkg/window/window.go:1-3 | more lines leave every turn but the last unchanged, and every turn where it was |
| TurnCuts.FailedReplyIsCut | pkg/pi/transcript.go:246-256 | a question, a call and a failed reply: read up to the error turn, the reply loses a part |
| Branch.ClimbIsTrace | pkg/pi/transcript.go:112-125 | climbing the id map from a leaf and reversing gives the branch that one pass over the entries defines |
| Branch.TraceLinked | pkg/pi/transcript.go:72-75 | a branch is linked parent to child and ends in its leaf |
| Branch.TraceRooted | pkg/pi/transcript.go:72-75 | a branch starts at an entry whose parent is not in the log |
| Branch.TraceSplit | pkg/pi/transcript.go:72-75 | a branch over two stretches is the earlier one's branch to what the later one hangs off, then the later one's |
| Branch.WalkUp | pkg/pi/fork.go:48-61 | the walk to the root meets what climbing the map does, for cyclic parents too, and tells the parent it could not find |
| Branch.StopAtEnd | pkg/pi/fork.go:48-61 | a climb stops at the parent of the last entry it met, which is not in the map or was met |
| Branch.Choose | pkg/pi/fork.go:66-81 | the first user message after the fork point, or clone when none follows |
| Branch.ForkRPCCommand | pkg/pi/fork.go:31-82 | each error exactly when its cause holds, and else fork at the first user message after the point on the active branch, or clone if and only if there is none |
| PiLog.TranscriptInOrder | pkg/pi/transcript.go:72-75 | the active branch's lines come in increasing offset order |
| PiLog.ClimbUp | pkg/pi/transcript.go:112-120 | the climb that deletes what it visits ends, on cyclic parents too, with the branch leaf first |
| PiLog.BranchStretch | pkg/pi/transcript.go:76-126 | a branch read within a stretch is the whole branch's lines that lie in it |
| PiLog.BranchLines | pkg/pi/transcript.go:76-126 | what a span yields: its entries' branch to the leaf the line at its end, or its last entry, picks |
| PiLog.BranchRead | pkg/pi/transcript.go:76-126 | up to a line of the active branch, or the end, that is exactly the active branch's lines in the span |
| PiLog.SpanRead | pkg/window/window.go:35-39 | for either kind of log, the lines a span is read from are the transcript's lines in it |
| Decimal.ParseOfFormat | pkg/window/window.go:171-176 | a 64-bit number reads back as what was written |
| Window.ParseOfCursor | pkg/window/window.go:299-312 | a cursor parses to the position it was written from |
| Window.ReadSpan | pkg/window/window.go:182-243 | the turns that start in a span, a mid-file one's from its first user turn on, all of them before its end |
| Window.ReadBack | pkg/window/window.go:74-82 | a span read back from turn i yields turns just ahead of turn i, and all of them when it starts at the top |
| Window.Before | pkg/window/window.go:53-107 | a page is the last turns ahead of the cursor's turn, at most the limit, never empty while there are any, short of the limit only once it cost the budget, and `more` tells whether older ones exist, for every probe, budget and set of missed turns; nothing is read once a stretch was of use and the budget is spent, and no stretch used whose turns all missed context; on any log a page of one turn, or one had from one span, is the last that reading up to the cursor yields; the span loop ends |
| Window.ReadFrom | pkg/window/window.go:111-146 | exactly the turns from the cursor's on, nothing when no turn starts there, an error exactly for a bad cursor |
| Window.CursorNames | pkg/window/window.go:161-176 | the cursor on a turn names that turn |
| Window.PageBack | pkg/window/window.go:50-107 | paging back from the end, each time with the first turn's cursor, comes to an end on any log, and joins up to the whole transcript, no gap, no repeat, when the log is self-contained; on any log, for pages of one turn or had from one span each, it does if and only if reading up to each turn where a page ends finds the turn ahead of it |
| LogGrowth.BranchKeptExactly | pkg/pi/transcript.go:72-75 | a branching log's transcript is kept and only added to if and only if what is appended hangs on the entry the log ended with |
| LogGrowth.LogGrows | pkg/window/window.go:1-3 | appending whole lines, along the branch in a branching log, keeps every turn but the last, every turn's cursor, and at most adds to the last |
| LogGrowth.BranchMoves | pkg/pi/transcript.go:72-75 | a log where an appended entry takes the branch elsewhere, and a turn is gone from the transcript |
| Calendar.MonthLength | pkg/schedule/cron.go:210-237 | months follow each other without gap by the Gregorian month lengths, over year ends and leap years |
| Calendar.CivilOf | pkg/schedule/cron.go:210-237 | every minute has a valid civil time, and that time is that minute |
| Calendar.CivilUnique | pkg/schedule/cron.go:210-237 | every valid civil time is the civil time of its minute |
| Calendar.JumpsAhead | pkg/schedule/cron.go:216-225 | month, day, hour and minute jumps all go forward, overflow carried into the next field |
| Calendar.KnownDates | pkg/schedule/cron.go:198-204 | three dates and weekdays the calendar has to agree with |
| Cron.Jump | pkg/schedule/cron.go:216-228 | the search stays put exactly on a minute that matches |
| Cron.JumpSkipsNothing | pkg/schedule/cron.go:216-228 | no jump passes over a matching minute |
| Cron.NextAfter | pkg/schedule/cron.go:206-237 | the search loop ends in any zone, with the answer that AnswerIs is about |
| Cron.SearchSound | pkg/schedule/cron.go:213-237 | in any zone what is found matches and is no earlier than where the search starts, and a match there is what is found |
| Cron.SearchLeast | pkg/schedule/cron.go:213-237 | on clocks that never change it is the first match, or there is none through the limit year |
| Cron.AnswerIs | pkg/schedule/cron.go:206-237 | in any zone the answer matches, after `t` whenever the search starts there; on clocks that never change it is the least matching minute strictly after `t`, and none exactly when no minute to the end of the limit year matches |
| Cron.AfterExactly | pkg/schedule/cron.go:206-213 | in any zone every expression is answered strictly after `t` if and only if the zone resolves the minute clocks show at `t` to less than a minute before it |
| Cron.FoldGoesBack | pkg/schedule/cron.go:206-237 | in an hour that clocks four hours west of Greenwich show again when set back to five, an expression is answered at or before `t` if and only if it admits one of the hour's readings from the next on, or any in its last minute, and then with the first of those |
| CronMeaning.NarrowedBoth | pkg/schedule/cron.go:194-204 | with both day fields narrowed an expression admits what it admits with either left open |
| CronMeaning.StarredDay | pkg/schedule/cron.go:194-204 | with a star at the front of either, a minute must be on a day of the one and a weekday of the other |
| CronMeaning.AnswerAsSaid | pkg/schedule/cron.go:95-237 | from the written text to the answer: on clocks that never change it is the first minute after `t` in a month, at an hour and minute, on a day that the entries say, or none is to the end of the fifth year on |
| CronMeaning.Weekly | pkg/schedule/cron.go:194-204 | with a bare star for the day of month, only the weekday counts of a day |
| CronMeaning.Monthly | pkg/schedule/cron.go:194-204 | with one for the weekday, only the day of month does |
| CronMeaning.MonthsAre | pkg/schedule/cron.go:69-72 | months by name are numbered from January as 1 |
| CronMeaning.WeekdaysAre | pkg/schedule/cron.go:74-76 | weekdays by name are numbered from Sunday as 0 |
| CronParse.ParseField | pkg/schedule/cron.go:123-173 | the loops over parts and steps give the union of the values the 64-bit additions come by, end, and one bad part rejects the field |
| CronParse.ParseSpec | pkg/schedule/cron.go:95-121 | other than five fields, or any bad one, is an error; else the five masks and the two star flags |
| CronSteps.FirstToCome | pkg/schedule/cron.go:164-170 | a stepped loop visits exactly the values on its steps, and those it wraps to |
| CronSteps.WrapsExactly | pkg/schedule/cron.go:164-170 | it visits a value off its steps if and only if two steps from its first land at 2^64 or above |
| CronParse.ReadAsSaid | pkg/schedule/cron.go:123-173 | an entry is read as what it says if and only if its first value and twice its step stay below 2^64 |
| CronMeaning.ListedPlainly | pkg/schedule/cron.go:141-172 | an entry whose step does not wrap stands for every step-th value of the field, of itself to the greatest, or of its range, a number alone for itself, and 7 for Sunday |
| CronMeaning.ItemAccepted | pkg/schedule/cron.go:123-163 | a written entry is accepted if and only if its step is positive and fits, its numbers are in bounds, its words are names and its range runs forwards |
| CronMeaning.SpecAccepted | pkg/schedule/cron.go:95-173 | a written expression is accepted if and only if every entry of its five fields is |
| CronParse.WrappedMinutes | pkg/schedule/cron.go:164-170 | a minute field with one step that is read as three minutes |
| CronParse.FieldOfRender | pkg/schedule/cron.go:123-173 | a written list of stars, values, ranges and steps, by number or by name in any capitals, reads as the union of what its entries stand for, wrapped steps and all |
| CronParse.SpecOfRender | pkg/schedule/cron.go:95-121 | the same for five written fields, and the star flags tell whether the day fields' first entries are stars |
| CronParse.MaskInField | pkg/schedule/cron.go:175-190 | whatever the steps, a mask holds only bits up to its field's maximum |
| CronParse.StepOfOne | pkg/schedule/cron.go:156-163 | `a/n` means what is documented if and only if n is not 1 or a is the maximum, and the step does not wrap |
| Runner.NextRun | pkg/schedule/schedule.go:40-49 | nothing for a disabled or unparsable schedule; else the search's answer, in any zone |
| Runner.FiresExactly | pkg/schedule/runner.go:85-92 | on clocks that never change, a window fires a schedule exactly when it is enabled, parses and has a match in the window |
| Runner.FiredHoldsMatch | pkg/schedule/runner.go:85-92 | in any zone, every window from an instant that fires a schedule holds a match of it if and only if the zone resolves the minute clocks show then to less than a minute before |
| Runner.FiresEarly | pkg/schedule/runner.go:85-92 | in the second showing of an hour, a schedule that admits a reading from the next one on fires in every window from there |
| Runner.FiresAgain | pkg/schedule/runner.go:85-92 | a schedule and windows that fire it, none of which holds a match |
| Runner.Check | pkg/schedule/runner.go:85-92 | in any zone, each schedule fires in a window exactly when its answer from the window's start lies in it |
| Runner.Run | pkg/schedule/runner.go:66-80 | every tick checks the window from the last one, whatever the clock did in between, in any zone |
| Runner.WindowsTile | pkg/schedule/runner.go:66-80 | each instant a run spans lies in exactly one of its windows |
| Runner.EveryMatchFires | pkg/schedule/runner.go:27-30 | over a whole run each matching minute lies in exactly one window, and that window fires, within the search's horizon |
| Runner.ShortWindow | pkg/schedule/runner.go:27-30 | on clocks that never change, a window of up to five years fires a live schedule exactly when it holds a match |
| SendQueue.PlaceUnique | pkg/router/router.go:1257-1279 | an id names the one queued send that was given it |
| Router.Router.EnqueueSend | pkg/router/router.go:1184-1228 | run now on an idle session with nothing waiting, else join the line with the next number, else refused at 32; nothing of another session changes |
| Router.Router.RetractSend | pkg/router/router.go:1257-1279 | the sends the id does not name stay, in order, and the text of the one it names is returned; or nothing happens |
| Router.Router.MarkSendIdle | pkg/router/router.go:1590-1611 | the running bit is cleared and the baseline moved, unless another send holds the session |
| Router.Router.FlushSendQueue | pkg/router/router.go:1571-1585 | every waiting send is dropped and returned, oldest first |
| Router.Router.CancelSend | pkg/router/router.go:1618-1645 | with a send running, the queue is dropped and the typed texts come back in order; else a worker on a turn of its own is told from none, and nothing changes |
| Router.Router.Promote | pkg/router/router.go:1509-1547 | own running bit cleared, baseline moved, and the oldest waiting send promoted when no send runs |
| Router.Router.ReleaseSend | pkg/router/router.go:1509-1565 | as that; when the session is gone every waiting send is aborted in order and the recursion ends with an empty queue |
| Router.Router.LookForeign | pkg/router/foreignwatch.go:78-92 | first sight takes the size as told; there is reason to read exactly when nothing runs or waits and the log outgrew its baseline |
| Router.Router.CommitForeign | pkg/router/foreignwatch.go:102-111 | the baseline is committed exactly when no send runs and it is still the one read |
| SendQueue.RetractLeaves | pkg/router/router.go:1257-1279 | retracting by id leaves exactly the sends the id does not name, in order |
| SendHistory.TakeKeeps | pkg/router/router.go:1527-1547 | promoting the head keeps sends in order and each in one place |
| SendHistory.DropAtKeeps | pkg/router/router.go:1257-1279 | so does retracting one |
| SendHistory.DropLineKeeps | pkg/router/router.go:1571-1585 | flushing drops every waiting send and no other |
| SendRuns.StepQueue | pkg/router/router.go:1202-1228 | no step lets the queue pass 32 or its numbers fall out of order |
| SendRuns.StepTokens | pkg/router/router.go:1509-1565 | no step leaves waiting sends without a token to release |
| SendRuns.StepHistory | pkg/router/router.go:1202-1228 | no step reorders sends, or puts one in two places or none |
| SendRuns.StepSends | pkg/router/router.go:1202-1585 | no step makes the queue hold anything but what each waiting send asked, in order, under the number it was given |
| SendRuns.StepLog | pkg/router/foreignwatch.go:211-229 | no step moves the baseline back, or leaves a byte written while a send was registered beyond it once none is |
| SendRuns.StepWatch | pkg/router/foreignwatch.go:68-111 | what the watcher is in the middle of relaying was written while no send was registered |
| SendRuns.StepRelayed | pkg/router/foreignwatch.go:99-111 | relayed stretches stay disjoint and below the baseline |
| SendRuns.StepKeeps | pkg/router/router.go:1184-1645 | every step keeps all of these together |
| SendRuns.RunKeeps | pkg/router/router.go:1184-1645 | so every state of every run has them |
| SendRuns.NothingRelayedTwice | pkg/router/foreignwatch.go:11-19 | in every interleaving relayed stretches are pairwise disjoint, the baseline never decreases, and no byte written while a send was registered is relayed |
| SendRuns.NeverStranded | pkg/router/router.go:1184-1190 | waiting sends imply a token still to be released; once all are released the queue is empty and every accepted send was started or dropped |
| SendRuns.InOrder | pkg/router/router.go:1184-1190 | sends get the session in the order they were accepted, those waiting are exactly those queued, each as it was asked and under its number, at most 32, each id naming one |
| SendRuns.Drains | pkg/router/router.go:1509-1565 | while sends wait some turn can begin or end, and each that does brings the end of the queue nearer |
| SendRuns.RetractIs | pkg/router/router.go:1257-1279 | a retract drops the one waiting send that was given the number it names, and changes no other |
| SendRuns.SendIs | pkg/router/router.go:1184-1228 | a send runs at once on an idle session with nothing waiting, else waits last as it was asked, and is refused exactly when 32 wait |
| SendRuns.FlushIs | pkg/router/router.go:1571-1585 | a flush drops every waiting send, and no other |
| SendRuns.BeginIs | pkg/router/router.go:1527-1565 | a token's turn that begins, or falls away, is that of the send it was given to |
| SendRuns.ReleaseIs | pkg/router/router.go:1509-1547 | a turn's end frees the session if its send has it, and the oldest waiting send then has it |
| SendRuns.IdleIs | pkg/router/router.go:1590-1611 | a turn gone idle frees the session if its send has it, without promoting |
| SendRuns.FirstSight | pkg/router/foreignwatch.go:78-92 | the first sight of a log takes it as told |
| SendRuns.ForeignIsRelayed | pkg/router/foreignwatch.go:68-111 | what a session at rest writes past its baseline is relayed, all of it, once read to an end, and only while nothing runs or waits |
| WorkerPool.Manager.FindVictim | pkg/codex/manager.go:235-249 | a worker that holds nothing, and none such is better by not running, then by last use; none exactly when all hold something |
| WorkerPool.Manager.MakeRoom | pkg/claude/manager.go:328-359 | a place while there is room, else at the cost of that one victim, else refused with nothing changed |
| WorkerPool.Manager.Reserve | pkg/codex/manager.go:228-256 | the same, counting starts in flight |
| WorkerPool.Manager.Install | pkg/codex/manager.go:346-357 | a resumed session's worker takes the reserved place, or gives it back when another start came first |
| WorkerPool.Manager.Ready | pkg/codex/manager.go:359-379 | a resumed worker is usable exactly when that went well and it still owns its slot; one that failed leaves it |
| WorkerPool.Manager.Lease | pkg/codex/manager.go:295-313 | a lease is taken exactly on a worker still in its slot |
| WorkerPool.Manager.Release | pkg/codex/manager.go:315-320 | a lease ends, and the worker counts as just used |
| WorkerPool.Manager.BeginOperation | pkg/codex/manager.go:477-491 | an operation begins exactly when neither the manager nor the client has one |
| WorkerPool.Manager.Add | pkg/pi/runtime.go:1442-1469 | a new worker joins at the cost of at most one victim, or is refused; one that is live is not added again; one that cannot be spawned leaves its place empty |
| WorkerPool.Manager.EnsureProcess | pkg/claude/manager.go:310-420 | a live process is leased or touched where it is; else one is added where room was made, refused exactly by a full pool whose processes are all held, and a spawn that fails still costs the victim |
| WorkerPool.Manager.StartThread | pkg/codex/manager.go:264-289 | the place a start reserves is given back or filled, exactly once, and the victim it cost is gone, whether it fails or not |
| WorkerPool.Manager.ResumeOnce | pkg/codex/manager.go:322-380 | so is a resume's; a worker that is ready is handed out as it is, one still starting is waited for |
| WorkerPool.Manager.ReapIdle | pkg/codex/manager.go:105-131 | a pass stops exactly the workers at rest for long enough, and notes or clears on every other how long it has been idle |
| PoolRuns.StepSize | pkg/codex/manager.go:228-380 | no step lets workers and starts pass the limit, and starts counted are starts in flight |
| PoolRuns.StepBooks | pkg/codex/manager.go:295-320 | leases and operations on a worker's books are those not yet ended, and a starting worker has none |
| PoolRuns.StepIdle | pkg/codex/manager.go:105-131 | a worker noted idle since a pass was at rest at that pass and all since |
| PoolRuns.RunKeeps | pkg/codex/manager.go:228-380 | in every run, workers plus starts never exceed the limit, and the books are right |
| PoolRuns.HeldStays | pkg/codex/manager.go:78-83 | a leased, busy, pinned or starting worker leaves its slot by an explicit stop or by its own failed resume, and by nothing else |
| PoolRuns.HeldThroughout | pkg/codex/manager.go:78-83 | a worker held all along a run, and not stopped, is in its slot all along |
| PoolRuns.ReapedWasIdle | pkg/codex/manager.go:103-131 | a reaped worker was at rest at every pass from one at least `after` ago on, and was last used at least that long ago |
| PoolRuns.VictimIs | pkg/codex/manager.go:235-249 | a victim is idle; no idle worker is at rest while it runs, and none of its kind was last used before it |
| PoolRuns.EvictedIs | pkg/codex/manager.go:228-256 | a place costs a victim only in a full pool, and nothing else leaves |
| PoolRuns.StartsIs | pkg/codex/manager.go:258-357 | how starts end: the worker takes its place, still starting if resumed, or the place is given back |
| PoolRuns.AddsIs | pkg/claude/manager.go:310-420 | a process is added where room was made, leased if asked, and a failed spawn adds none |
| PoolRuns.PassIs | pkg/codex/manager.go:105-131 | what a pass notes, clears or stops: one at rest since an earlier pass goes exactly when that and its last use are long enough ago |
| PoolRuns.ReapedUnused | pkg/codex/manager.go:105-131 | over any run no pass stops a worker leased, returned, operated or touched less than `after` ago |
| PoolRuns.RefusedExactly | pkg/codex/manager.go:228-256 | in every state of every run a start can be decided: refused if and only if workers and starts make up the limit and every worker holds something, else given a place |
| ClaudeTurns.Process.BeginSend | pkg/claude/manager.go:668-673 | a send joins the end, and learns how many are ahead |
| ClaudeTurns.Process.RollbackSend | pkg/claude/manager.go:678-682 | a failed write takes the last request, whichever it is |
| ClaudeTurns.Process.FinishLifecycle | pkg/claude/manager.go:1076-1116 | a start marks its request, or puts one of Claude's own ahead of all not started; on an end the first request with the frame's uuid goes, and is finished unless it is Claude's own, and all others stay in order; any other frame changes nothing |
| ClaudeTurns.StartsByUuid | pkg/claude/manager.go:1088-1101 | which request a start marks, and where one of Claude's own goes |
| ClaudeTurns.Process.GraceOver | pkg/claude/manager.go:1146-1161 | the grace timer drops and finishes a request exactly if it is still the head |
| ClaudeTurns.Process.Died | pkg/claude/manager.go:1297-1319 | death finishes every request that is waited on, oldest first |
| ClaudeRuns.StepStarted | pkg/claude/manager.go:1076-1116 | a step keeps the started requests a prefix if and only if it starts none out of order |
| ClaudeRuns.StartedPrefix | pkg/claude/manager.go:1076-1116 | over any run in which Claude starts requests in queue order the started ones are a prefix of the queue in every state, and the first start out of order breaks it |
| ClaudeRuns.StepKeeps | pkg/claude/manager.go:650-685 | no step queues or finishes a request twice, or loses one that another send's rollback did not take |
| ClaudeRuns.ExactlyOnce | pkg/claude/manager.go:1076-1319 | no request is finished twice; a send whose write has not failed is queued or finished if and only if no rollback of another send took it, and once the process died a written one was finished if and only if none did |
| ClaudeRuns.FinishedByName | pkg/claude/manager.go:1076-1116 | a frame finishes a request exactly when it tells an end and is the first to carry its uuid, and no other |
| ClaudeRuns.GraceIs | pkg/claude/manager.go:1146-1161 | a grace that is over drops and finishes its request exactly if that is still the head |
| ClaudeRuns.DeathIs | pkg/claude/manager.go:1297-1319 | a death finishes all that is queued but Claude's own, oldest first |
| ClaudeRuns.RollbackExact | pkg/claude/manager.go:678-682 | a rollback leaves every other send queued if and only if the last request is its own or one of Claude's own; the refused one stays queued if and only if it is not the last |
| ClaudeRuns.LostReply | pkg/claude/manager.go:678-682 | a run in which a written send is never finished |
| ClaudeRuns.RollbackOfNothing | pkg/claude/manager.go:678-682 | a death between queueing and a failed write leaves the rollback an empty queue |
| ClaudeTasks.Process.TrackTask | pkg/claude/manager.go:127-155 | what each task frame adds to or takes off the tracked agents and other tasks |
| ClaudeTasks.FrameIs | pkg/claude/manager.go:116-155 | which frames start a task, which end it, and which tasks are agents |
| ClaudeTasks.TrackedWhileInFlight | pkg/claude/manager.go:116-155 | a task is tracked exactly from a frame that starts it to the first terminal one, whichever of the two comes |
| CompleteLines.CompleteGrows | pkg/discovery/read.go:19-20 | reading on from the last newline adds exactly the lines completed since |
| Discovery.Feed | pkg/discovery/read.go:88-106 | the complete lines of a stretch, or those up to the first one that leaves a prompt, and the offset after the last of them |
| Discovery.PromptFirst | pkg/discovery/read.go:88-106 | feeding up to the first prompt stops at the first newline after which there is one, or at the last newline |
| Discovery.Reading.Read | pkg/discovery/read.go:35-60 | on, from the top or sparsely as the code decides, for any log; the scanner then holds the lines up to one skipped stretch and those after it to the last newline, of what it read before the offset followed by what the log holds there |
| Discovery.Reading.ReadSparse | pkg/discovery/read.go:62-86 | the head up to the first prompt, and the shortest tail that moves the last input or reaches the head, or the longest; a line is torn exactly when that and the byte ahead of it hold no newline |
| Discovery.FedInOrder | pkg/discovery/read.go:28-33 | a reading that tore no line was fed the complete lines in order, once each, but for one stretch |
| Discovery.FedExactly | pkg/discovery/read.go:28-33 | what a reading was fed are lines of the log if and only if it tore none, or has not read on since |
| Discovery.Tears | pkg/discovery/read.go:62-86 | a reading of an actual log that tears a line, and the piece its next read feeds |
| Discovery.WholeIsFold | pkg/discovery/read.go:28-35 | a whole reading holds what one fold over all complete lines does, over any sequence of reads |
| Discovery.LatestInput | pkg/discovery/read.go:62-86 | with a scanner that keeps the latest prompt's time, a reading's last input is the whole log's, unless what follows the skipped stretch holds no prompt |
| Tail.TailTurn | pkg/sender/tail.go:106-181 | however the growth is cut up, the non-empty complete lines are heard once, in order, to the one that ends the turn, an unfinished one held back; once cancelled the rest is drained, and the turn ended |
| Tail.RightTrimmed | pkg/sender/tail.go:127 | of a line only the newlines and carriage returns at its end are cut off |
| Tail.ToldUntilStop | pkg/sender/tail.go:125-166 | a tailer goes on if and only if no line was an abort, or a completion with as many ahead of it as it skips, and has then told each line |
| Tail.ToldAtStop | pkg/sender/tail.go:125-166 | the first such line ends it: the lines ahead are told, then an abort itself and what it stands for, or a completion's end alone |
| Tail.ToldOrCut | pkg/sender/tail.go:158-166 | cancelled under a send, it tells the same or ends the turn short, with all ahead of that told |
| Tail.PollPi | pkg/pi/runtime.go:1385-1440 | one poll hands on the records completed since the offset, and moves it past them; cancelled partway it has handed on the first of them, and the offset stays; a log that shrank is read from the top |
| Tail.TrimmedSpace | pkg/pi/runtime.go:1421 | of a record only white space is trimmed, off both ends, and none is left at its end |
| Tail.PollsPi | pkg/pi/runtime.go:1385-1440 | polls over a growing log hand on each complete record once, in order, whatever sizes they saw |
| UsageLimit.Router.NoteUsageLimit | pkg/router/usagelimit.go:58-87 | what a limit event records, and whether it waits, gives up or is too far |
| UsageLimit.Router.SetLimitResume | pkg/router/usagelimit.go:114-138 | refused without a limit or for one over a day away; else armed or disarmed with a clean count |
| UsageLimit.Router.FireLimitResume | pkg/router/usagelimit.go:167-180 | a callback sends exactly when the resume is on and the recorded reset is the one it was set for |
| LimitRuns.SwitchedOn | pkg/router/usagelimit.go:116-138 | switching a resume on arms it afresh with its timer set for the recorded reset, unless it is on or the reset is over a day away |
| LimitRuns.SwitchedOff | pkg/router/usagelimit.go:116-152 | switching it off, or cancelling the wait, disarms it and stops its timer |
| LimitRuns.OffIsSilent | pkg/router/usagelimit.go:116-152 | over any run, from then on nothing is sent until it is armed again |
| LimitRuns.NotedIs | pkg/router/usagelimit.go:58-87 | what a limit event records, for a new limit, a disarmed and an armed one |
| LimitRuns.CalledBack | pkg/router/usagelimit.go:167-180 | a callback of an armed limit sends and counts, any other sends nothing |
| LimitRuns.EndForgets | pkg/router/usagelimit.go:89-97 | a turn that began after a limit was reached forgets it, and no other |
| LimitRuns.ShownIs | pkg/router/usagelimit.go:38-50 | what is shown of a limit, by what will become of it |
| LimitRuns.BoundedResumes | pkg/router/usagelimit.go:19-24 | since it was last armed a limit sent at most two resumes, each after the reset then recorded, and timers were set only for resets at most a day away |
| LimitRuns.SilentUntilArmed | pkg/router/usagelimit.go:116-152 | disarmed, given up or forgotten, nothing is sent until it is armed again |
| LimitRuns.WaitingWillSend | pkg/router/usagelimit.go:38-50 | a limit shown as waiting has its timer set for the recorded reset, and the callback sends |
| LimitRuns.GivesUpAfterTwo | pkg/router/usagelimit.go:75-84 | a limit reached again while armed is given up if and only if two resumes were sent, and armed again if and only if fewer were and the reset is near |
| Search.FoldFindAll | pkg/router/router.go:2095-2116 | the least index of an occurrence, and the most occurrences that can be had without overlap |
| Search.GreedyIsMost | pkg/router/router.go:2095-2116 | taking the next occurrence every time takes as many as any choice can |
| Search.FindAllTerms | pkg/router/router.go:2077-2093 | no match exactly when there are no terms or one is absent; else the earliest start over all of them, the length of the first one that starts there, and the sum of their counts |
| Search.SumSplit | pkg/router/router.go:2077-2093 | every term's count is in the sum |
| Relay.Router.QueueRelay | pkg/router/router.go:1090-1109 | a note joins its router's queue, the oldest past 32 dropped |
| Relay.HoldsNewest | pkg/router/router.go:1084-1085 | however many land, the queue holds the newest, 32 at most |
| Relay.NoteIs | pkg/router/router.go:1162-1177 | a note names its session and tells the failure, or the trimmed reply: none, all of it, or its first 600 characters and that it was cut |
| Relay.Router.FoldRelays | pkg/router/router.go:1121-1140 | the queued notes, the end marker and the text, with the queue emptied; the bare text when nothing waits |
| Relay.StripOfFold | pkg/router/router.go:1148-1160 | a folded prompt strips to the typed text if and only if the separator does not already occur among its notes |
| Relay.StripOfCleanFold | pkg/router/router.go:1148-1160 | it always does when no rendered note holds the end marker, for any typed text |
| Relay.StripTyped | pkg/router/router.go:1148-1160 | a prompt nothing was folded into is left alone if and only if it does not itself open and close as notes do |
| Markdown.EscapeOutsideCodeSpans | plugins/lark/markdown.go:72-101 | the index loop is the token by token escape |
| Markdown.SanitizeMarkdown | plugins/lark/markdown.go:33-63 | the line loop escapes exactly the lines that are neither fences nor inside one |
| Markdown.EscapeRuns | plugins/lark/markdown.go:72-75 | escaping changes no backtick run |
| Markdown.EscapeTokens | plugins/lark/markdown.go:72-75 | read again by the same rules an escaped line has the same runs and code spans, code text unchanged, and no `<` outside them |
| Markdown.TokensText | plugins/lark/markdown.go:72-101 | the tokens of a line are the line, nothing lost |
| Markdown.FirstIs | plugins/lark/markdown.go:77-127 | backticks open a code span if and only if a run of their length comes again, and it ends at the first such |
| Markdown.EscapedSplit | plugins/lark/markdown.go:77-90 | the entity stands exactly where a `<` stood as a character, every other token as it was |
| Markdown.FenceIs | plugins/lark/markdown.go:65-70 | a fence line is at most three spaces, then three backticks, then anything |
| Markdown.EscapeFence | plugins/lark/markdown.go:65-70 | escaping makes no fence line and unmakes none |
| Markdown.SanitizedStructure | plugins/lark/markdown.go:33-63 | sanitized text has the same lines and fences, fenced lines as they were, and any other line the same tokens but for its escaped `<` |
| Markdown.SanitizedTwice | plugins/lark/markdown.go:33-63 | sanitizing twice is sanitizing once |

## Left out

- Cron.AnswerIs: in a zone whose clocks change, that no earlier minute matches is not promised: what `time.Date` makes of a skipped or repeated reading is a parameter.
- Runner.EveryMatchFires: a window is as long as the process slept, and a match further off than the search looks (the end of the fifth year on) is not promised to fire.
- Window.Before: for a cursor its reader produced, and for one-span pages any place on a transcript line; a cursor elsewhere is still shown to give no more than the limit, and to end.
- Tail.TailTurn: waiting for the file to appear, I/O errors, and the pause between polls.
- ClaudeRuns.ExactlyOnce: a send whose write failed is promised nothing, and a write to a process that died is taken to fail.
- Discovery.Reading.Read: that a log is rewritten goes unnoticed unless it got shorter than what was read; what is said then is about the old lines and the new rest, as the code reads them.
- SendRuns.NothingRelayedTwice: the log only grows, and its size can be told once its path is known; what a process writes before its session is first registered, or after its turn was marked idle, counts as foreign.
- The JSON of log lines, I/O errors, and the 16 MiB cap on one line.
- The Claude and Codex assemblers and scanners: a scanner is any fold over lines, and a cold-start assembler only decides which turns are marked as missing context.
- 64-bit wrap-around of spans, offsets and the queue's counter; that of cron steps is modelled. Cron masks are sets of bits.
- Letter case beyond what can spell a name: lower-casing is ASCII and the two other letters whose lower case is ASCII. `unicode.ToLower` in search is any function of a character.
- Text is sequences of characters, not of UTF-8 bytes, but for logs; the tailers' white space is bytes.
- A timer callback already waiting for the lock when its timer is stopped.
- Starting a session's first turn (`beginNewSession`), direct pastes, and two sends registered for one session at once.
- Which text a promoted send carries, the creating overlay, model switches and event publishing around a turn's end.
- Explicit stops, process deaths and shutdowns of the pools are one step that may take any worker; waiting for a start, and what a shut-down client does, are not modelled.
- Runtime metadata of a finished Claude turn, and control requests.
- Tool titles and codemode scripts in the pi assembler: a decoded tool call carries its name, target and input, and `textutil.ClampBody` is taken as done by the decoder.
- Snippets, paging helpers, stores, HTTP, web push, Telegram and Lark traffic.
