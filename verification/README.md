# Pebble: ordering, logs, schedules, layers

Pebble is a service manager. This project models the libraries it rests on and
proves what they promise:

- **Ordering services** (`Graph.dfy`, `Tarjan.dfy`, `PlanOrder.dfy`, `Lanes.dfy`).
  The search for strongly connected components works on a fixed array of nodes,
  a stack and lowlinks, as the code does. Its result is the partition of the
  names into classes of mutual reachability, in reverse topological order. From
  that follows when a start or stop order exists, what it is, and that a plan
  accepted by the cycle check can always be started and stopped.
- **The log ring and its readers** (`RingBuffer.dfy`, `Iterator.dfy`). A circular
  byte array refines an ever-growing log, which only the proofs see. A reader
  that is overtaken by the writer delivers later segments of that log, with one
  complete truncation marker at each gap, in every run.
- **Formatting, parsing and merging logs** (`Formatter.dfy`, `Parser.dfy`,
  `LogMerge.dfy`, `LogPipeline.dfy`). How a payload is cut into writes does not
  show in the output; parsing the output gives the payload back, long lines
  included, unless a piece of one looks like an entry; the merge of
  several services is in time order and loses nothing, so that each payload can
  be read off it.
- **Schedules** (`Schedule.dfy`, `ScheduleText.dfy`, `Text.dfy`). The earliest
  window after a time, what week numbers and split spans mean, and printing
  against parsing.
- **Combining layers** (`LayerValues.dfy`, `Layers.dfy`). Merging objects in place,
  tables included, equals a fold of values, in which later layers win, field by
  field. It writes to no object of the inputs
  and its result shares none with them.
- **Reaping children** (`Reaper.dfy`). A protocol of atomic steps: system calls,
  sections under the mutex, and channel operations.
- **Mount entries** (`MountEntry.dfy`). The line format of getmntent(3).

Code that updates fields or variables step by step is modelled by classes and
methods with loops, each proved against a function or predicate on values; what
the source promises is then proved of those. Strings are sequences of bytes.
Times are integers, in nanoseconds where schedules are concerned.

## What turned out not to hold

- `HeadIterator(n)` with `n > 0` on a ring with nothing buffered computes its
  position from the whole array, so it starts below the tail. The first `Next`
  then reports a truncation of a log that was never written to. The position is
  a buffered one exactly when something is buffered, or the ring is a single
  newline (`RingBuffers.RingBuffer.LinePositionInRange`,
  `Iterators.EmptyHeadReportsTruncation`).
- `iterator.Next` can say yes though nothing is due: after a marker, at the tail of
  a ring of which everything was discarded, the tail position counts as below the
  end (`Iterators.NextAfterDiscard`). This is the only case
  (`Iterators.NextYesMeans`).
- A line longer than the parser's buffer is read in pieces, and a piece that looks like
  an entry is taken for one, so that part of the line is lost
  (`Parsers.PieceMistaken`). A payload is read back exactly when that does not happen
  (`Parsers.PayloadRead`).
- Before and After are documented to order services whether or not these require
  each other. They do so only within a lane: of two services one of which has to
  follow the other, it does exactly when both share a lane
  (`Lanes.SequencedIffSameLane`). Without Requires nothing is sequenced
  (`Lanes.IndependentUnsequenced`, `Lanes.AfterAcrossLanes`). In general the last
  service that is or requires one of the two decides (`Lanes.ConstraintEnforced`).
- A requirement need not share the lane of its service: a later service can take
  it away (`Lanes.RequirementTaken`). The two stay together exactly when each later
  service moves both, or neither, or one within their lane (`Lanes.StayTogether`);
  in the end any two services share a lane exactly when the last one to move either
  joins them (`Lanes.LastToTouchDecides`). And services that have nothing to do
  with each other can share one (`Lanes.UnrelatedShareLane`), but not if the last
  lane used is the highest (`Lanes.NewLaneAbove`).
- A clock span that crosses midnight and is split: the parts after midnight are
  placed on the day the span starts, before the span
  (`Schedules.SplitAcrossMidnight`). All parts lie inside the span exactly when
  the last part starts before midnight (`Schedules.PartsInside`).
- The week position 5 is documented as the last occurrence of a weekday. As the
  end of a span that starts in week 1 to 4 it means the fifth. In a month without
  a fifth one the span is cut short or empty: `mon1-mon5` was the 1st only in
  February 2021, and `mon2-mon5` no day (`Schedules.February2021`). The span ends
  at the last occurrence exactly when the month has a fifth, or the span would be
  over before it starts (`Schedules.SpanEndsAtLast`).
- `Includes` looks at the windows of one day only: half past midnight lies in a
  window of 23:00-01:00, but the schedule does not include it unless another
  window of that day does (`Schedules.HalfPastMidnight`,
  `Schedules.Schedule.OnOrCarriedOver`).
- The whole-day forms `-` and `~` that `parseClockSpan` describes are never
  reached from `ParseSchedule`, since only fragments with a colon are clock spans
  (`ScheduleTexts.WholeDayUnreachable`).
- Printing a schedule drops the spread and the count of a clock span that ends
  when it starts, though parsing accepts them. Apart from that printing and
  parsing are inverse (`ScheduleTexts.RoundTrip`).
- `Wait4` runs outside the mutex and frees the PID while it may still be registered.
  What the reaper promises is kept in all continuations of a step exactly when the
  PID handed out in that step is unused: for a command, neither registered nor just
  collected; for an adopted process, not registered for a command whose code is
  still to be delivered or whose channel has something on the way
  (`Reapers.PidUnusedIsExact`). Otherwise a command gets the exit code of another
  process (`Reapers.CodeOfAnother`), the send in `reapOnce` blocks
  (`Reapers.SendBlocked`, `Reapers.AdoptedBlocks`), or a command loses its
  registration (`Reapers.RegistrationLost`).

## Model

| member | source | states |
|---|---|---|
| `Tarjan.TarjanSort` | internals/plan/tarjan.go:33-62 | For every closed successor map: each key is emitted once and nothing else is; two names share a component if and only if each reaches the other; a successor is in the same or an earlier component; components are sorted |
| `Tarjan.TarjanData.StrongConnect` | internals/plan/tarjan.go:84-126 | Keeps the invariant of the search and takes the next node slot; afterwards the name is either emitted or on the stack with a lowlink that is the index of a stacked name it reaches and bounds all edges into the older stack |
| `Tarjan.TarjanData.ScanSuccessor` | internals/plan/tarjan.go:91-104 | One round of the successor loop, recursive call included, keeps the invariant and accounts for one successor more |
| `Tarjan.TarjanData.CloseCall` | internals/plan/tarjan.go:106-125 | Closing a call, as a root or not, restores the invariant without that call being open |
| `Tarjan.TarjanData.PopComponent` | internals/plan/tarjan.go:109-122 | Pops exactly the names down to the root, in that order, clears exactly their flags, and changes no node below |
| `Tarjan.TarjanData.constructor` | internals/plan/tarjan.go:35-39 | Starts with nothing numbered and as many node slots as keys |
| `Tarjan.RoomForCall` | internals/plan/tarjan.go:37-89 | The capacity taken from the number of keys is never exceeded, so pointers to nodes stay valid during recursion |
| `Tarjan.RootEmits` | internals/plan/tarjan.go:106-123 | When the lowlink is the own index, what is popped is a component: connected both ways, with no edge to anything not yet emitted |
| `Tarjan.StaysOnStack` | internals/plan/tarjan.go:106-125 | When it is not, the name leads to a call still open below it, and the invariant holds without popping |
| `Tarjan.ChildScanned` | internals/plan/tarjan.go:93-97 | Taking over the lowlink of a searched successor keeps lowlinks both witnessed and a bound |
| `Tarjan.NumberedScanned` | internals/plan/tarjan.go:98-103 | So does taking the index of a successor that is on the stack, and ignoring one that is emitted |
| `Tarjan.ReachEmittedBy` | internals/plan/tarjan.go:33-62 | Whatever a member of a component reaches was emitted with it or before it |
| `Tarjan.SameComponent` | internals/plan/tarjan.go:33-62 | In output with the properties of the search, sharing a component is mutual reachability, and reaching is never to a later component |
| `Tarjan.SortComponents` | internals/plan/tarjan.go:55-61 | Sorting inside components permutes each and changes nothing else |
| `PlanOrder.Predecessors` | internals/plan/plan.go:1188-1197 | The reversed dependencies have an edge exactly where Requires has one the other way |
| `PlanOrder.Collect` | internals/plan/plan.go:1199-1219 | The worklist collects exactly the closure of the names under Requires (under its reverse for stop), or names a selected service that does not exist |
| `PlanOrder.Link` | internals/plan/plan.go:1221-1246 | The successor map has an edge exactly where After or Before (swapped for stop) puts one selected service behind another |
| `PlanOrder.Order` | internals/plan/plan.go:1187-1259 | Succeeds if and only if every selected service exists and no two distinct ones lie on a constraint cycle; then returns each selected service once, none before one it has to follow; a failure names a missing selected service or distinct services on a common cycle |
| `PlanOrder.OrderRespects` | internals/plan/plan.go:1221-1259 | In a start order a service is behind those it is to come after and before those it is to come before; in a stop order it is the other way round |
| `PlanOrder.LargeIsLoop` | internals/plan/plan.go:1251-1255 | A component of two or more names is a cycle of distinct services |
| `PlanOrder.SmallIsLoopFree` | internals/plan/plan.go:1248-1258 | If all components are single names there is no cycle through two services |
| `PlanOrder.SmallAreOrdered` | internals/plan/plan.go:1248-1258 | And the components, read in order, are a valid order |
| `PlanOrder.ClosureIsSelection` | internals/plan/plan.go:1199-1219 | A set closed under dependencies that holds the names and nothing unselected is the selection |
| `PlanOrder.SelectionCloses` | internals/plan/plan.go:1199-1219 | What is started holds the names and all that its services require; what is stopped holds all services requiring one of it |
| `PlanOrder.SelectionIsLeast` | internals/plan/plan.go:1199-1219 | And it is the least set that does |
| `PlanOrder.LoopGrows` | internals/plan/plan.go:1221-1246 | A cycle among some services is a cycle among more |
| `PlanOrder.LoopTurned` | internals/plan/plan.go:1229-1246 | A cycle of the stop constraints is one of the start constraints |
| `PlanOrder.CheckCycles` | internals/plan/plan.go:1261-1268 | Accepts exactly the plans whose Requires all exist and whose start constraints have no cycle of two services |
| `PlanOrder.AcceptedNeverBlocked` | internals/plan/plan.go:1187-1268 | Once a plan is accepted, no list of existing services can fail to be ordered, for start or stop |
| `Lanes.MapServiceToLane` | internals/plan/plan.go:1149-1156 | Maps the service and all it requires to the lane, and nothing else |
| `Lanes.GetOrCreateLane` | internals/plan/plan.go:1128-1147 | Takes the lane of the service, else of the first requirement that has one, else the next after the last used |
| `Lanes.ScanStep` | internals/plan/plan.go:1128-1156 | A service that has a lane stays in it; else it takes that of its first requirement that has one, else the one after that of the service before it; all it requires goes along, and nothing else moves |
| `Lanes.LaterRequirement` | internals/plan/plan.go:1128-1156 | A requirement that comes up after its requirer, with nothing in between that moves either, shares its lane |
| `Lanes.CreateLanes` | internals/plan/plan.go:1158-1185 | Fails exactly on a missing service; else lanes hold what the scan, with all its remappings, ends up with |
| `Lanes.LanedPartitioned` | internals/plan/plan.go:1158-1185 | Every ordered name is in exactly one lane, once, and each lane keeps the order, despite remapping |
| `Lanes.IndependentLanes` | internals/plan/plan_test.go:2028-2072 | Services that require nothing get a lane each, in order |
| `Lanes.OrderedLanes` | internals/plan/plan.go:1106-1185 | So no lane has a service before one it has to follow |
| `Lanes.StartOrder` | internals/plan/plan.go:1102-1113 | Succeeds if and only if nothing is missing or cyclic, so always for existing services of an accepted plan; then the lanes are made from a valid order of the selection, and none has a service before one it has to follow |
| `Lanes.StopOrder` | internals/plan/plan.go:1115-1126 | The same for stopping, with the reverse closure and reversed constraints |
| `Lanes.SequencedIffSameLane` | internals/overlord/servstate/request.go:14-56 | A constraint between two services is enforced exactly when they share a lane |
| `Lanes.IndependentUnsequenced` | internals/plan/plan.go:1128-1185 | Services that require nothing are not sequenced, whatever Before and After say |
| `Lanes.AfterAcrossLanes` | internals/plan/plan.go:1128-1185 | A plan of two services in which the one that has to follow is in another lane |
| `Lanes.StepKeepsTogether` | internals/plan/plan.go:1149-1156 | A step of the scan keeps two services that share a lane together exactly when it moves both, or neither, or moves one within the lane |
| `Lanes.StayTogether` | internals/plan/plan.go:1158-1185 | A service and its requirement stay together from then on exactly when each later step keeps them |
| `Lanes.LastToTouchDecides` | internals/plan/plan.go:1158-1185 | Any two services share a lane exactly when the last service that moves one of them takes both along, or one to the lane of the other |
| `Lanes.SomeLastToTouch` | internals/plan/plan.go:1149-1156 | There is such a last service |
| `Lanes.RequirementKept` | internals/plan/plan.go:1149-1156 | A requirement shares the lane of its service if each later service that moves just one of them does so within their lane |
| `Lanes.SharedRequirement` | internals/plan/plan.go:1135-1141 | Services that require just the same one share its lane |
| `Lanes.ConstraintEnforced` | internals/overlord/servstate/request.go:14-56 | Before and After between two services are enforced exactly when the last service that moves one of them joins them |
| `Lanes.RequirementSequenced` | internals/overlord/servstate/request.go:14-56 | Before and After between a service and its requirement are enforced if the requirement is kept |
| `Lanes.RequirementTaken` | internals/plan/plan.go:1149-1156 | Plans in which a requirement is taken to another lane |
| `Lanes.HandedOut` | internals/plan/plan.go:1143-1146 | Every lane up to the highest was the lane of a service when it came up |
| `Lanes.NewLaneAbove` | internals/plan/plan.go:1143-1146 | A service that is to begin a lane gets one above all in use if the last lane used is the highest, and else one that was handed out before |
| `Lanes.UnrelatedShareLane` | internals/plan/plan.go:1143-1146 | Plans in which a new lane is one already in use |
| `RingBuffers.RingBuffer.Write` | internals/servicelog/ringbuffer.go:85-129 | Appends to the log the longest prefix that fits the ring, evicts only the oldest bytes it needs room for, and reports a short or refused write; every slot agrees with the log afterwards |
| `RingBuffers.LaidOutHolds` | internals/servicelog/ringbuffer.go:110-124 | Bytes laid out round the ring from the write position make it hold the longer log |
| `RingBuffers.RingBuffer.Discard` | internals/servicelog/ringbuffer.go:307-322 | Moves the tail on by the given number of bytes, at most to the head |
| `RingBuffers.RingBuffer.BuffersHold` | internals/servicelog/ringbuffer.go:371-394 | The two stretches for a non-empty buffered range hold that range of the log |
| `RingBuffers.RingBuffer.Copy` | internals/servicelog/ringbuffer.go:165-201 | Copies exactly the log bytes from the start position up to the returned one, leaves the rest of the destination alone, and tells end, emptiness and range error apart |
| `RingBuffers.RingBuffer.WriteTo` | internals/servicelog/ringbuffer.go:203-234 | Hands the writer exactly the log bytes up to the returned position, which is the head unless the writer failed |
| `RingBuffers.RingBuffer.ReverseLinePosition` | internals/servicelog/ringbuffer.go:278-305 | Keeps, of the bytes it looks at, the last n lines, or all but a leading newline if there are fewer |
| `RingBuffers.LinePositionMeans` | internals/servicelog/ringbuffer.go:278-305 | On a non-empty buffer the position is buffered, is the tail or just after a newline, with at most n newlines behind it, and exactly n if more are buffered |
| `RingBuffers.RingBuffer.LinePositionInRange` | internals/servicelog/ringbuffer.go:278-305 | The position is a buffered one exactly when something is buffered (or the ring is a single newline) |
| `Iterators.Iterator.Tail` | internals/servicelog/ringbuffer.go:236-254 | Starts at the oldest buffered byte with nothing delivered |
| `Iterators.Iterator.Head` | internals/servicelog/ringbuffer.go:256-276 | Starts that many lines back; a valid iterator exactly when no lines are asked for or something is buffered |
| `Iterators.EmptyHeadReportsTruncation` | internals/servicelog/ringbuffer.go:256-305 | Asked for lines of a ring never written to, the iterator starts a ring size below 0 and then reports a truncation |
| `Iterators.Iterator.Next` | internals/servicelog/iterator.go:80-125 | Keeps the iterator valid; a position that was overwritten goes to the tail; says yes exactly when a marker or bytes are due, or it is at the tail of a ring of which everything was discarded |
| `Iterators.NextYesMeans` | internals/servicelog/iterator.go:80-98 | A yes means that a marker or bytes are due, except at the tail of an emptied ring |
| `Iterators.NextYesOfBuffered` | internals/servicelog/iterator.go:80-98 | While something is buffered, or nothing was ever written, a yes means that something is due, and a no that nothing is |
| `Iterators.NextArms` | internals/servicelog/iterator.go:88-92 | A marker is armed exactly when the position was overwritten, none is under way and none was just delivered |
| `Iterators.NextAfterDiscard` | internals/servicelog/iterator.go:80-98 | A run in which a reader of an emptied ring is told yes though nothing is due |
| `Iterators.NextNoMeansCaughtUp` | internals/servicelog/iterator.go:80-125 | If it says no, the log was delivered to its end, or all after the last delivered byte is lost, marked by a whole marker, and nothing is buffered |
| `Iterators.Iterator.MarkTruncated` | internals/servicelog/iterator.go:187-198 | Goes to the tail, and arms one marker unless one is under way or was just delivered |
| `Iterators.Iterator.Read` | internals/servicelog/iterator.go:127-148 | Delivers the rest of a marker, or log bytes from the position, as many as fit; says EOF exactly when no marker was under way and the log is delivered to its end, or the position was overwritten; what was delivered stays marked-up segments of the log |
| `Iterators.ReadMeans` | internals/servicelog/iterator.go:127-148 | A read with room hands out the beginning of what is due, one byte at least unless it ends with EOF; it ends with EOF exactly when nothing is left and what it handed out was no marker |
| `Iterators.ReadingDelivers` | internals/servicelog/iterator.go:127-148 | Reading on, while writers add but evict nothing, delivers the beginning of what is due, and by the time of EOF everything: all that was due when the reading began and all that was written meanwhile |
| `Iterators.NextInReach` | internals/servicelog/iterator.go:88-92 | After Next the position is in the ring, as this asks for |
| `Iterators.ReadOvertaken` | internals/servicelog/iterator.go:143-146 | A read at a position that was overwritten delivers nothing and says EOF, but has the marker to deliver next unless that was just delivered |
| `Iterators.Iterator.WriteTo` | internals/servicelog/iterator.go:150-171 | The same for a writer that may take less; without an error everything due was delivered; the error says whether the writer failed, or the position was overwritten |
| `Iterators.TakesKeeps` | internals/servicelog/iterator.go:127-171 | Any delivery extends the record of segments and markers by exactly the bytes handed out |
| `Iterators.RingMovesKeeps` | internals/servicelog/ringbuffer.go:85-129 | Writers and discards invalidate no reader and change nothing that was delivered |
| `Iterators.StillValid` | internals/servicelog/ringbuffer.go:85-129 | Nor do they invalidate iterator objects of that ring |
| `Iterators.RunDelivers` | internals/servicelog/iterator.go:80-198 | In every interleaving of writes, discards, Next, Read and WriteTo, what a reader got is increasing, disjoint segments of the log from its start on, with a complete marker between any two and nowhere else |
| `Formatters.Formatter.Write` | internals/servicelog/formatter.go:55-97 | After any sequence of writes the output is the formatting of the concatenated payload: it depends on the payload and one timestamp a line, not on how the payload was cut |
| `Formatters.Formatter.WritePart` | internals/servicelog/formatter.go:60-95 | Part of a line draws a timestamp exactly when it begins the line |
| `Formatters.AppendWithinLine` | internals/servicelog/formatter.go:34-46 | Text within one line adds itself, behind one prefix if it begins the line |
| `Parsers.ParsePrefixed` | internals/servicelog/parser.go:113-130 | A prefixed line parses to its timestamp, service and message, for a service name without spaces |
| `Parsers.ParseMeans` | internals/servicelog/parser.go:113-130 | A line parses to an entry exactly if it is a timestamp of that time, its service in brackets and its message, with no space in timestamp or service, and a service that is not empty |
| `Parsers.Parser.Next` | internals/servicelog/parser.go:61-100 | An empty read ends it. A line that parses becomes the entry, and the answer is whether it has a message. Any other line is handed out whole under the time and service of the last entry, or skipped if there is none. Exactly that line is consumed |
| `Parsers.FormattedSplits` | internals/servicelog/formatter.go:55-97 | The formatting of a payload is its first line, prefixed, then the formatting of the rest |
| `Parsers.ParseOfFormatted` | internals/servicelog/parser_test.go:152-171 | Parsing a formatted payload to the end gives one entry for each line, and more under the same time for lines longer than the buffer, whatever entry the parser had before |
| `Parsers.ExpectedIsPayload` | internals/servicelog/parser_test.go:152-171 | The messages of those entries concatenate to the payload; there are at least as many as lines, and exactly as many if and only if all lines fit the buffer |
| `Parsers.PayloadRead` | internals/servicelog/parser.go:61-100 | With prefixes that leave room in the buffer, the messages make up the payload exactly if each line fits or goes on in pieces none of which looks like an entry, under a time that is not zero |
| `Parsers.PieceMistaken` | internals/servicelog/parser.go:61-100 | Payloads that are not read back: a line holding its own prefix, with room for a prefix and one byte |
| `LogMerge.LogStreamer.NextLog` | internals/daemon/api_logs.go:244-296 | Sends the earliest pending log, the first service on a tie, and takes just that from the pending ones; sends an empty log exactly when none is pending |
| `LogMerge.LogStreamer.Fetch` | internals/daemon/api_logs.go:245-260 | Fills every empty slot whose parser has more and loses nothing |
| `LogMerge.LogStreamer.FindEarliest` | internals/daemon/api_logs.go:262-271 | Finds the first pending stream with the earliest log |
| `LogMerge.MergeOrdered` | internals/daemon/api_logs.go:206-296 | Streams in time order merge to a list in time order |
| `LogMerge.MergeKeepsStreams` | internals/daemon/api_logs.go:206-296 | The merge has all entries, and those of each service are its stream, in order |
| `LogMerge.Push` | internals/daemon/api_logs.go:174-184 | The FIFO holds the last entries of what was pushed |
| `LogMerge.Serve` | internals/daemon/api_logs.go:147-204 | Serves the last n of the merged logs up to the first that is later than the request, or all of those if n is not positive |
| `LogMerge.TrimFirst` | internals/daemon/api_logs.go:100-184 | Trimming what each service has to its last n entries, before more arrives, does not change the last n of the merge |
| `LogMerge.MergeWithoutFirst` | internals/daemon/api_logs.go:206-296 | Taking the oldest entry of one stream away takes exactly that entry out of the merge |
| `LogMerge.TrimmedServe` | internals/daemon/api_logs.go:100-184 | Since logs are trimmed before the request time is taken, cutting each service to its end, of n logs at least, never changes the last n logs served |
| `LogMerge.MergeEarly` | internals/daemon/api_logs.go:167-172 | Cutting the merge at the request time is merging streams that are cut there |
| `LogPipeline.StreamDelivers` | internals/servicelog/parser.go:61-100 | What the parser delivers of a service with rising timestamps is in time order, complete and under its name |
| `LogPipeline.PayloadsSurvive` | internals/daemon/api_logs.go:206-296 | Formatting, parsing and merging together: the merge is in time order, and each service's payload is the messages it has in it |
| `Schedules.FindNthWeekDay` | internals/timeutil/schedule.go:132-147 | Finds the n-th such weekday from the start of the month on |
| `Schedules.Match` | internals/timeutil/schedule.go:149-177 | Decides whether a day matches a week span |
| `Schedules.WeekdaySpan` | internals/timeutil/schedule.go:149-177 | A span without week numbers holds the days at most as many weekdays after its start as its end is, round the week |
| `Schedules.LastWeekSpan` | internals/timeutil/schedule.go:149-177 | A span of position 5 at both ends holds those of these days that are the last such weekday of their month |
| `Schedules.NumberedWeekday` | internals/timeutil/schedule.go:99-107 | A single numbered weekday is the one day of the month that is its n-th such weekday |
| `Schedules.LastWeekday` | internals/timeutil/schedule.go:99-107 | Position 5 alone is the last such weekday of the month |
| `Schedules.NumberedSpan` | internals/timeutil/schedule.go:149-177 | A numbered span is the days from its first to its last weekday |
| `Schedules.SpanToWeekFive` | internals/timeutil/schedule.go:149-177 | Which days a span from week 1 to 4 up to week 5 matches, in months with and without a fifth such weekday |
| `Schedules.LastOfIsLast` | internals/timeutil/schedule.go:99-107 | The fifth such weekday of a month, or else the fourth, is the last |
| `Schedules.SpanEndsAtLast` | internals/timeutil/schedule.go:99-177 | In a month such a span ends at the last such weekday exactly when there is a fifth, or it is over before it starts |
| `Schedules.February2021` | internals/timeutil/schedule.go:149-177 | A month in which "mon1-mon5" is one day and "mon2-mon5" none |
| `Schedules.WindowMeans` | internals/timeutil/schedule.go:206-222 | A window begins at the start of the span and is over when the clock next shows its end, at once if that is the same; a whole day only from 0:00 to 24:00 |
| `Schedules.ClockSpan.ClockSpans` | internals/timeutil/schedule.go:224-248 | Returns as many parts as the split says, or the span itself when there is nothing to split |
| `Schedules.PartWindow` | internals/timeutil/schedule.go:206-248 | Where the window of each part lies: whole minutes from its equal share of the span, going round at midnight but staying on the day; it is spread if the span is |
| `Schedules.PartsInside` | internals/timeutil/schedule.go:224-248 | All parts lie inside the span exactly when the last one starts before midnight |
| `Schedules.PartsApart` | internals/timeutil/schedule.go:224-248 | No two parts overlap, those that midnight puts before the span included |
| `Schedules.SplitAcrossMidnight` | internals/timeutil/schedule.go:224-248 | The second half of 23:00-01:00/2 comes before the span |
| `Schedules.Schedule.FlattenedClockSpans` | internals/timeutil/schedule.go:279-290 | All parts of all spans, in order; midnight when there are none |
| `Schedules.AllPartsAre` | internals/timeutil/schedule.go:279-290 | They are exactly the parts of the spans |
| `Schedules.Schedule.MidnightByDefault` | internals/timeutil/schedule.go:279-290 | A schedule without clock spans is on for the first minute of its days |
| `Schedules.Schedule.Earliest` | internals/timeutil/schedule.go:352-377 | The earliest window of one day that is not over and that the last time does not fall in, if there is one |
| `Schedules.Schedule.Next` | internals/timeutil/schedule.go:322-381 | Returns a window of a matching day that is not over at now and excludes last; none from the day of last on starts earlier, and with last <= now none on any day does, windows across midnight included |
| `Schedules.Schedule.FirstDayDecides` | internals/timeutil/schedule.go:322-381 | The earliest window of the first day that has one is the earliest of all |
| `Schedules.Schedule.NoneBefore` | internals/timeutil/schedule.go:322-381 | No window that starts on a day before last qualifies |
| `Schedules.Schedule.WeeklyTerminates` | internals/timeutil/schedule.go:322-381 | With some span without week numbers, or no span, the search ends, at most seven days after the later of last and now |
| `Schedules.Schedule.RecurringTerminates` | internals/timeutil/schedule.go:322-381 | It ends within 62 days if some span has a day in every month: a single numbered weekday, the last ones, or one from a lower to a higher week below 5 |
| `Schedules.Schedule.Includes` | internals/timeutil/schedule.go:713-744 | Decides whether a time falls in a window of its day, a moment lasting a minute |
| `Schedules.Schedule.OnAtStart` | internals/timeutil/schedule.go:322-381 | Includes accepts the start of any window that Next can return, unless that start is 24:00 |
| `Schedules.Schedule.OnOrCarriedOver` | internals/timeutil/schedule.go:713-744 | A time lies in a window of some day exactly when Includes accepts it or a window of the matched day before reaches past it |
| `Schedules.HalfPastMidnight` | internals/timeutil/schedule.go:713-744 | A schedule of 23:00-01:00 does not include half past midnight |
| `ScheduleTexts.String` | internals/timeutil/schedule.go:256-277 | Prints the spans of a schedule, week spans first, separated by commas |
| `ScheduleTexts.ParseEventSet` | internals/timeutil/schedule.go:658-711 | Returns a schedule that the text describes: week spans, then clock spans, told apart by their colon; fails only if there is none |
| `ScheduleTexts.ParseSchedule` | internals/timeutil/schedule.go:515-528 | Returns the schedules that the event sets describe, or fails if some set describes none |
| `ScheduleTexts.DenotesOne` | internals/timeutil/schedule.go:515-711 | A text stands for one list of schedules at most |
| `ScheduleTexts.ParsedIsWellFormed` | internals/timeutil/schedule.go:515-711 | Whatever parsing returns has valid weekdays, positions and clocks and counts of 32 bits, and is not empty |
| `ScheduleTexts.ClockRoundTrip` | internals/timeutil/schedule.go:37-92 | A printed clock parses to itself |
| `ScheduleTexts.ParseClockMeans` | internals/timeutil/schedule.go:29-92 | A clock parses from its printed form, from the one without a leading 0, and from nothing else |
| `ScheduleTexts.WeekSpanRoundTrip` | internals/timeutil/schedule.go:109-130 | A printed week span parses to itself |
| `ScheduleTexts.ParseWeekdayMeans` | internals/timeutil/schedule.go:604-628 | A weekday parses from its printed form only |
| `ScheduleTexts.ParseWeekSpanMeans` | internals/timeutil/schedule.go:530-563 | A valid week span parses from its two weekdays with a dash between, from the one weekday if both are the same, and from nothing else |
| `ScheduleTexts.ClockSpanRoundTrip` | internals/timeutil/schedule.go:191-204 | A printed clock span parses to itself, without count and spread if it ends when it starts |
| `ScheduleTexts.ParseCountMeans` | internals/timeutil/schedule.go:630-650 | A count is a slash and a number of 32 bits, not 0, behind a text without slashes, or nothing |
| `ScheduleTexts.ParseClockSpanMeans` | internals/timeutil/schedule.go:565-602 | Exactly which texts parse to a clock span: two clocks and a dash, or a tilde for a spread, or one clock, or the whole-day forms, each with or without a count |
| `ScheduleTexts.RoundTrip` | internals/timeutil/schedule.go:256-277 | For every schedule: its text stands for it alone if and only if it is well formed and its spans of no length have neither spread nor count |
| `ScheduleTexts.ListDenotes` | internals/timeutil/schedule.go:515-528 | Several printed schedules with two commas between stand for all of them, without what printing leaves out |
| `ScheduleTexts.PlainIsOn` | internals/timeutil/schedule.go:716-744 | What printing leaves out does not change when a schedule is on |
| `ScheduleTexts.ParsePrintParse` | internals/timeutil/schedule.go:515-744 | A schedule parsed, printed and parsed again is on at the same times |
| `ScheduleTexts.WholeDayUnreachable` | internals/timeutil/schedule.go:565-602 | No clock-span fragment is one of the whole-day forms |
| `LayerValues.CombinedSplits` | internals/plan/plan.go:733-802 | Folding two groups of layers in turn is folding all of them |
| `LayerValues.DefinedIff` | internals/plan/plan.go:733-802 | A name is combined exactly if some layer defines it; then there is a definition to start from |
| `LayerValues.LaterLayerWins` | internals/plan/plan.go:263-328 | Above the last replacing definition, or the first if none replaces: each text, action, ID and duration of the combined service is that of the last definition that sets it; each list is the lists of the definitions in order; each table entry is that of the last definition holding the key; backoff values nobody sets are the defaults |
| `LayerValues.LaterTargetWins` | internals/plan/plan.go:669-684 | The same for log targets: type, location, services and labels |
| `LayerValues.ReplaceStartsOver` | internals/plan/plan.go:742-743 | Nothing below a replacing definition matters |
| `LayerValues.MergesRegroup` | internals/plan/plan.go:735-741 | Definitions that only merge can be combined among themselves first |
| `LayerValues.MergeServiceAssociative` | internals/plan/plan.go:263-328 | Merging services is associative |
| `LayerValues.MergeTargetAssociative` | internals/plan/plan.go:669-684 | Merging log targets is associative |
| `LayerValues.ServiceMergesRegroup` | internals/plan/plan.go:735-741 | So a run of merging layers can be combined among itself before it is merged into a service |
| `LayerValues.TargetMergesRegroup` | internals/plan/plan.go:781-787 | The same for log targets |
| `LayerValues.PrefixAsBase` | internals/plan/plan.go:1577-1596 | Combining some layers first and stacking the rest on the result gives the services of combining all at once, defaults included |
| `LayerValues.TargetPrefixAsBase` | internals/plan/plan.go:1577-1596 | The same for log targets |
| `LayerValues.BaseValid` | internals/plan/plan.go:1577-1596 | The combined services can be stacked as a layer: their overrides are valid |
| `LayerValues.TargetBaseValid` | internals/plan/plan.go:1577-1596 | So can the combined log targets |
| `Layers.Service.Copy` | internals/plan/plan.go:246-261 | A new object with new tables and the same value |
| `Layers.Clone` | internals/plan/plan.go:252-259 | A new table with the same entries, or none for none |
| `Layers.Overlay` | internals/plan/plan.go:301-318 | Writes all entries of one table into the other, in place, and makes one if there was none |
| `Layers.Service.Merge` | internals/plan/plan.go:263-328 | Takes over what is set in the other service, appends its lists and writes into this service's tables only, even if the two share some |
| `Layers.Service.SetDefaults` | internals/plan/plan.go:804-815 | Sets the backoff values that are not set, without marking them as set |
| `Layers.LogTarget.Copy` | internals/plan/plan.go:661-667 | A new object with a new table of labels and the same value |
| `Layers.LogTarget.Merge` | internals/plan/plan.go:669-684 | Takes over what is set in the other target, appends its services and writes its labels into this one's table |
| `Layers.AddService` | internals/plan/plan.go:734-754 | One definition merges into, or replaces, what was combined under its name, writing only to services and tables of this combination, no two of which share any; fails exactly on a missing or unknown override |
| `Layers.AddTarget` | internals/plan/plan.go:780-801 | The same for log targets |
| `Layers.AddLayer` | internals/plan/plan.go:733-802 | Adds all definitions of one layer, in whatever order its names come |
| `Layers.FoldAllIsCombined` | internals/plan/plan.go:733-802 | Folding whole layers gives, name by name, the fold of the definitions of that name |
| `Layers.CombineLayers` | internals/plan/plan.go:696-841 | Succeeds exactly when all overrides are valid; then holds for each name the fold of its definitions, with defaults; services, targets and tables of the result are all new and shared by no two entries, and nothing that existed before is written to |
| `Reapers.StepKeeps` | internals/reaper/reaper.go:121-213 | Every step that hands out no PID in use keeps the exit code of every started command, existing or to come, in one place and right there until it is delivered |
| `Reapers.RunKeeps` | internals/reaper/reaper.go:121-213 | So does every run of such steps |
| `Reapers.RunIsSound` | internals/reaper/reaper.go:121-213 | In every such run a received code is the one the own child exited with, no exit code is lost, every wait finds its command's channel however late it comes, and the send in reapOnce never blocks |
| `Reapers.PidUnusedIsExact` | internals/reaper/reaper.go:121-213 | From every state so reached: these promises hold in all continuations of a step exactly when the PID it hands out is unused |
| `Reapers.CollectedPidGivesWrongCode` | internals/reaper/reaper.go:121-144 | A command started under the PID of a process just collected can be handed that process's code |
| `Reapers.RegisteredPidBreaks` | internals/reaper/reaper.go:172-213 | A command started under a registered PID can make another one lose its channel or its registration, or block the reaper |
| `Reapers.AdoptionBlocks` | internals/reaper/reaper.go:121-154 | A process adopted under a registered PID can block the reaper, unless it is harmless |
| `Reapers.CodeArrives` | internals/reaper/reaper.go:121-213 | Whoever waits for a command that has exited gets its code within six steps of reaper and waiter |
| `Reapers.CodeOfAnother` | internals/reaper/reaper.go:121-140 | A run in which a command gets another process's code though no tracked PID was reused |
| `Reapers.SendBlocked` | internals/reaper/reaper.go:172-186 | A run in which reuse of a PID that is still registered blocks the reaper |
| `Reapers.AdoptedBlocks` | internals/reaper/reaper.go:121-154 | A run in which an adopted process under such a PID does |
| `Reapers.RegistrationLost` | internals/reaper/reaper.go:207-213 | A run in which the end of one wait removes the registration of another command |
| `MountEntries.UnescapeOfEscape` | internals/osutil/mountentry_linux.go:71-85 | Unescaping undoes escaping, for every string |
| `MountEntries.FieldsOfJoin` | internals/osutil/mountentry_linux.go:97-127 | Joined words are read back as the words that are not empty |
| `MountEntries.FieldsMeans` | internals/osutil/mountentry_linux.go:127 | The fields of a line are exactly its words, with gaps of any spaces and tabs between them |
| `MountEntries.ParseOfLine` | internals/osutil/mountentry_linux.go:122-163 | A line with any such gaps is judged by its words before the first that begins a comment: it fails exactly if these are not three to six or a number does not parse; what is missing is empty or 0 |
| `MountEntries.ParseMountEntry` | internals/osutil/mountentry_linux.go:122-163 | Parses three to six fields before any comment, and fails otherwise or on a number that does not parse |
| `MountEntries.RoundTrip` | internals/osutil/mountentry_linux.go:97-163 | For every entry: its text parses to it if and only if name, directory, type and joined options are not empty and do not begin a comment, and no option holds a comma |
| `MountEntries.StringIsOneLine` | internals/osutil/mountentry_linux.go:97-120 | A printed entry is one line, whatever its parts hold |
| `Text.SplitOfJoin` | internals/osutil/mountentry_linux.go:116-144 | Splitting undoes joining if and only if no part holds the separator |
| `Text.JoinOfSplit` | internals/osutil/mountentry_linux.go:144 | Joining undoes splitting |
| `Text.AtoiOfItoa` | internals/osutil/mountentry_linux.go:118-160 | A printed number of 64 bits parses to itself |
| `Text.AtoiMeans` | internals/osutil/mountentry_linux.go:148-156 | A number is digits with or without a sign, of a value of 64 bits |

## Left out

- Iterators.Iterator.Next: does not model waiting with a cancel channel, because each wake-up repeats the check that is modelled; notification channels and the iterator list are left out with it.
- RingBuffers.RingBuffer.Discard: takes no negative count, which would move the tail back to bytes that may be overwritten.
- Overflow of 64-bit ring positions.
- Locks: each section under a lock is one step.
- `sort.Strings` and `sort.Sort`: modelled as insertion into a sorted list; only the order and the contents matter.
- Successor maps with successors that are no keys: `order` never builds one, and the node capacity holds only without them.
- The order in which map entries are visited: any order is allowed, so `order` is not shown to return the same list twice.
- Formatters.Formatter.Write: does not model destinations that fail or take less than given; the line-start flag is set before the outcome of a payload write is known.
- Timestamps of logs: an opaque token on which a parameter decides, without spaces or newlines; `Parsers.PayloadRead` also wants prefixes that are shorter than the parser buffer.
- Parsers.Parser.Next: does not model read errors other than end of input, or what `bufio.Reader` does inside: ReadSlice is given by what it returns, for a buffer of the size that results, 16 bytes at least.
- LogMerge.Serve: does not model follow mode, JSON encoding errors and cancelled requests; the goroutines of the handler and of `streamLogs`, which meet at an unbuffered channel, are one loop.
- LogMerge.LogStreamer.NextLog: does not model parser errors and the done channel, which end the stream.
- LogMerge.LogStreamer.Fetch: does not model iterators that gain data between two calls; what a parser will deliver is fixed from the start.
- Log entries stamped with Go's zero time: `LogStreamer` takes them for empty slots, and its model asks for streams without them.
- Schedules.Schedule.Next: asks that some day has a window, which is proved unless every span may have no day in a month, such as one to a fifth weekday; then it takes the whole Gregorian cycle.
- Time zones, daylight saving, the Gregorian calendar (months are a parameter), and the top-level `Next` with its random spread.
- Legacy schedules: the same clock ranges with another separator.
- ScheduleTexts.String: prints counts and positions as unbounded numbers; the source converts them to a signed 64-bit one first.
- Layers.AddLayer: does not model checks and plan sections, which are folds of the same form; the capping of check timeouts does not fit the law for prefixes.
- Layers as YAML and on disk, and validation other than cycles.
- Lists inside a service or log target, and its user and group ids, are values, so that sharing them between objects cannot be seen; nil and empty tables have the same value.
- Reapers.RunKeeps: asks that the kernel hands out no PID in use by the package; `Reapers.PidUnusedIsExact` says which those are.
- How an exit code is made from a wait status; starting and stopping the reaper, errors of `cmd.Start`, and what `cmd.Wait` returns after the code arrived.
- HTTP, command line, websockets, tasks and process execution.
