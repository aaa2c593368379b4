# Verified models of the systems-programming labs

A collection of small C programs, most of them servers: two chats, a taxi dispatcher, four
styles of TCP server, a raw UDP echo server, a phone book, a spiral, the Internet checksum, a
shop with threads. Each module here models the logic of one of them and proves what it does
over every input or every run. `dafny verify dfyconfig.toml` checks everything.

How the programs are read:

- State that a C function changes in place is a class whose methods are proved against
  functions on values; theorems about whole histories are stated on those functions.
- Processes, threads and signal handlers are state machines. One step is one stretch of code
  that holds the lock, one system call, or one access to a variable that a signal handler can
  touch, so a run is any interleaving. Pipes and message queues are FIFO sequences; anything
  the environment decides (which thread wakes, how many bytes a read returns, whether an open
  or an allocation succeeds, when a signal arrives) is a parameter of the step.
- C strings are the characters before the terminator. `snprintf` into a buffer cuts (`Cut`).
- Counters are unbounded except where the width matters: the room version of lab 14 wraps at
  2^32, the checksum accumulator too, and records on the taxi pipe are 32-bit integers.

Where a promise does not hold of the code as written, the code is kept and the exact condition
is proved:

- Lab 13 replicates its user list by letting clients read chat lines. Clients stay in step
  if and only if every request is `Faithful`, a test on the table and the request alone:
  a newcomer's name is not empty, not taken and not reserved (`@@user`, or beginning
  `@@user `), and no other line announces somebody who is not listed or removes somebody who
  is. A user `bob` who says "joined the chat" puts `bob:` into everybody's list
  (`ChatWire.SayingJoinedForgesAUser`). Clients that join twice and tables that are full are
  covered; the queue of a client that joins must exist.
- Lab 14 compares a 32-bit version. The test passes although lines were missed exactly when
  their number is a positive multiple of 2^32 (`SharedRoomRuns.StaleAfterWrap` is such a run),
  and a client's own notices stay on its screen until the next logged line, refresh or not.
- The queue server loses no wakeup, but a worker serves by waiting for its client. With
  descriptors left to hand out, the program stands still exactly when all workers do so and
  the accepting thread waits too (`WorkQueueThreads.StallsExactly`).
- The taxi driver never overlaps two tasks, but two OK answers are separated by the first
  task's alarm exactly when that alarm is still pending as the first OK goes out
  (`TaxiDriver.OksSeparatedIffPending`): it can fire between `alarm` and the answer
  (`TaxiDriver.TwoOksNoAlarmBetween`). The timer invariant holds throughout a run exactly
  when `alarm(0)` is never called; such a call would make a driver busy for good.
- The checksum loses carries on large buffers; the result is still right exactly when the
  lost carries cancel (`InternetChecksum.WrapHarmless`). Up to 131074 bytes there are none;
  131075 bytes of 0xff get a wrong checksum (`InternetChecksum.BoundIsTight`).
- A worker of the pool frees itself after any client. Reservations stay exclusive exactly as
  long as no worker frees itself after serving a stranger while its port is promised.

## Model

| member | source | states |
|---|---|---|
| CText.FirstIndex | labs/lab-13/src/chat_client.c:152 | `strstr`: the first occurrence, and none only if there is none |
| CText.FindSubstr | labs/lab-3/src/4.c:5-20 | the repository's own substring search returns the first occurrence, or null exactly when there is none |
| CText.FoundInPrefix | labs/lab-13/src/chat_client.c:152 | an occurrence found in a prefix of a line is the one found in the line |
| CText.CutKeepsStart | labs/lab-13/src/chat_server.c:51-52 | `snprintf` into a buffer keeps the text from its first byte on, as much as fits |
| Memory.FirstWhere | labs/lab-13/src/chat_server.c:34-43 | the search loop that every table shares: the first entry that satisfies a test, -1 iff there is none |
| Memory.CloseGap | labs/lab-13/src/chat_client.c:114-117 | `memmove` over one entry removes exactly that entry and touches nothing behind the table |
| LineWindow.PushInPlace | labs/lab-13/src/chat_client.c:66-75 | the message array takes a line at its end and loses its oldest line only when it holds 64 |
| LineWindow.PushKeepsLast | labs/lab-14/src/chat_server.c:49-61 | pushing a line on the last 64 lines of a log gives the last 64 lines of the longer log |
| LineWindow.WindowIsLastLines | labs/lab-14/src/chat_server.c:49-61 | after any number of pushes the window is the last 64 lines of everything logged |
| ChatWire.ServiceLinesWhole | labs/lab-13/src/chat_server.c:81-90 | no buffer on the way cuts a snapshot, joining or leaving line, whatever the name |
| ChatWire.SuffixedStart | labs/lab-13/src/chat_client.c:189-198 | a joining or leaving line is taken for a snapshot line exactly when its name is reserved |
| ChatWire.UserLineParses | labs/lab-13/src/chat_client.c:170-187 | round trip: the snapshot line of any name is read back as that name |
| ChatWire.JoinLineParses | labs/lab-13/src/chat_client.c:200-217 | round trip: a joining line gives its name back if and only if the name is not empty and not reserved |
| ChatWire.LeaveLineParses | labs/lab-13/src/chat_client.c:200-217 | the same for leaving lines, which are never mistaken for joining lines |
| ChatWire.JoinLineMeaning | labs/lab-13/src/chat_client.c:200-217 | what a client reads in the joining line of every name, empty and reserved ones included |
| ChatWire.JoinLineEffect | labs/lab-13/src/chat_client.c:92-103 | the joining line leaves a list alone iff a stated test holds, and appends exactly the name iff the name is new, admissible and there is room |
| ChatWire.TextLineCarries | labs/lab-13/src/chat_server.c:172-174 | a chat line is the name, the separator and the typed text, whole or cut to 255 bytes |
| ChatWire.SeparatorFound | labs/lab-13/src/chat_client.c:150-167 | the first separator of a chat line lies at or before the end of the sender's name, whatever the text and the cut |
| ChatWire.PlainSeparator | labs/lab-13/src/chat_client.c:150-167 | the separator found is the one the server printed iff the name contains none |
| ChatWire.TypedSuffix | labs/lab-13/src/chat_client.c:124-147 | a line `name: text` ends in service words iff the text does, or is those words without their leading space |
| ChatWire.TextLineService | labs/lab-13/src/chat_client.c:124-147 | which chat lines pass for service lines and which name they then announce, cut at 255 bytes included |
| ChatWire.TextMeaningExact | labs/lab-13/src/chat_client.c:200-217 | the reading of every chat line, read off the sender's name and the typed text |
| ChatWire.TextLineParses | labs/lab-13/src/chat_client.c:150-167 | the sender is recovered iff the name is ordinary and the text does not pass for a service line |
| ChatWire.NeutralTextExact | labs/lab-13/src/chat_client.c:200-217 | a chat line leaves an agreed list unchanged iff a test on list, name and text holds |
| ChatWire.ListedSenderExact | labs/lab-13/src/chat_client.c:200-217 | for a listed sender the list changes iff the typed words forge a new name or name a listed user |
| ChatWire.SayingJoinedForgesAUser | labs/lab-13/src/chat_client.c:210-211 | a concrete text that lists a user who does not exist |
| ChatWire.ApplyLinesAppend | labs/lab-13/src/chat_client.c:200-231 | reading two batches of lines one after the other is reading them together |
| ChatClient.ExtractNameWithSuffix | labs/lab-13/src/chat_client.c:124-147 | the tests of the code return the name exactly for service-shaped lines |
| ChatClient.ExtractSenderName | labs/lab-13/src/chat_client.c:150-167 | the code returns what stands before the first separator if it is non-empty and fits |
| ChatClient.ClientState.FindUser | labs/lab-13/src/chat_client.c:80-89 | the first index with that name, or -1 |
| ChatClient.ClientState.AddUserLocked | labs/lab-13/src/chat_client.c:92-103 | appends a new non-empty name while there is room, otherwise nothing |
| ChatClient.ClientState.RemoveUserLocked | labs/lab-13/src/chat_client.c:106-121 | removes the first user of that name and keeps the order of the others |
| ChatClient.ClientState.HandleControlMessage | labs/lab-13/src/chat_client.c:170-198 | snapshot lines act on the list, all others are left to the caller with nothing changed |
| ChatClient.ClientState.FollowLine | labs/lab-13/src/chat_client.c:210-217 | the three attempts to read a name give the list the line's meaning asks for |
| ChatClient.ClientState.ProcessReceivedText | labs/lab-13/src/chat_client.c:200-231 | the whole in-place handler refines the reading of a line on values, for list and message window |
| ChatTypes.IndexOfPid | labs/lab-14/src/chat_server.c:37-46 | the first entry of a table with that pid, -1 iff there is none |
| ChatServer.Server.FindClient | labs/lab-13/src/chat_server.c:34-43 | the first entry of that pid, or -1 |
| ChatServer.Server.BroadcastLine | labs/lab-13/src/chat_server.c:45-58 | one send per registered client, in table order |
| ChatServer.Server.SendUserSnapshot | labs/lab-13/src/chat_server.c:81-90 | a reset line and then every name in table order, to one client |
| ChatServer.Server.RemoveAt | labs/lab-13/src/chat_server.c:161-164 | the shifting loop removes one entry and keeps the order of the others |
| ChatServer.Server.Admit | labs/lab-13/src/chat_server.c:130-145 | who gets a table entry: an unknown pid while there is room and its queue opens |
| ChatServer.Server.Greet | labs/lab-13/src/chat_server.c:147-150 | the snapshot goes to the sender of a JOIN iff it is registered by then |
| ChatServer.Server.HandleJoin | labs/lab-13/src/chat_server.c:129-154 | the in-place JOIN step refines the table and the sends of the value model |
| ChatServer.Server.HandleLeave | labs/lab-13/src/chat_server.c:156-169 | the same for LEAVE |
| ChatServer.Server.Handle | labs/lab-13/src/chat_server.c:119-176 | one turn of the receive loop, every command and every error branch |
| ChatReplication.LeaveLineEffect | labs/lab-13/src/chat_client.c:106-121 | on an agreed list the leaving line removes exactly the entry the server removed |
| ChatReplication.ListingRebuilds | labs/lab-13/src/chat_client.c:170-187 | names listed one by one rebuild the server's list in order |
| ChatReplication.SnapshotRestores | labs/lab-13/src/chat_server.c:81-90 | a snapshot turns any client's list into the server's list |
| ChatReplication.PendingBroadcast | labs/lab-13/src/chat_server.c:45-58 | a broadcast puts its line once on the way to each registered client and to nobody else |
| ChatReplication.PendingSnapshot | labs/lab-13/src/chat_server.c:81-90 | a snapshot is on the way to its addressee only, whole and in order |
| ChatReplication.ListedAfter | labs/lab-13/src/chat_server.c:129-166 | who is registered after any request: JOIN adds its sender while fewer than 16 are there and its queue opens, LEAVE takes its sender away, nobody else comes or goes |
| ChatReplication.TextReaches | labs/lab-13/src/chat_server.c:172-175 | a TEXT sends each registered client one line, with the sender's name and the text |
| ChatReplication.JoinReaches | labs/lab-13/src/chat_server.c:129-154 | a JOIN, full table included: nothing if the queue does not open, otherwise the snapshot to a registered sender and the joining line to everybody |
| ChatReplication.UserLinesSay | labs/lab-13/src/chat_server.c:86-89 | line i of a snapshot announces the name of entry i |
| ChatReplication.LeaveReaches | labs/lab-13/src/chat_server.c:156-169 | a LEAVE sends the name the sender registered with to everybody who stays, and nothing if it was not registered |
| ChatReplication.ViewAfter | labs/lab-13/src/chat_server.c:119-176 | serving a request extends what each client will come to believe by the lines sent to it |
| ChatReplication.BroadcastSyncs | labs/lab-13/src/chat_server.c:172-175 | after a broadcast all clients agree with the server iff the line turns the old list into the new one |
| ChatReplication.RejoinSyncs | labs/lab-13/src/chat_server.c:147-154 | a JOIN from a registered pid keeps everybody in step iff its name announces nobody new |
| ChatReplication.RegisterKeepsGood | labs/lab-13/src/chat_server.c:129-154 | an admissible newcomer: the others append the name, the newcomer starts from the snapshot, all agree |
| ChatReplication.RegisterBreaksSync | labs/lab-13/src/chat_server.c:129-154 | an empty, used or reserved new name leaves some client out of step |
| ChatReplication.LeaveKeepsGood | labs/lab-13/src/chat_server.c:156-169 | LEAVE always keeps everybody in step |
| ChatReplication.HandleExact | labs/lab-13/src/chat_server.c:119-176 | one request, every case: clients can still catch up with the server iff the request is faithful |
| ChatReplication.TransportKeepsGood | labs/lab-13/src/chat_client.c:254-272 | sending a line, reading one and starting a client never cost agreement, whatever the queues hold |
| ChatReplication.OrdinaryTextIsFaithful | labs/lab-13/src/chat_server.c:172-175 | texts of listed senders with ordinary names that do not end in service words are faithful |
| ChatReplication.StepExact | labs/lab-13/src/chat_server.c:119-176 | any step of the whole system keeps agreement iff it is not an unfaithful request |
| ChatReplication.RunExact | labs/lab-13/src/chat_server.c:112-176 | whole runs, with lines sent one by one through queues of 10: every registered client will agree with the server in every state iff every request was faithful |
| ChatReplication.CaughtUpAgrees | labs/lab-13/src/chat_client.c:200-231 | in such a run a client that has read everything holds exactly the server's ordered list of names |
| Ring.SlotIsModulo | labs/lab-16/part-2/3/server.c:96-98 | the index arithmetic is addition modulo the size |
| Ring.PushAppends | labs/lab-14/src/chat_client.c:179-193 | writing at the tail of a ring appends to the queue it represents |
| Ring.PopRemovesFirst | labs/lab-14/src/chat_server.c:100-102 | advancing the head removes the first element of that queue |
| WorkQueue.ClientQueue.TryPush | labs/lab-16/part-2/3/server.c:88-102 | one turn with the mutex held: wait iff full, else the descriptor goes in at the back; `tail` stays `(head + count) % size` |
| WorkQueue.ClientQueue.TryPop | labs/lab-16/part-2/3/server.c:104-122 | one turn with the mutex held: wait iff empty, else take the descriptor at the front |
| WorkQueueThreads.PushKeepsInv | labs/lab-16/part-2/3/server.c:88-102 | pushing and signalling one sleeper keeps exactly-once order and loses no wakeup |
| WorkQueueThreads.PopKeepsInv | labs/lab-16/part-2/3/server.c:104-122 | popping keeps them too, by workers newly come or just woken |
| WorkQueueThreads.RunKeepsInv | labs/lab-16/part-2/3/server.c:141-191 | any capacity, any number of workers, any interleaving, spurious wakeups: while a worker sleeps the queue is covered by woken workers, the producer sleeps only on a full queue, and accepted = handed out + queued + in hand |
| WorkQueueThreads.NeverAllAsleep | labs/lab-16/part-2/3/server.c:88-122 | a non-empty queue or a sleeping producer always has a worker awake |
| WorkQueueThreads.StallsExactly | labs/lab-16/part-2/3/server.c:88-191 | every run: while an accepted descriptor is not handed out, a push or pop can go ahead iff not (all workers serve their clients and the producer waits for a connection or for room); a lost signal never stops it |
| WorkQueueThreads.SilentClientsStall | labs/lab-16/part-2/3/server.c:124-150 | for any number of workers, a run that stalls: each worker reads from a silent client and a further descriptor stays queued |
| WorkQueueThreads.HandedOutInOrder | labs/lab-16/part-2/3/server.c:88-122 | what workers got is a prefix of what was accepted, at most capacity + 1 behind |
| SharedRoom.ChatRoom.FindUser | labs/lab-14/src/chat_server.c:37-46 | the first user of that pid, or -1 |
| SharedRoom.ChatRoom.AddMessageLocked | labs/lab-14/src/chat_server.c:49-61 | the in-place window push |
| SharedRoom.ChatRoom.AddUserLocked | labs/lab-14/src/chat_server.c:64-74 | appends while there is room |
| SharedRoom.ChatRoom.RemoveUserLocked | labs/lab-14/src/chat_server.c:77-91 | removes one user, keeps the others in order; a bad index changes nothing |
| SharedRoom.ChatRoom.PopCommandLocked | labs/lab-14/src/chat_server.c:94-104 | takes exactly the oldest command, or reports an empty queue |
| SharedRoom.ChatRoom.SendCommand | labs/lab-14/src/chat_client.c:171-198 | appends to the queue and returns 0, or returns -1 with nothing changed when 32 wait |
| SharedRoom.ChatRoom.ProcessJoinLocked | labs/lab-14/src/chat_server.c:106-118 | the JOIN step in place refines the step on values |
| SharedRoom.ChatRoom.ProcessTextLocked | labs/lab-14/src/chat_server.c:120-132 | the TEXT step |
| SharedRoom.ChatRoom.ProcessLeaveLocked | labs/lab-14/src/chat_server.c:134-148 | the LEAVE step |
| SharedRoom.ChatRoom.ServerTurn | labs/lab-14/src/chat_server.c:225-247 | a turn processes exactly the first queued command, or changes nothing |
| SharedRoomClient.ClientState.PushMessage | labs/lab-14/src/chat_client.c:67-83 | a client's own notice goes into its own window only |
| SharedRoomClient.ClientState.CopyRoomStateLocked | labs/lab-14/src/chat_client.c:86-98 | after the copy messages and names equal the room's |
| SharedRoomClient.ClientState.RefreshFromRoom | labs/lab-14/src/chat_client.c:101-115 | copies the room when the versions differ, otherwise changes nothing |
| SharedRoomRuns.UsersStayDistinct | labs/lab-14/src/chat_server.c:106-148 | pids stay distinct and at most 16 |
| SharedRoomRuns.ReplayMeaning | labs/lab-14/src/chat_server.c:49-148 | after any commands: messages are the last 64 lines ever logged, the version is their number modulo 2^32, users are at most 16 with distinct pids |
| SharedRoomRuns.MembersMean | labs/lab-14/src/chat_server.c:106-148 | after any commands: a process is listed from the JOIN that finds a seat to its LEAVE, under the name it joined with, whatever others do |
| SharedRoomRuns.UsersInJoinOrder | labs/lab-14/src/chat_server.c:64-91 | after any commands the users stand in the order of the JOINs that brought them in |
| SharedRoomRuns.LinesAreWhole | labs/lab-14/src/chat_server.c:106-148 | which commands log a line and which; no line is cut: the longest has 320 bytes, the buffer 328 |
| SharedRoomRuns.VersionTracksChange | labs/lab-14/src/chat_server.c:106-148 | the version moves exactly when a command changes the room |
| SharedRoomRuns.QuietKeepsRoom | labs/lab-14/src/chat_server.c:120-141 | commands that log nothing leave the room as it was |
| SharedRoomRuns.TurnKeepsInv | labs/lab-14/src/chat_server.c:237-240 | a server turn keeps linearization and every client's cache history |
| SharedRoomRuns.RunKeepsInv | labs/lab-14/src/chat_server.c:225-247 | linearization over any interleaving: accepted = processed + queued, the room is the replay of the processed commands, every cache is an earlier room plus the client's own notices |
| SharedRoomRuns.LogHasNoNotice | labs/lab-14/src/chat_client.c:254-256 | no logged line can equal the notice a client pushes |
| SharedRoomRuns.NoticesShow | labs/lab-14/src/chat_client.c:248-259 | a cache with notices of its own never equals the room window it was copied from |
| SharedRoomRuns.VersionTestExact | labs/lab-14/src/chat_client.c:107 | versions are equal iff the number of lines missed is a multiple of 2^32 |
| SharedRoomRuns.CacheCoherent | labs/lab-14/src/chat_client.c:101-115 | equal versions and fewer than 2^32 missed lines: the users are the room's, and the messages are iff no notice was pushed since the copy |
| SharedRoomRuns.StaleAfterWrap | labs/lab-14/src/chat_client.c:107 | a run of 2^32 texts after which a client's version equals the room's, its window is empty, the room's is full, and a refresh changes nothing |
| SharedRoomRuns.RefreshRestores | labs/lab-14/src/chat_client.c:107-112 | a refresh that sees another version restores equality whatever was pushed |
| SharedRoomRuns.RefreshExact | labs/lab-14/src/chat_client.c:101-115 | right after any refresh the cache is the room unless there were notices and nothing was logged since |
| TaxiDriver.Driver.ClearIfDone | final-tasks/taxi-cli/src/main.c:167-171 | the block before poll and after read is its single steps in a row |
| TaxiDriver.Driver.ServeCommand | final-tasks/taxi-cli/src/main.c:195-222 | the dispatch code, in one go, gives the state and the answer of the single steps |
| TaxiDriver.OwnStepExact | final-tasks/taxi-cli/src/main.c:153-223 | a step of the loop keeps the timer invariant iff it does not call `alarm(0)` |
| TaxiDriver.SignalsKeepInv | final-tasks/taxi-cli/src/main.c:49-59 | SIGALRM, SIGTERM and the clock keep it at every point |
| TaxiDriver.StepExact | final-tasks/taxi-cli/src/main.c:49-223 | any step, own or signal, keeps the invariant iff it does not call `alarm(0)` |
| TaxiDriver.BusyRightExactly | final-tasks/taxi-cli/src/main.c:153-223 | whole runs, signals anywhere: outside the assignment blocks the driver is busy iff an alarm is pending or its flag is set, and this holds throughout iff `alarm(0)` is never called |
| TaxiDriver.RunExact | final-tasks/taxi-cli/src/main.c:153-223 | the same for the whole invariant, with the order of alarms and the account of answers |
| TaxiDriver.PositiveTimersSuffice | final-tasks/taxi-cli/src/main.c:423 | if all tasks read have positive timers, as the command line sees to, `alarm(0)` is never called |
| TaxiDriver.AlarmNeverReplaced | final-tasks/taxi-cli/src/main.c:209 | `alarm` never replaces a pending alarm nor runs with an unseen one |
| TaxiDriver.TasksNeverOverlap | final-tasks/taxi-cli/src/main.c:153-223 | every run: task k is armed, its own alarm fires, it is freed, only then task k + 1 is armed; its OK is sent after its arming and before its freeing |
| TaxiDriver.OksSeparatedIffPending | final-tasks/taxi-cli/src/main.c:207-211 | every run: two consecutive OKs are separated by the first task's own alarm iff that alarm is pending in the step that sends the first OK |
| TaxiDriver.OksSeparatedExactly | final-tasks/taxi-cli/src/main.c:207-211 | the same, told from the record of the run: nothing but the arming of the task was logged when its OK was sent |
| TaxiDriver.OkSentPending | final-tasks/taxi-cli/src/main.c:211 | when an OK is about to be sent, that is the case iff the alarm is still pending; otherwise its flag is already set |
| TaxiDriver.AvailableExactly | final-tasks/taxi-cli/src/main.c:201-217 | AVAILABLE is answered, and a task taken, exactly when every task armed so far has fired and been freed |
| TaxiDriver.BusyAnswerBounded | final-tasks/taxi-cli/src/main.c:109-118 | a BUSY answer carries between 0 and the accepted timer |
| TaxiDriver.BusyAnswerExact | final-tasks/taxi-cli/src/main.c:109-118 | it is the accepted task's time left by the clock at that moment, 0 once it is due |
| TaxiDriver.EveryBusyBacked | final-tasks/taxi-cli/src/main.c:195-217 | in every run each BUSY is preceded by the OK of a task with at least that timer |
| TaxiDriver.OneCommandAfterStop | final-tasks/taxi-cli/src/main.c:164 | after SIGTERM the driver reads at most one more command, in every run |
| TaxiDriver.NoCommandAfterInterruptedPoll | final-tasks/taxi-cli/src/main.c:173-178 | a SIGTERM that interrupts poll leaves none to be read |
| TaxiDriver.NothingAfterHangup | final-tasks/taxi-cli/src/main.c:183-193 | once the commands' pipe is reported closed nothing more is read or sent |
| TaxiDriver.ZeroTimerSticks | final-tasks/taxi-cli/src/main.c:207-210 | arming with 0 leaves the driver busy with no alarm to come |
| TaxiDriver.StuckForever | final-tasks/taxi-cli/src/main.c:153-223 | no step gets out of that state or takes another task |
| TaxiDriver.AlarmBeforeItsAnswer | final-tasks/taxi-cli/src/main.c:209-211 | a run in which the alarm fires before its own OK is sent |
| TaxiDriver.TwoOksNoAlarmBetween | final-tasks/taxi-cli/src/main.c:153-223 | its continuation to a second OK: two OKs with no alarm at all between them |
| TaxiDriver.WorkGoesOn | final-tasks/taxi-cli/src/main.c:195-222 | between reading and answering every step keeps to the command that was read |
| TaxiDriver.OneAnswerEachKept | final-tasks/taxi-cli/src/main.c:187-222 | every step and signal keeps one fitting answer per command read, in order |
| TaxiDriver.AnswersInOrder | final-tasks/taxi-cli/src/main.c:187-222 | every run: the k-th answer sent fits the k-th command read, and only the command at hand or a final exit has none |
| PipeFraming.WriteFull | final-tasks/taxi-cli/src/main.c:61-81 | short writes and interruptions: all bytes in order, or a proper prefix and -1; it terminates |
| PipeFraming.ReadFull | final-tasks/taxi-cli/src/main.c:83-107 | exactly the next bytes and no more, or end of file before a full record, or failure with what was read accounted for |
| PipeFraming.IntRoundTrip | final-tasks/taxi-cli/src/main.c:30-38 | 32-bit integers survive the pipe |
| PipeFraming.RoundTrip | final-tasks/taxi-cli/src/main.c:30-38 | records survive the pipe |
| PipeFraming.InvKept | final-tasks/taxi-cli/src/main.c:241-257 | any chunk of any read or write keeps the bytes under way equal to the one record under way, and records arrive as they were sent |
| TaxiExchange.InvKept | final-tasks/taxi-cli/src/main.c:187-222 | driver and pipes together: any chunk, signal or step of the driver keeps what crossed the pipes equal to what the driver read and answered |
| TaxiDriver.PositiveCommandsSuffice | final-tasks/taxi-cli/src/main.c:187-222 | the timers of a run are those of the commands it has read |
| TaxiExchange.DriverRuns | final-tasks/taxi-cli/src/main.c:153-228 | the driver's part of any run of the exchange ends a run of the driver |
| TaxiExchange.TimersHold | final-tasks/taxi-cli/src/main.c:153-228 | so, as long as every task asked for has a positive timer, the driver's whole timer invariant holds in every state of the exchange |
| TaxiExchange.SuitsFits | final-tasks/taxi-cli/src/main.c:120-130 | an answer that fits a command still does as the record on the pipe; an OK carries the timer asked for |
| TaxiExchange.AnswersBelong | final-tasks/taxi-cli/src/main.c:241-257 | every run, however bytes are chopped up and signals fall: the k-th answer read is what the driver's dispatch answered to the k-th command asked, and fits it |
| TaxiExchange.BusyOverThePipes | final-tasks/taxi-cli/src/main.c:241-257 | a BUSY record the asker reads carries the driver's number uncut, and an earlier command was a task with at least that timer |
| Spiral.RingOf | labs/lab-2/src/4.c:5-29 | the ring a cell lies on |
| Spiral.CellFrom | labs/lab-2/src/4.c:5-29 | the cell of a value, searched ring by ring, holds that value |
| Spiral.OuterRingsFirst | labs/lab-2/src/4.c:11-29 | every value of an outer ring is smaller than every value of an inner one |
| Spiral.StartsRight | labs/lab-2/src/4.c:11-14 | each ring starts in its upper left corner, the outermost with 1, and goes right first |
| Spiral.ValueInjective | labs/lab-2/src/4.c:5-29 | no value occurs twice |
| Spiral.Bijection | labs/lab-2/src/4.c:5-29 | the values are a permutation of 1 to N * N |
| Spiral.ConsecutiveValues | labs/lab-2/src/4.c:11-29 | consecutive values lie side by side, within a ring and from ring to ring |
| Spiral.ConsecutiveCells | labs/lab-2/src/4.c:11-29 | the same for the cells of v and v + 1 |
| Spiral.FillRightAndDown | labs/lab-2/src/4.c:12-18 | the first two cursor loops with their corrections, all writes in bounds |
| Spiral.FillLeftAndUp | labs/lab-2/src/4.c:20-26 | the last two; the cursor ends at the corner of the next ring |
| Spiral.FillSpiral | labs/lab-2/src/4.c:5-29 | for every N: it ends with the counter at N * N + 1, every cell holds its value and was written exactly once |
| InternetChecksum.AddWords | labs/lab-16/part-4/2/client.c:20-30 | the 32-bit accumulator is the word sum modulo 2^32, odd lengths included |
| InternetChecksum.FoldSum | labs/lab-16/part-4/2/client.c:32-34 | at most two rounds, ending at the one 16-bit value congruent modulo 65535 that is 0 only for 0 |
| InternetChecksum.ComputeChecksum | labs/lab-16/part-4/2/client.c:18-37 | every buffer: the true checksum iff the lost carries cancel, hence always up to 131074 bytes |
| InternetChecksum.WrapExact | labs/lab-16/part-4/2/client.c:20-30 | when wrapping the accumulator leaves the folded sum right, for every sum |
| InternetChecksum.ShortBuffersFit | labs/lab-16/part-4/2/client.c:20-30 | a buffer of at most 131074 bytes cannot wrap the accumulator |
| InternetChecksum.BoundIsTight | labs/lab-16/part-4/2/client.c:20-30 | 131075 bytes of 0xff wrap it and the carry does not cancel: with ComputeChecksum, a wrong checksum |
| InternetChecksum.FieldInSum | labs/lab-16/part-4/2/client.c:149 | storing a 16-bit field at an even offset changes the sum by that field and no more |
| InternetChecksum.FieldChecksExactly | labs/lab-16/part-4/2/client.c:134-149 | the field values that make the whole buffer check to 0: the checksum with the field zeroed, and the other zero when that is 0 |
| InternetChecksum.StampChecksum | labs/lab-16/part-4/2/client.c:134-149 | filling the header's field makes a recomputation return 0 and touches nothing else |
| InternetChecksum.SwappedChecksum | labs/lab-16/part-4/2/client.c:18-37 | swapping the bytes of every word swaps the bytes of the checksum (section 2(B) of RFC 1071) |
| InternetChecksum.ByteOrderIndependence | labs/lab-16/part-4/2/client.c:18-37 | the same for the bytes of a buffer |
| InternetChecksum.SumOfPermutation | labs/lab-16/part-4/2/client.c:24-27 | equal multisets of words have equal sums |
| InternetChecksum.ReorderedChecksum | labs/lab-16/part-4/2/client.c:18-37 | permuting the words leaves the checksum unchanged |
| PhoneBook.StrCmp10 | labs/lab-6/src/utils.c:3-9 | 0 iff all ten bytes agree, otherwise the difference at the first place where they differ |
| PhoneBook.RemovalTakesOldest | labs/lab-6/src/abonent.c:67-97 | removal takes the oldest record of that name and nothing of any other name |
| PhoneBook.NamesAreQueues | labs/lab-6/src/abonent.c:48-97 | over every history of adds (failing or not), removes and clears the book is one independent queue per name |
| PhoneBook.OldestFirst | labs/lab-6/src/abonent.c:48-97 | over every history the whole book is in the order of the additions that made its records |
| PhoneBook.FreeingMoves | labs/lab-6/src/abonent.c:92 | unlinking and freeing a node keeps every node in exactly one of list and freed |
| PhoneBook.Book.Size | labs/lab-6/src/abonent.c:18-26 | the length of the list |
| PhoneBook.Book.Last | labs/lab-6/src/abonent.c:54-58 | the walk ends at the last node |
| PhoneBook.Book.AddAfter | labs/lab-6/src/abonent.c:59-64 | ties a new node to the last one, both ways |
| PhoneBook.Book.Add | labs/lab-6/src/abonent.c:48-65 | appends, or reports failure with nothing changed; the heap stays a doubly linked list |
| PhoneBook.Book.FirstWith | labs/lab-6/src/abonent.c:68-73 | the walk stops at the first node of that name |
| PhoneBook.Book.Bypass | labs/lab-6/src/abonent.c:75-90 | the three conditional updates lead every pointer around the node, head and tail included |
| PhoneBook.Book.Remove | labs/lab-6/src/abonent.c:67-97 | deletes and frees exactly the first record of that name, or reports that there is none |
| PhoneBook.Book.Clear | labs/lab-6/src/abonent.c:28-37 | frees every node exactly once, in list order, and leaves an empty list |
| PhoneBook.Book.Find | labs/lab-6/src/abonent.c:99-114 | the records printed are all those of that name, in order |
| Memory.SwapOutRemovesOne | labs/lab-16/part-2/4/server.c:104-109 | swap-removal removes exactly one entry of the multiset |
| PollTable.ScanSplits | labs/lab-16/part-2/4/server.c:220-225 | compaction under the running scan: each ready entry is handled as often as it occurs, every other entry is kept |
| PollTable.ReadyBits | labs/lab-16/part-2/4/server.c:221 | the events that make a client ready: data, hang-up or error |
| PollTable.AcceptKeeps | labs/lab-16/part-2/4/server.c:111-133 | accepting only appends entries without events and never passes 32 clients |
| PollTable.AcceptsInOrder | labs/lab-16/part-2/4/server.c:113-132 | it appends exactly the connections that can be unblocked, in order, as many as there is room for |
| PollTable.TurnHandlesExactlyTheReady | labs/lab-16/part-2/4/server.c:202-226 | a whole turn handles exactly the connections poll found ready, once each, and keeps the rest and those just accepted |
| PollTable.TurnByEvents | labs/lab-16/part-2/4/server.c:203-225 | on the events: a connection is handled iff poll reported data, a hang-up or an error for it, and otherwise stays |
| PollTable.TurnAccepts | labs/lab-16/part-2/4/server.c:212-214 | a turn takes in new connections only when poll reported data on the listener, behind the others |
| PollTable.Table.RemoveFd | labs/lab-16/part-2/4/server.c:104-109 | closes one connection and keeps table and open connections equal |
| PollTable.Table.HandleTcpListener | labs/lab-16/part-2/4/server.c:111-133 | takes connections until none wait or the table is full, dropping those that stay blocking, whose numbers may come back |
| PollTable.Table.ScanClients | labs/lab-16/part-2/4/server.c:220-225 | the loop with its step back refines the scan, terminates and never touches slots 0 and 1 |
| PollTable.Table.Round | labs/lab-16/part-2/4/server.c:202-226 | one turn on the array, with the table again equal to the open connections |
| EchoCounters.RemovalForgetsOne | final-tasks/raw-echo/src/server.c:52-56 | swap-removal forgets one endpoint and keeps every other counter |
| EchoCounters.RegistrationKeepsCounts | final-tasks/raw-echo/src/server.c:31-50 | registration keeps keys distinct, the table at 32 and all counters |
| EchoCounters.CountingChangesOne | final-tasks/raw-echo/src/server.c:148 | counting moves one endpoint's counter by one |
| EchoCounters.ServeTallies | final-tasks/raw-echo/src/server.c:133-154 | a packet moves each counter as that endpoint's own events do |
| EchoCounters.CountersMean | final-tasks/raw-echo/src/server.c:99-155 | over every history a counter is the number of messages answered since the endpoint's last close, and the endpoint is listed iff that is not 0 |
| EchoCounters.NumbersMean | final-tasks/raw-echo/src/server.c:148-149 | the number in every answer is that count, this message included |
| EchoCounters.EventsAnswerPackets | final-tasks/raw-echo/src/server.c:125-154 | over every history the k-th event belongs to the k-th packet's sender, is a close iff its text is "close", and an answer carries that packet's text |
| EchoCounters.TextEchoes | final-tasks/raw-echo/src/server.c:125-131 | the text is the payload from its first byte, up to 255 bytes or the first NUL |
| EchoCounters.DroppedExactly | final-tasks/raw-echo/src/server.c:143-146 | a message goes unanswered iff its sender is new and the table is full, and then nothing changes |
| EchoCounters.Server.GetClient | final-tasks/raw-echo/src/server.c:31-50 | the entry found or made in place, -1 only when full |
| EchoCounters.Server.RemoveClient | final-tasks/raw-echo/src/server.c:52-56 | swap-removal in place |
| EchoCounters.Server.Receive | final-tasks/raw-echo/src/server.c:125-154 | one turn in place refines the step on values, table and answer |
| WorkerPool.FirstFree | labs/lab-16/part-2/2/server.c:128-134 | the first worker that is not busy, -1 iff all are |
| WorkerPool.Workers.ReserveWorker | labs/lab-16/part-2/2/server.c:123-138 | gives out the port of the first free worker and marks it, or -1 with nothing changed |
| WorkerPool.TrackedKept | labs/lab-16/part-2/2/server.c:96-121 | every step keeps each connected client once in its own worker's line with its grant outstanding |
| WorkerPool.ReserveKeepsExclusive | labs/lab-16/part-2/2/server.c:199-204 | a reservation keeps busy = exactly one outstanding grant |
| WorkerPool.ReleaseExact | labs/lab-16/part-2/2/server.c:113-115 | a release keeps it iff the worker served its grant's holder, or holds no promise |
| WorkerPool.StepExact | labs/lab-16/part-2/2/server.c:96-211 | any step keeps it iff the step is harmless |
| WorkerPool.RunExact | labs/lab-16/part-2/2/server.c:96-211 | whole runs: reservations are exclusive throughout iff every step was harmless |
| WorkerPool.PoliteClients | labs/lab-16/part-2/2/server.c:96-211 | clients that connect once and only to the port they were given are always harmless |
| WorkerPool.AnswersAreRight | labs/lab-16/part-2/2/server.c:199-204 | then BUSY is answered iff every worker has a grant outstanding, and a port given out has none |
| WorkerPool.StrangerBreaksIt | labs/lab-16/part-2/2/server.c:110-115 | a run with one stray connection after which exclusivity is lost, from any initial pool with a worker |
| Shop.VisitConserves | labs/lab-11/src/main.c:59-93 | a visit moves goods from one stall to one customer, none lost, none negative, all others untouched, and stops only at an empty stall or a met need |
| Shop.DeliveryRefillsOne | labs/lab-11/src/main.c:114-121 | a delivery puts 200 into the stall where the loader stands and changes nothing else |
| Shop.InvKept | labs/lab-11/src/main.c:59-125 | every step conserves stock + bought = initial stock + 200 per delivery, and no need ever rises |
| Shop.RunKeepsInv | labs/lab-11/src/main.c:131-162 | in every reachable state, for any number of stalls and customers |
| Shop.StallLedger | labs/lab-11/src/main.c:59-125 | in every run each stall holds what it started with, plus 200 per visit of the loader there, less what each customer carried out of it |
| Shop.CustomerLedger | labs/lab-11/src/main.c:59-93 | in every run each customer needs what it needed at first less what it carried out of the stalls |
| Shop.FinalBalance | labs/lab-11/src/main.c:154-162 | when a run is over every need was met, the stock left tells the deliveries, at most one of them after the stop flag |
| Shop.AtLeast121Deliveries | labs/lab-11/src/main.c:8-14 | with the program's constants every run that ends has made at least 121 deliveries |
| Shop.Market.Visit | labs/lab-11/src/main.c:63-84 | a customer's critical section in place |
| Shop.Market.Deliver | labs/lab-11/src/main.c:117-121 | the loader's critical section in place |

## Left out

- Sockets, pipes, message queues, shared-memory mapping, `fork`, descriptor inheritance: only their FIFO or nondeterministic effect is in the model.
- The ncurses screens, printing, logging, menus and keyboard input of all programs.
- Lab 13: an `mq_send` that fails (the model blocks on a full queue instead); a failing `mq_open` is in the model.
- Lab 14: `sem_wait` failing, and the "Failed to join chat" notice, after which the client exits.
- Condition variables: the class methods of WorkQueue are one attempt with the mutex held; the waiting loop around them is the thread states of WorkQueueThreads.
- Fairness and liveness: who runs next is arbitrary, so "some thread can step" is proved and "it will" is not. That a run of the shop ends is not claimed.
- Overflow of per-client counters and of stock: unbounded integers.
- The taxi command line (creating drivers, parsing, stopping them), failing answers, and the time a driver spends in a read.
- The poll server's UDP answers, its reads and writes to clients, and a failing `poll`: none of them changes the table.
- The raw echo server's packet decoding (a UDP length below 8, headers) and its own answer packet.
- The addresses and options the checksum client puts into its header; only the 16-bit field is modelled.
- The fields of a phone book entry beyond comparing and moving them; the printing of the whole list.
- All other labs: bit exercises, arrays, calculators, processes and kernel modules, whose functions would only add easy members.
