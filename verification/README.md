# Models of the course programs

The repository is a collection of small C programs. Several of them hold a real
protocol, a linked structure or a loop with a hard invariant; this project models
those in Dafny and proves what they are meant to do. `dafny verify dfyconfig.toml`
verifies everything.

| files | program |
|---|---|
| `ChatProtocol`, `ChatTables`, `ChatReplication` (over `MessageQueue`) | the chat over System V queues, `Queue_message/Message` |
| `Spiral` | the spiral fill, `Home_Work_2/src/main4.c` |
| `RingQueue`, `WorkerPool` | the worker pool, `Sockets/Task_2/Producer_Consumer/server.c` |
| `TaxiTable`, `TaxiSystem` (over `MessageQueue`) | dispatcher and drivers, `Final_Task2/taxi_system.c` |
| `Broadcast` | the one-slot broadcast, `Shared_Memory/Message` |
| `Directory`, `DirectoryList`, `DirectoryArray`, `DirectoryAgreement` | the two subscriber directories |
| `PipeWiring`, `Pipeline` | the mini shell, `Channels/Bash_with_pipe/main.c` |
| `Checksum` | the Internet checksum, `Sockets/Task_4/client_2.c` and `client_3.c` |
| `EchoServer` | the echo server's table, `Final_Task1/echo_server.c` |
| `Stores` | customers, stores and supplier, `Threads/main.c` |
| `CStrings` | terminated strings and `strncpy`, for the chat and the array directory |
| `Sums`, `Sequences`, `Wrappers` | shared helpers |

Code that works on arrays, nodes and descriptor tables is written as classes and
methods with loops, each proved against a function of the old contents. Programs
made of several threads or processes are state machines: every `msgsnd`,
`msgrcv`, semaphore or mutex operation and every load or store of shared data is
a step of its own, a run is any sequence of steps, and the results hold after
every run. The chat's server and clients and the taxi dispatcher exist in both
forms, tied by the same functions. A kernel queue is a sequence from which a
receiver takes the first message of its own type; a semaphore is a number; a
mutex is an optional owner; `fork` copies a descriptor table.

## What the results say about the code

- Chat: every client that reads on ends with exactly the server's roster and the
  server's whole log, whenever it joined. Neither side ever indexes outside a table
  unless the server takes one of three kinds of request (`NeverOutsideTable`):
  - a join while ten members are registered: the server refuses it but announces it
    to the ten, and each of them overflows its table when it reads on
    (`EleventhJoinFails`, `JoinServedIff`);
  - a talk whose line "name: text" is longer than the 256 bytes of the buffer. The
    client accepts 255 characters, so a member with a name of 19 can send it from 236
    characters on (`LongTalkFails`); the copy then overwrites the sender field unless
    it repeats its bytes (`SenderKeptIff`);
  - a leave of any but the last member from a full roster of ten: the removal loop
    reads one entry past its table (`RemovalInsideIff`, `FullRosterFails`).
- A line copied without its terminator (server.c:89 and 136) is displayed unchanged
  exactly when the byte behind it is NUL already; behind a line that fills the buffer
  that is the low byte of the sender's pid (`ShownExactlyIff`). Of live talk only such
  full lines show more than was said (`TalkReaches`).
- Taxi: the table agrees with the drivers as long as every timer is positive. A
  task with a timer of zero or less is swallowed by the driver and its entry stays
  busy for ever (`DeliveryAgreesIffPositive`, `AgreesUnlessSwallowed`).
- Broadcast: permits are conserved and each message is read exactly n times in
  all, but not by each reader: a fast reader may take every permit of a message.
  Every client is sure to read every message exactly when there is at most one
  client (`EachOnceIffSingle`). The one-second pauses of the server only make the
  bad run unlikely. In every interleaving exactly 7n + 3 steps lie between two
  overwrites of the slot (`CycleLength`).
- Shell: the counting pass and the tokenizer agree exactly when every `|` has a
  space or the end of the line on either side (`PassesAgreeIff`), and the counting
  pass leaves its string exactly when the line ends in an odd number of bars
  (`SafeIff`).
- Checksum: a 32-bit sum never wraps, and the result is the standard's for every
  buffer of a length, exactly up to 131074 bytes (`NeverWrapsIff`,
  `ChecksumRightIff`); the odd tail is the standard's zero padding exactly on
  little-endian hosts or for a zero byte (`TailIsPaddingIff`).
- Array directory: `find_free_index` tests the record before the bound, so on a full
  table it reads the cell behind it (`ReadsInsideIff`). What it finds there does not
  matter to a search or a deletion, but an insertion writes its record there, because
  the check `index > 100` of `insert_abonent` can never hold (`InsertAbonent`). The
  list has room for 101 records; the two agree all through a run exactly when nothing
  is inserted into a full table (`AgreeIff`). The menus promise up to 10 characters
  per field, but `strncpy(.., 10)` stores a terminator only up to 9: with 10, name and
  second name never read back, and a telephone number only while a NUL stands behind
  the record (`CellReadsBackIff`).

## Model

| member | source | states |
|---|---|---|
| ChatReplication.RosterReplication | Queue_message/Message/server.c:57-162 | After any run of joins, talk, leaves, sends and reads, folding a registered client's unread messages over its local table gives the server's roster: same names, pids and order. |
| ChatReplication.TotalOrderLog | Queue_message/Message/server.c:70-151 | After any run, the talk a registered client has shown followed by what it has yet to read is the server's whole log, line by line, for early and late joiners alike: the same senders, and what is shown begins with the logged line. |
| ChatReplication.RosterIsMembers | Queue_message/Message/server.c:57-105 | After any run no client stands in the roster twice, each stands there under the name it joined with, and once the server has taken every request the roster holds exactly the clients that joined and have not left. |
| ChatReplication.TalkServed | Queue_message/Message/server.c:70-91 | Taking a talk after any run logs "name: text" under the name its speaker joined with and sends every member one message that shows it. |
| ChatReplication.FarewellServed | Queue_message/Message/server.c:93-161 | Taking a leave after any run sends every remaining member "server: name left the chat", under the name the leaver joined with, and then the removal of the leaver. |
| ChatReplication.ClientCatchesUp | Queue_message/Message/client.c:35-62 | After any run, once the server has sent everything, a registered client that reads its whole mailbox step by step holds the server's roster and has shown the whole log. |
| ChatReplication.NeverOutsideTable | Queue_message/Message/client.c:39-61 | A run leads outside a table or the text buffer, at the server or at a client, exactly when at some point the server takes a join at a full roster, a talk whose line "name: text" exceeds 256 bytes or a leave of any but the last entry from a full roster. |
| ChatReplication.QuietClientsAgree | Queue_message/Message/client.c:35-62 | Registered clients with nothing left to read hold the same table as the server and each other, and each has shown the whole log line by line. |
| ChatReplication.FullRosterFails | Queue_message/Message/server.c:57-119 | Ten joins reach a full roster from which an eleventh join fails, the leave of each of the first nine members goes outside the table and that of the tenth does not. |
| ChatReplication.EleventhJoinFails | Queue_message/Message/server.c:109-119 | In any quiet reachable state with ten members the server leaves its roster as it is on a join and announces it, and every member that then reads what it is sent goes outside its table. |
| ChatReplication.LeaveServedIff | Queue_message/Message/server.c:93-104 | In any quiet reachable state a member's leave is served inside the table exactly when the roster is not full or the member is its last entry. |
| ChatReplication.TalkServedIff | Queue_message/Message/server.c:84-91 | In any quiet reachable state a member's talk is served inside the text buffer exactly when its name, the separator and its text have at most 256 bytes. |
| ChatReplication.LongTalkFails | Queue_message/Message/client.c:94-115 | For every name length up to 19 and every text length up to 255 a reachable chat exists in which such a talk goes outside the buffer exactly when the two exceed 254. |
| ChatReplication.ServeDefinedIff | Queue_message/Message/server.c:57-119 | In every state the invariant holds in, the request at the head of the queue is served inside all tables exactly when it is a join below ten members, a talk that fits under the name its client joined with or a leave within the removal bound. |
| ChatReplication.JoinServedIff | Queue_message/Message/client.c:39-42 | A newcomer can be added by every member exactly when the roster had fewer than ten entries. |
| ChatProtocol.RemovalInsideIff | Queue_message/Message/server.c:98-103 | All cells the removal loop touches lie in the table of ten exactly when the entry was found and the table is not full or the entry is its last. |
| ChatReplication.StepKeeps | Queue_message/Message/server.c:181-184 | Every step of server, kernel queue or client keeps the replication invariant, and is defined exactly unless the server takes a request that does not fit. |
| ChatReplication.ServeNews | Queue_message/Message/server.c:107-161 | For every request the server can register, the messages sent are right for every pid: a member's fold moves from the old roster to the new one, a newcomer's fold from nothing gives roster and log, nobody else gets anything. |
| ChatReplication.NewcomerRoster | Queue_message/Message/server.c:112-131 | The newcomer's announcement and roster replay together rebuild the roster exactly once, itself included, also when it is alone. |
| ChatReplication.SendRosterMailbox | Queue_message/Message/server.c:121-131 | Replaying the roster through one reused text buffer appends exactly the roster, names byte for byte. |
| ChatReplication.SendLogMailbox | Queue_message/Message/server.c:133-143 | Replaying the log shows the newcomer its lines in order, each with its sender. |
| ChatReplication.TalkReaches | Queue_message/Message/server.c:84-91 | Talk reaches every member exactly once with its sender and is logged as "name: text" under the speaker's roster name; what is displayed begins with that line and, from a padded buffer, is that line exactly unless it fills the buffer and the low byte of the sender is not zero. |
| ChatReplication.ReadFits | Queue_message/Message/client.c:36-61 | A client that takes its next message can apply it, and what it then holds and has to read still adds up. |
| ChatReplication.LeaveNews | Queue_message/Message/server.c:152-161 | After a leave the fold of every remaining member loses exactly the leaver, and nobody else is told anything. |
| ChatReplication.FarewellReaches | Queue_message/Message/server.c:93-161 | Every remaining member gets two messages, in this order: the farewell that names the entry with the leaver's pid, from the server, and the removal of that pid. |
| ChatReplication.LeaveOrder | Queue_message/Message/server.c:98-103 | The others keep their order in the roster, and nothing is logged. |
| ChatProtocol.First19Survives | Queue_message/Message/server.c:124 | A name copied by strncpy(.., 19) into a used buffer is read back unchanged by the next strncpy(.., 19), whatever follows it. |
| ChatProtocol.ShownExactlyIff | Queue_message/Message/server.c:136-137 | A line copied without its terminator is displayed followed by whatever stands behind it, so unchanged exactly when the byte behind it is NUL, which behind a line that fills the buffer is the low byte of the sender. |
| ChatProtocol.SenderKeptIff | Queue_message/Message/server.c:89-90 | Copying a line of any length over the message leaves the sender field as it was exactly when the bytes beyond the text buffer repeat the sender's own. |
| ChatProtocol.FarewellShown | Queue_message/Message/server.c:95-96 | The farewell is always displayed exactly, whatever the buffer held before. |
| CStrings.CopiedBytes | Queue_message/Message/server.c:67 | strncpy(.., n) writes the first n bytes of the string and fills up with NULs. |
| ChatProtocol.LongSpelled | Queue_message/Message/library.h:16 | The bytes behind the text buffer spell the sender's pid, lowest first. |
| ChatProtocol.NameKept | Queue_message/Message/server.c:66-67 | A name field holds the first 19 bytes of the name given. |
| MessageQueue.ReceiveTakesHead | Queue_message/Message/client.c:36-37 | msgrcv by type removes the head of that mailbox and changes no other mailbox. |
| ChatTables.FindNameClient | Queue_message/Message/library.c:3-9 | The loop returns the first index with that pid, or -1. |
| ChatTables.ShiftOut | Queue_message/Message/client.c:54-59 | The in-place shift removes exactly the entry at the index and touches exactly the cells that the bound speaks of. |
| ChatTables.ChatClient.ReadQueue | Queue_message/Message/client.c:39-61 | One received message changes the client's array table as the protocol's fold step says. |
| ChatTables.ChatServer.Reserve | Queue_message/Message/server.c:71-83 | Doubling the store keeps the log and leaves room for one more line. |
| ChatTables.ChatServer.StoreLine | Queue_message/Message/server.c:70-91 | The log grows by exactly the new line and its sender, across a doubling of both arrays. |
| ChatTables.ChatServer.ReadQueue | Queue_message/Message/server.c:57-105 | One request changes roster, log and message structure exactly as the protocol's registration step. |
| ChatTables.ChatServer.SendToAll | Queue_message/Message/server.c:49-55 | The loop sends the body to every roster entry in order, except the one to skip. |
| ChatTables.ChatServer.SendWholeRoster | Queue_message/Message/server.c:121-131 | The loop sends one message per roster entry to the newcomer and leaves the buffer as the protocol says. |
| ChatTables.ChatServer.SendWholeLog | Queue_message/Message/server.c:134-144 | The loop sends one message per log line to the newcomer, in log order. |
| ChatTables.ChatServer.WriteQueue | Queue_message/Message/server.c:107-162 | Everything sent for a request is exactly the protocol's outgoing sequence; roster and log stay as they are. |
| ChatTables.ChatServer.Serve | Queue_message/Message/server.c:181-184 | One round of the main loop is one registration step followed by its outgoing messages. |
| ChatTables.ChatServer.constructor | Queue_message/Message/server.c:23-32 | The server starts with an empty roster and an empty log. |
| Spiral.SnailArray | Home_Work_2/src/main4.c:34-73 | For every n the walking program fills the matrix with the closed-form clockwise spiral, inside its bounds, and writes the numbers in order into n*n different cells. |
| Spiral.Write | Home_Work_2/src/main4.c:53 | The cell that gets the next number was still unwritten. |
| Spiral.WalkFollowsSpiral | Home_Work_2/src/main4.c:40-71 | From every cell but the last, "turn right when the way is off the grid or written" leads to the cell the closed form numbers next. |
| Spiral.TurnTestIsBlocked | Home_Work_2/src/main4.c:40-43 | When exactly the smaller numbers are written, the program's four-way test on the matrix is the walker's blocked test. |
| Spiral.SpiralIsPermutation | Home_Work_2/src/main4.c:34-73 | Every number from 1 to n*n stands in exactly one cell of the spiral. |
| Spiral.ValueClosedForm | Home_Work_2/src/main4.c:34-73 | The number of a cell of ring k is 4k(n - k) and its way along the ring: a formula of the cell alone. |
| Spiral.ConsecutiveAdjacent | Home_Work_2/src/main4.c:61-71 | Consecutive numbers stand in cells that share an edge. |
| Spiral.PositionsDistinct | Home_Work_2/src/main4.c:39-53 | No two steps of the walk stand on the same cell. |
| Spiral.InitialArray | Home_Work_2/src/main4.c:20-28 | The source matrix holds consecutive numbers row by row and the result matrix only -1. |
| WorkerPool.WorkConservation | Sockets/Task_2/Producer_Consumer/server.c:36-72 | In every interleaving, while a worker sleeps the queue is no longer than the number of contending workers, and between an insertion and its signal at most one longer; a pool that sleeps as a whole has an empty queue. |
| WorkerPool.FirstInFirstOut | Sockets/Task_2/Producer_Consumer/server.c:33-72 | Connections are enqueued in the order they were accepted and dequeued in the order they were enqueued, at most 20 wait, and at most one thread holds the mutex. |
| WorkerPool.RefusedIffFull | Sockets/Task_2/Producer_Consumer/server.c:36-49 | After any run the accepting thread that tests the queue refuses its connection exactly when 20 wait, and otherwise puts it behind them. |
| WorkerPool.RefusedOnlyIfFull | Sockets/Task_2/Producer_Consumer/server.c:127-142 | In no other way does a connection come to be refused. |
| WorkerPool.FirstTwentyServed | Sockets/Task_2/Producer_Consumer/server.c:36-49 | As long as at most 20 connections have come, none is refused. |
| WorkerPool.ExactlyOnePlace | Sockets/Task_2/Producer_Consumer/server.c:127-142 | Every accepted connection is in exactly one place: with the accepting thread, refused, queued, in service or closed. |
| WorkerPool.NoArrivalsTerminates | Sockets/Task_2/Producer_Consumer/server.c:62-84 | Without arrivals and spurious wake-ups a weighted amount of work bounds the number of steps left. |
| WorkerPool.StuckMeansIdle | Sockets/Task_2/Producer_Consumer/server.c:64-82 | If no internal step is possible, every worker sleeps and the accepting thread waits for a connection: no deadlock. |
| WorkerPool.DrainedWhenStuck | Sockets/Task_2/Producer_Consumer/server.c:62-84 | When the pool has run out of steps the queue is empty and every accepted connection was refused or closed. |
| RingQueue.Ring.Enqueue | Sockets/Task_2/Producer_Consumer/server.c:37-49 | Refuses with 1 exactly when 20 wait, otherwise appends to the queue that the ring stands for. |
| RingQueue.Ring.Dequeue | Sockets/Task_2/Producer_Consumer/server.c:52-59 | Takes the oldest element of the queue that the ring stands for, also across the wrap-around, and leaves the others in order. |
| TaxiSystem.DispatcherAgrees | Final_Task2/taxi_system.c:48-143 | With positive timers, an entry is busy exactly when its driver has one token (a task message, its work or a completion message) and available exactly when it has none; a working driver has no task waiting. |
| TaxiSystem.AgreesUnlessSwallowed | Final_Task2/taxi_system.c:51-57 | For any timers an entry agrees with its driver exactly when the driver swallowed no task; one that did never accepts a task again. |
| TaxiSystem.DeliveryAgreesIffPositive | Final_Task2/taxi_system.c:54-57 | Sending and delivering an accepted task leaves entry and driver in agreement exactly when the timer is positive. |
| TaxiSystem.WorksAsShown | Final_Task2/taxi_system.c:105-114 | A working driver's entry is busy and shows the timer its driver works for: seconds left and seconds slept add up to it. |
| TaxiSystem.AvailableShowsZero | Final_Task2/taxi_system.c:135-143 | After any run an available entry shows no timer. |
| TaxiSystem.TasksAccounted | Final_Task2/taxi_system.c:59-69 | Every completed task slept exactly as many seconds as its timer said and sent one completion, and accepted tasks are acknowledged ones plus busy entries. |
| TaxiSystem.AnyTaskAccepted | Final_Task2/taxi_system.c:74-120 | Up to 100 drivers can be created, and any of them can be given any task: it alone becomes busy, with that timer, and its message carries it. |
| TaxiSystem.StopsAfterRemaining | Final_Task2/taxi_system.c:217-222 | Without new commands every step uses up exactly one unit of the phases and seconds left. |
| TaxiSystem.QuietMeansAvailable | Final_Task2/taxi_system.c:135-143 | When nothing can happen without a command, an entry is busy only if its driver swallowed a task; with positive timers all are available. |
| TaxiSystem.StepKeeps | Final_Task2/taxi_system.c:74-143 | Every create, task, acknowledgement, fetch and tick keeps the token invariant of all drivers. |
| TaxiTable.Dispatcher.SendTask | Final_Task2/taxi_system.c:97-120 | A known available driver becomes busy with its timer and is sent one message; otherwise nothing changes. |
| TaxiTable.Dispatcher.UpdateStatusDriver | Final_Task2/taxi_system.c:135-143 | The first entry with that pid becomes available; an unknown pid changes nothing. |
| TaxiTable.Dispatcher.CreateDriver | Final_Task2/taxi_system.c:88-91 | The table grows by one available entry. |
| TaxiTable.DriverRound | Final_Task2/taxi_system.c:54-70 | A positive timer costs exactly that many seconds and one completion, any other timer nothing. |
| Broadcast.PermitsConserved | Shared_Memory/Message/server.c:122-168 | Permits in both semaphores, with active readers and in the server's hand always total the number of clients. |
| Broadcast.OverwriteIsSafe | Shared_Memory/Message/server.c:162-164 | When the server overwrites the slot every reader is idle and no permit can be taken. |
| Broadcast.ReadersSeeLatest | Shared_Memory/Message/client.c:47-75 | A reader holds the latest message from its copy to its acknowledgement, and each finished message was read exactly n times in all. |
| Broadcast.EachOnceIffSingle | Shared_Memory/Message/client.c:47-75 | Every reader reads every finished message exactly once in all runs exactly when there is at most one reader. |
| Broadcast.NeverStuck | Shared_Memory/Message/server.c:119-193 | Some step is always possible: server and readers never deadlock. |
| Broadcast.CycleLength | Shared_Memory/Message/server.c:122-168 | In every interleaving exactly 7n + 3 steps lie between two overwrites: after fewer another step is possible but not the overwrite, and more there cannot be. |
| Broadcast.GreedyRun | Shared_Memory/Message/client.c:47-75 | A run exists in which one reader reads a message n times. |
| DirectoryList.Abonent.DeleteAbonent | Subscriber_directory_v.2.0/lib/lib.c:149-180 | Leaves a well-formed doubly linked list of exactly the records not so named, in order, with the right size and return code; every node ever inserted is either in the list or freed. |
| DirectoryList.Abonent.DeleteNode | Subscriber_directory_v.2.0/lib/lib.c:182-208 | The four-way unlinking removes exactly the k-th node, frees it once, keeps the links mutually inverse and returns the next node. |
| DirectoryList.Abonent.Relink | Subscriber_directory_v.2.0/lib/lib.c:183-205 | Relinking the neighbours leaves a well-formed list without the k-th node. |
| DirectoryList.Abonent.Search | Subscriber_directory_v.2.0/lib/lib.c:136-147 | Returns the position of the first match from 1; it exceeds the size exactly when the name is absent. |
| DirectoryList.Abonent.InsertAbonent | Subscriber_directory_v.2.0/lib/lib.c:14-74 | Appends the record at the end of the list, or returns 1 and changes nothing above 100 entries. |
| Directory.WithoutKeepsOthers | Subscriber_directory_v.2.0/lib/lib.c:170-177 | The filter both deletions refine leaves nobody of that name and everybody else as often as before. |
| DirectoryArray.Compact | Subscriber_directory/lib/lib.c:171-197 | The two-pointer loop leaves the survivors in order followed only by blanks, touches nothing beyond and stops. |
| DirectoryArray.DeleteAbonent | Subscriber_directory/lib/lib.c:131-169 | On any contents, a full table included, the complete prefix becomes its filter followed by blanks and the rest is untouched. |
| DirectoryArray.BlankMatches | Subscriber_directory/lib/lib.c:150-161 | Exactly the matches are blanked and the first of them is remembered. |
| DirectoryArray.DeleteShrinks | Subscriber_directory/lib/lib.c:53-60 | After a deletion, from a full table too, the free index is the number of survivors and the directory is the filter of the old one. |
| DirectoryArray.FindFreeIndex | Subscriber_directory/lib/lib.c:53-60 | Returns the first record with an empty field, or 100 on a full table whatever stands behind it, and reads exactly the cells up to that index. |
| DirectoryArray.ReadsInsideIff | Subscriber_directory/lib/lib.c:53-60 | The cells the search for the free slot reads lie in the table exactly when a slot is free. |
| DirectoryArray.CellReadsBackIff | Subscriber_directory/lib/lib.c:40-45 | A complete record with up to 10 characters per field reads back unchanged exactly when name and second name have at most 9 and the telephone number too, or a NUL stands behind the record. |
| DirectoryArray.FitsIff | Subscriber_directory/lib/lib.c:40-45 | Such a record reads back whatever stands behind it exactly when every field has at most 9 characters. |
| CStrings.CopiedReadsBackIff | Subscriber_directory/lib/lib.c:42-44 | A string copied by strncpy(.., n) reads back unchanged exactly when it is shorter than n or the bytes behind the field continue it. |
| DirectoryArray.InsertAbonent | Subscriber_directory/lib/lib.c:5-45 | Writes the record into the first free slot and nothing else; without a free slot it goes behind the table. |
| DirectoryArray.InsertExtends | Subscriber_directory/lib/lib.c:40-45 | Inserting a complete record appends it to the directory that the array stands for, also into the last of the 100 slots. |
| DirectoryArray.Search | Subscriber_directory/lib/lib.c:115-129 | On any contents: -1 exactly when no record of the complete prefix has the name, otherwise the index of the first that has it. |
| DirectoryAgreement.RunBoth | Subscriber_directory/lib/lib.c:5-197 | For every run of operations the list is the directory with room for 101 records and the array the one with room for 100; every search answers where the name first stands among the records of the moment, or -1, and both answer alike unless something is inserted into a full table. |
| DirectoryAgreement.AgreeIff | Subscriber_directory/lib/lib.c:14-17 | List and array hold the same records all through a run exactly when no operation inserts into a full table. |
| PipeWiring.RunProcess | Channels/Bash_with_pipe/main.c:36-66 | For every number of stages and any descriptors the kernel picks, the first stage reads and the last one writes where the shell does, the others are joined by their pipes, every other descriptor of a stage is the shell's, and the parent is left with its own table. |
| PipeWiring.OneWriterOneReader | Channels/Bash_with_pipe/main.c:53-56 | Pipe j is written only by stage j's standard output and read only by stage j+1's standard input; the shell holds neither. |
| PipeWiring.EndOfFilePropagates | Channels/Bash_with_pipe/main.c:56-66 | A process still holds the write end of pipe j exactly while stage j has not exited. |
| PipeWiring.CloseAll | Channels/Bash_with_pipe/main.c:11-19 | Exactly the pipe descriptors are closed. |
| PipeWiring.ClosedIsShell | Channels/Bash_with_pipe/main.c:40-66 | Opening all pipes and closing them again gives back the shell's table. |
| Pipeline.RoundTrip | Channels/Bash_with_pipe/main.c:92-120 | Words joined by spaces and commands by " \| " are read back as the same commands, and both passes count them alike. |
| Pipeline.PassesAgreeIff | Channels/Bash_with_pipe/main.c:96-120 | On every line the counting pass can read, both passes find the same number of commands exactly when every bar stands alone. |
| Pipeline.TokensAtSpace | Channels/Bash_with_pipe/main.c:105 | The tokens of a line with a space in it are those before the space and those behind it, wherever it stands. |
| Pipeline.CommandsAtBar | Channels/Bash_with_pipe/main.c:105-120 | On any line, " \| " separates the commands before it from those behind it, and a line without a bar token is one command of its tokens. |
| Pipeline.RowsFit | Channels/Bash_with_pipe/main.c:102-120 | The tokenizer never starts more commands than the counting pass allocated rows for. |
| Pipeline.SafeIff | Channels/Bash_with_pipe/main.c:24-32 | The counting pass stays inside its string exactly when the line ends in an even number of bars. |
| Pipeline.FindNumberCommand | Channels/Bash_with_pipe/main.c:21-34 | The shrinking loop stops and counts one command more than its jumps. |
| Pipeline.ReadCommands | Channels/Bash_with_pipe/main.c:99-120 | The argument table holds every command with its terminator, inside its bounds, unless "exit" is among the tokens. |
| Checksum.CalculateChecksum | Sockets/Task_4/client_2.c:11-30 | For every buffer and length the result is the complement of the folded sum of its words, wrap-around included, after at most two rounds of folding. |
| Checksum.NeverWrapsIff | Sockets/Task_4/client_2.c:15-22 | The 32-bit sum of every buffer of a length stays below 2^32 exactly when the length is at most 131074. |
| Checksum.ChecksumRightIff | Sockets/Task_4/client_2.c:11-30 | The result is the complement of the one's complement sum for every buffer of a length exactly when the length is at most 131074. |
| Checksum.TwoRounds | Sockets/Task_4/client_2.c:24-26 | Folding a 32-bit sum takes at most two rounds. |
| Checksum.FoldIsOnesSum | Sockets/Task_4/client_2.c:15-26 | Adding first and folding at the end is the 16-bit one's complement sum of section 1 of RFC 1071. |
| Checksum.ChecksumIsOnesComplement | Sockets/Task_4/client_2.c:11-30 | For buffers up to 131074 bytes the checksum is the complement of the one's complement sum. |
| Checksum.StoredChecksumVerifies | Sockets/Task_4/client_2.c:82-86 | Storing the result in its zeroed, even-aligned field makes recomputation return 0. |
| Checksum.OneWordChange | Sockets/Task_4/client_2.c:11-30 | A verified buffer with one word changed still verifies exactly when the change is none or between 0x0000 and 0xFFFF with some word left non-zero. |
| Checksum.OrderIrrelevant | Sockets/Task_4/client_2.c:15-18 | The sum does not depend on the order of the words. |
| Checksum.ByteOrderCommutes | Sockets/Task_4/client_2.c:15-29 | Swapping the bytes of every word swaps the bytes of the checksum. |
| Checksum.TailIsPaddingIff | Sockets/Task_4/client_2.c:20-22 | Reading the odd tail as a byte equals padding with zero exactly on a little-endian host or for a zero byte, and the little-endian sum is the one the program's loop is proved against. |
| Checksum.FillHeaderChecksum | Sockets/Task_4/client_2.c:82-86 | Bytes 10 and 11 receive the checksum of the header with these bytes zeroed; the header then verifies and no other byte has changed. |
| EchoServer.Server.Serve | Final_Task1/echo_server.c:70-146 | For every packet sequence with at most 100 clients active, each reply's counter is one plus the client's earlier messages since its last CLOSE, and a CLOSE gets no reply. |
| EchoServer.Server.Echo | Final_Task1/echo_server.c:115-129 | One message keeps the table a refinement of the history and returns the client's new count. |
| EchoServer.Server.Close | Final_Task1/echo_server.c:96-111 | A CLOSE keeps the table a refinement of the history, whether or not the client is known. |
| EchoServer.Server.RemoveClient | Final_Task1/echo_server.c:102-106 | The shift loop removes exactly one entry and keeps the order of the others. |
| EchoServer.CloseRefines | Final_Task1/echo_server.c:99-107 | Dropping one client leaves every other counter equal to its own history. |
| EchoServer.SinceMeans | Final_Task1/echo_server.c:96-129 | The count used by the table is the number of the client's packets after its last CLOSE. |
| EchoServer.TableSize | Final_Task1/echo_server.c:22-45 | The table has exactly one entry per active client. |
| EchoServer.RoomForIff | Final_Task1/echo_server.c:37-45 | A message finds its client or a free entry exactly when at most 100 clients are active with it. |
| Stores.GoodsConserved | Threads/main.c:29-84 | Whenever no store is mid-purchase, stock plus purchases equals the first stock plus 200 per delivery, in every interleaving. |
| Stores.CustomersSatisfied | Threads/main.c:26-52 | A customer's desire is its first desire less its purchases; it leaves only when they cover it, overshooting by less than the last purchase, and does not go on shopping once they do. |
| Stores.OneInStore | Threads/main.c:33-78 | No two threads are ever inside one store. |
| Stores.VisitBuysAll | Threads/main.c:33-47 | Whatever the other threads do meanwhile, a customer that finds goods is ready to leave after exactly three steps of its own, has bought all of them and nothing else, and has left the shelf empty; one that finds none is ready after one and has bought nothing. |
| Stores.StoresLeftEmpty | Threads/main.c:37-47 | After any run a customer about to leave leaves no goods behind, and a store is open exactly when nobody is inside. |
| Stores.InsideNeverWaits | Threads/main.c:33-50 | A customer inside a store can always take its next step. |
| Stores.AllCanGoHome | Threads/main.c:26-59 | However much the customers want, a run exists in which all of them go home. |

## Left out

- ChatReplication.RosterReplication: pids are fresh and each client joins once before it talks; a run ends where the server takes a request that leads outside a table.
- ChatReplication.TotalOrderLog: a shown text begins with its logged line; what may follow it is the subject of `ShownExactlyIff` and `TalkReaches`, because lines are copied without a terminator.
- ChatReplication.NeverOutsideTable: a run ends where the server takes an unfit request; what the program does from there is modelled only for the sender field (`SenderKeptIff`) and for the members told of an eleventh one (`EleventhJoinFails`).
- DirectoryAgreement.RunBoth: inserted fields are non-empty and at most 9 characters, because others do not read back (`FitsIff`); a record written behind the table replaces one record's worth of memory and nothing else.
- EchoServer.Server.Serve: counters are unbounded integers, and at most 100 clients are active at once.
- TaxiTable.Dispatcher.CreateDriver: the 100-entry table is not full and the fork succeeds; the code checks neither bound.
- TaxiSystem.DispatcherAgrees: every `msgsnd` succeeds and pids are distinct; the dispatcher's commands and its polling may interleave with the drivers in any order.
- Broadcast: a fixed set of registered clients; joins, leaves and the inbound slot from clients to server are left out. It is modelled on values as steps, because its loops block in semaphores; the server's choice of message and its pauses are not modelled.
- WorkerPool and Stores: modelled on values as interleaved steps; connections are numbered instead of named by reused descriptors, and time, random choice of store and output are left out.
- PipeWiring: failing `pipe`, `fork` or `execvp`, exit statuses and `wait`.
- Null-pointer checks, prompts and printing of the directories, `search_abonent` and `print_all_abonents`; memory allocation failures everywhere.
- ncurses windows, signal handlers, sockets, message text formatting by `sprintf` beyond concatenation, clocks and sleeping.
- Sockets/Task_2/Pull_Threads: its shared descriptor and counter do not serve each connection once.
- The remaining exercises (calculators, first homeworks, processes, signals, one-shot socket, queue and shared-memory programs, Midnight_Commander, Vzlom_program) would only add easy members.
