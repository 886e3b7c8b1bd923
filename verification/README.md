# Verified model of the WIMP core

WIMP lets the processes of one application talk to each other: every process runs a small
server, keeps a table of the processes it is connected to, queues instructions, sends them over
stream sockets and forwards those that are not its own. This project models that machinery in
Dafny and proves what it is there for: an instruction arrives as it was sent, once, in order,
where the process tables lead, and nothing on the way reads or writes outside a buffer.

The host is little-endian with a 32-bit `int32_t` and a 64-bit `size_t`.

## Parts

| file | part |
|---|---|
| `Bytes.dfy` | bytes, C strings, integers in memory |
| `WireFormat.dfy`, `StringPack.dfy` | the bytes of an instruction and of a pack of strings, their writers and readers |
| `InstrQueue.dfy`, `QueueRuns.dfy`, `PriorityLock.dfy` | the linked instruction queue, runs over several queues, and the three mutexes that guard each |
| `Reciever.dfy`, `Transport.dfy`, `Rounds.dfy` | the reciever's state machine over packets, what it makes of a stream, and of bytes no sender wrote |
| `HashTable.dfy`, `ProcessTable.dfy` | the chained hash table and the process table on it |
| `Server.dfy`, `WaitResponse.dfy` | sending, routing on, waiting for a response, the exit broadcast |
| `EndToEnd.dfy` | one connection from the sending loop to the queue at the other side |
| `Routing.dfy`, `Network.dfy`, `NetworkProgress.dfy`, `NetworkEnds.dfy` | the tree of processes: where instructions go, whole runs of it, how they end, and when a reciever does |
| `SimpleArena.dfy`, `SharedData.dfy`, `SharedRuns.dfy`, `SharedEffects.dfy`, `SharedExamples.dfy` | shared data slots, whole runs of many processes on them, what each operation answers, and runs that go wrong |
| `SdsHeader.dfy`, `Sds.dfy`, `SdsNumber.dfy`, `SdsFormat.dfy` | the bytes of the string header, the growable string, its decimal numerals and its formatter |
| `SdsSplit.dfy`, `SdsArgs.dfy`, `SdsGrammar.dfy`, `SdsEscapes.dfy`, `SdsRepr.dfy` | splitting and joining, argument lines, their grammar, their escapes byte by byte, and the printer they undo |

Code that works step by step is modelled as classes and methods with loops, each proved against a
function of its inputs or of the old state; the lemmas are about those functions. Threads are
interleavings of steps. Packets, the number of bytes a send takes, and what recievers append
between two passes are arbitrary inputs.

## What the code does differently from its documentation or intent

Each of these is stated exactly, for all inputs; the examples are concrete inputs that show it.

- A frame whose size is a multiple of 256 begins with a zero byte and is taken for a ping; names
  must not be empty (`WireFormat.ParseInvertsBundle`, `WireFormat.MultipleOf256IsPing`; example
  `WireFormat.SizeOf256IsPing`).
- `HashString_remove` never tests the second entry of a chain, and a search that reaches the end
  of a chain of two or more dereferences NULL (`HashTable.Table.Remove`,
  `ProcessTable.ProcessTable.Remove`; example `HashTable.RemoveOlderOfTwo`).
- The cache map of shared data is such a table. A process that unlinks data whose name is second
  in its chain dies with the table lock held, the share gone and the slot not cleared, and nobody
  reserves, links or unlinks any more (`SharedRuns.UnlinkCompletes`, `SharedRuns.CrashEndsSharing`;
  example `SharedExamples.OlderNameCrashes`). What holds of whole runs holds of runs with such
  deaths too.
- `HASH_STRING_ITER` stops at the first entry of the last bucket without visiting it, so a child in
  that bucket is not told to exit at shutdown (`HashTable.Table.Iterate`, `Server.Server.ExitsReach`;
  example `Server.ChildIsNotTold`).
- `wimp_server_wait_response` never looks at its timeout (`WaitResponse.WaitResponse`).
- Prepending swaps the mutexes of the two queues along with their contents
  (`InstrQueue.Queue.PrependQueue`). After waiting, the incoming queue has the mutexes of the
  temporary queue, and the temporary queue has the original ones, which are then freed.
- `sarena_init` leaves a used arena alone, so a slot that is reserved again keeps the old capacity
  and pointer (`SharedRuns.ReuseKeepsCapacity`; example `SharedExamples.SecondUseKeepsTen`); an
  allocation that ends exactly at the capacity is refused.
- Unlinking data that the process has not linked breaks the share counter
  (`SharedRuns.UnlinkNeedsHolder`; example `SharedExamples.StrangerBreaksCounter`).
- Tokens that do not contain a separator of several bytes may still be split elsewhere after
  joining (`SdsSplit.SplitIsTheSplit` has the condition, `SdsSplit.FreeTokensMaySplitElsewhere` an input).
- Outside quotes `sdssplitargs` ends an argument at blank, tab, newline and carriage return only,
  but skips vertical tab and form feed too in front of one.

## Model

| member | source | states |
|---|---|---|
| WireFormat.Bundle | wimp/src/wimp_server.c:271-315 | the bytes written are the frame of the instruction: size, three terminated names, argument size, arguments |
| WireFormat.GetFromBuffer | wimp/src/wimp_instruction.c:164-239 | the field offsets, sizes and the ping answer computed by the parser's scan loops, for any bytes; reading past the buffer is its own answer |
| WireFormat.MetaOfPointsAtFields | wimp/src/wimp_server.c:271-315 | the offsets and sizes a correct parser reports are those of the three names and the argument bytes in a frame |
| WireFormat.ParseInvertsBundle | wimp/src/wimp_instruction.c:164-239 | parsing a bundled instruction gives every field back if and only if the names are nonempty, the size is not a multiple of 256 and is below 2^31 |
| WireFormat.MultipleOf256IsPing | wimp/src/wimp_instruction.c:184-188 | a frame is taken for a ping exactly when its size is a multiple of 256 |
| WireFormat.SizeOf256IsPing | wimp/src/wimp_instruction.c:184-188 | an instruction with one-letter names and 242 argument bytes is one |
| StringPack.PackStrings | wimp/src/wimp_instruction.c:276-321 | the pack holds its size, its count, the offset of every string and every string with its terminator, zeros elsewhere |
| StringPack.GetStringOfPacked | wimp/src/wimp_instruction.c:323-329 | each packed string comes back by its index; an index beyond the count gives the first string; a negative one is outside the table |
| StringPack.RegionsAreDisjoint | wimp/src/wimp_instruction.c:307-316 | packed strings lie in disjoint stretches inside the block |
| StringPack.PackTravels | wimp/src/wimp_instruction.c:323-329 | a pack sent as the arguments of an instruction can be read by index where the parser says the arguments are |
| InstrQueue.Queue.AddExisting | wimp/src/wimp_instruction.c:74-90 | the node goes to the back; front and back pointers and links stay consistent |
| InstrQueue.Queue.Add | wimp/src/wimp_instruction.c:47-72 | a new node with the instruction goes to the back |
| InstrQueue.Queue.Pop | wimp/src/wimp_instruction.c:123-141 | the front node leaves the queue, NULL when it is empty |
| InstrQueue.Queue.AppendQueue | wimp/src/wimp_instruction.c:92-107 | the nodes of the other queue move to the back in order and that queue is empty; it ends because the other queue is used up |
| InstrQueue.Queue.PrependQueue | wimp/src/wimp_instruction.c:109-121 | the nodes of the other queue come in front, that queue is empty, and the mutexes are swapped |
| QueueRuns.RunAll | wimp/src/wimp_instruction.c:47-141 | after any run of adds, pops, moves of popped nodes, appends and prepends on queues that share nothing, every queue is in order, no node is shared, and the contents are those of the same run on plain sequences |
| PriorityLock.StepKeepsInv | wimp/src/wimp_instruction.c:21-45 | every mutex operation of every thread keeps each mutex owned exactly by the thread whose position says so |
| PriorityLock.MutualExclusion | wimp/src/wimp_instruction.c:21-45 | in every interleaving at most one thread holds the queue, and at most one low priority thread is past the low mutex |
| PriorityLock.NoDeadlock | wimp/src/wimp_instruction.c:21-45 | while some thread is not idle, some thread that is not idle can move |
| PriorityLock.EveryoneGetsThrough | wimp/src/wimp_instruction.c:21-45 | however they are scheduled, all threads that called get through, in exactly the number of operations they had left |
| PriorityLock.NobodyOvertakes | wimp/src/wimp_instruction.c:35-45 | while a thread holds the next mutex and waits for the queue, no other thread gets the queue |
| PriorityLock.NextMutexDecides | wimp/src/wimp_instruction.c:21-45 | whoever takes the next mutex first enters before every thread still in front of it, whatever the priorities |
| PriorityLock.HighWaitsInFront | wimp/src/wimp_instruction.c:21-45 | while a thread is in the critical section and nobody waits with the next mutex, a high priority thread can take it, and then enters before every other thread |
| Reciever.Connection.NextPacket | wimp/src/wimp_reciever.c:206-211 | the buffer holds the next packet and reading starts at its beginning |
| Reciever.Connection.ReadHeader | wimp/src/wimp_reciever.c:283-291 | the header is the next four bytes of the stream, packets being taken only when a byte of them is needed |
| Reciever.Connection.ReadData | wimp/src/wimp_reciever.c:321-339 | the instruction is its header and the next bytes of the stream, and reading goes on right behind them |
| Reciever.Connection.Recieve | wimp/src/wimp_reciever.c:213-366 | for arbitrary packets the frames queued and the way the run ends are those of the decoding function; the offset never passes the data and no instruction is half built at the loop head |
| Transport.ExitForFrame | wimp/src/wimp_reciever.c:341-347 | the comparison on the received bytes finds exactly the exits sent to this process |
| Transport.ItemArrived | wimp/src/wimp_reciever.c:259-359 | a whole ping or frame at the front of the stream is consumed exactly, wherever the packets are cut |
| Transport.PartArrived | wimp/src/wimp_reciever.c:283-339 | part of an item leaves the reciever waiting and queues nothing |
| Transport.Reassembly | wimp/src/wimp_reciever.c:213-366 | for every list of instructions and pings, every cutting into packets and every unfinished rest: exactly the instructions are queued, in order, up to and including the first exit sent to this process |
| Rounds.NamesOfFrame | wimp/src/wimp_reciever.c:343-347 | the name and destination read from a bundled instruction are those it was given |
| Rounds.SmallFrame | wimp/src/wimp_server.c:271-315 | a frame of one-letter names and one argument byte, byte by byte |
| Rounds.NamesAsCharacters | wimp/src/wimp_reciever.c:301-344 | the exit name and the ping header as characters |
| Rounds.AnyFrame | wimp/src/wimp_reciever.c:283-359 | any frame that states its own size is queued as it is and ends the reciever exactly for the name "exit" and this destination; one the parser does not get through is undefined |
| Rounds.ZeroHeaderDrops | wimp/src/wimp_reciever.c:295-300 | a zero header drops the rest of its packet, and reading goes on with the next packet |
| Rounds.BadSizeIsUndefined | wimp/src/wimp_reciever.c:301-309 | a size below four other than zero is undefined |
| HashTable.Table.Find | wimp/src/utility/HashString.c:267-279 | the entry of the key exactly when the map has it |
| HashTable.Table.Add | wimp/src/utility/HashString.c:300-359 | the map gains the key unless it has it; the entry goes to the front of its chain |
| HashTable.Table.Remove | wimp/src/utility/HashString.c:377-430 | a key of the map is removed, and only it, unless it is second in its chain, which is a NULL dereference; any other key is not found, or a NULL dereference in a chain of two or more |
| HashTable.RemoveOlderOfTwo | wimp/src/utility/HashString.c:405-414 | of two colliding keys the older one is not removed but dereferences NULL |
| HashTable.Table.FirstEntry | wimp/src/utility/HashString.c:446-451 | the head of the first bucket that is not empty |
| HashTable.Table.NextEntry | wimp/src/utility/HashString.c:468-489 | the next entry of the chain, or the head of the next bucket that is not empty; for NULL the end |
| HashTable.Table.Iterate | wimp/src/utility/HashString.h:104-108 | the entries of all buckets but the last, in order |
| HashTable.Table.BucketsHold | wimp/src/utility/HashString.c:446-489 | the first b buckets hold exactly the keys of the map that belong there, each once |
| HashTable.Table.IterationMissesLastBucket | wimp/src/utility/HashString.h:104-108 | a key is visited if and only if it is in the map and not in the last bucket, and once |
| ProcessTable.ProcessTable.Add | wimp/src/wimp_process_table.c:20-53 | a new process is in the table, inactive, with the data given; a known name is refused; the length stays the number of processes |
| ProcessTable.ProcessTable.Remove | wimp/src/wimp_process_table.c:55-78 | the exact outcome by the position in the chain, and what is left in the table; the data of a known process is freed in any case |
| ProcessTable.ProcessTable.Get | wimp/src/wimp_process_table.c:80-95 | the data of the process, failing without a name or an entry |
| Server.Server.Add | wimp/src/wimp_server.c:317-321 | the frame of the instruction goes to the back of the outgoing queue |
| Server.Server.SendFrame | wimp/src/wimp_server.c:410-424 | whatever each send takes, the stream grows by exactly the frame |
| Server.Server.FindHop | wimp/src/wimp_server.c:389-408 | the comparison and the two lookups find the hop of the destination in the frame |
| Server.Server.SendOne | wimp/src/wimp_server.c:389-426 | one frame goes whole to the one connection, or to the incoming queue, that the tables say, and nowhere else |
| Server.FramesForAre | wimp/src/wimp_server.c:380-432 | the frames sent for a hop are those of exactly the instructions that have it, by position, in order |
| Server.Server.SendInstructions | wimp/src/wimp_server.c:380-432 | the outgoing queue is emptied; each connection's stream grows by the frames at exactly the positions whose destination leads over it, whole and in order, and the incoming queue by those for this process |
| Server.HopIsRoutingHop | wimp/src/wimp_server.c:391-408 | the server's choice is the hop of the routing tree |
| Server.Server.InstrRouted | wimp/src/wimp_server.c:369-378 | a node for another process goes to the back of the outgoing queue, and only such a node |
| Server.Server.QueueExits | wimp/src/wimp_server.c:452-460 | the outgoing queue gains one exit for each child that iteration visits, in order |
| Server.Server.ExitsAre | wimp/src/wimp_server.c:454-460 | the exits are those for exactly the children among the visited entries, in the order of the visit |
| Server.Server.ExitsReach | wimp/src/wimp_server.c:452-460 | exactly one exit is queued for a child outside the last bucket, and none for any other name |
| Server.ChildIsNotTold | wimp/src/wimp_server.c:452-460 | a child in the last bucket for which none is queued |
| EndToEnd.SentIsRecieved | wimp/src/wimp_server.c:410-424 | however the stream of a connection is cut into packets, the other side queues exactly the frames sent over it, in order, up to the first exit addressed to it |
| WaitResponse.NameIsTerminated | wimp/src/wimp_instruction.c:215-231 | in every buffer the parser gets through, the instruction name ends inside the buffer |
| WaitResponse.DecodedIsReadable | wimp/src/wimp_reciever.c:341-351 | whatever the packets, the parser gets through every instruction a reciever queues |
| WaitResponse.Scan | wimp/src/wimp_server.c:332-358 | one pass stops at the first node that matches or is an exit; the nodes before it are on the temporary queue in order |
| WaitResponse.Recombine | wimp/src/wimp_server.c:361-364 | the skipped nodes come back in front, so that every node but the stopping one is in arrival order |
| WaitResponse.WaitResponse | wimp/src/wimp_server.c:323-367 | whatever arrives between passes: the first matching node in arrival order unless an exit precedes it; that node is no longer on the queue, and all other nodes are, in their order |
| Routing.Net.HopDescends | wimp/src/wimp_server.c:391-405 | a hop that does not reach the destination goes to the parent, one step nearer to the root |
| Routing.Journey | wimp/src/wimp_server.c:369-405 | forwarding stops after at most depth+1 hops, and delivers nowhere but at the destination |
| Routing.DeliveredExactly | wimp/src/wimp_server.c:389-408 | delivered if and only if the first process among source and ancestors that knows the destination has it active and all before it can reach their parents; one hop more than ancestors asked |
| Routing.DeliveredIffKnown | wimp/src/wimp_server.c:389-408 | with all links active: delivered if and only if the source or some ancestor has the destination in its table, otherwise dropped at the root |
| Network.StepKeepsPlaced | wimp/src/wimp_server.c:369-432 | every step keeps every instruction on the route from its source |
| Network.StepBalances | wimp/src/wimp_server.c:317-432 | every step of any process keeps, for each source and destination, arrived plus under way equal to added |
| Network.InOrderDelivery | wimp/src/wimp_server.c:317-432 | after every run, for each source and destination: what arrived followed by what is under way is exactly what was added, in order; all of it once nothing is under way; nothing arrives without a route |
| NetworkProgress.RunIsBounded | wimp/src/wimp_server.c:369-432 | however it is scheduled, a run without new instructions has at most as many steps as the ranks of the instructions under way allow |
| NetworkProgress.StepsPerInstruction | wimp/src/wimp_server.c:369-432 | however instructions are added, sent, recieved and taken, there are at most 3 * depth + 4 steps for each one added |
| NetworkProgress.NoMoveIsQuiet | wimp/src/wimp_server.c:369-432 | when no step is possible, nothing is under way if and only if nothing is stranded on a connection whose reciever has ended |
| NetworkProgress.CanFinish | wimp/src/wimp_server.c:369-432 | from anywhere some steps lead to where none is possible |
| NetworkProgress.CanBeDelivered | wimp/src/wimp_server.c:317-432 | an instruction whose route leads to its destination, and which is no exit, is handed over there in some run |
| NetworkProgress.EverythingArrives | wimp/src/wimp_server.c:317-432 | after any run and any further steps without new instructions, once none is possible and nothing is stranded, everything added has arrived, in order |
| NetworkEnds.RecievesUntilExit | wimp/src/wimp_reciever.c:228-347 | after any run, a connection can be recieved from if and only if something is on it and no step has taken an exit for the process from it |
| NetworkEnds.NothingBehindExit | wimp/src/wimp_reciever.c:343-347 | nothing behind an exit for the process is ever recieved from the connection |
| SimpleArena.SArena.InitWith | wimp/src/utility/simple_arena.c:20-31 | refuses an arena that has a capacity or data and leaves it as it is; otherwise it has the capacity and data given |
| SimpleArena.SArena.AllocBytes | wimp/src/utility/simple_arena.c:51-64 | wrap-around, failed assertion, refusal at the exact end, or the old pointer |
| SimpleArena.AllocAnswers | wimp/src/utility/simple_arena.c:51-64 | an allocation that does not wrap around succeeds at the old pointer exactly when it ends before the capacity, is refused at it and fails the assertion beyond it; pointer and size grow by it |
| SimpleArena.InitThenAlloc | wimp/src/utility/simple_arena.c:20-64 | a new arena has the capacity and data given and serves from its beginning what is smaller than the capacity; a used one stays |
| SimpleArena.AllocContinues | wimp/src/utility/simple_arena.c:51-64 | an allocation that does not wrap around lies behind all earlier ones and ends in front of the capacity |
| SimpleArena.PackedDisjoint | wimp/src/utility/simple_arena.c:51-64 | allocations never overlap |
| SharedData.Process.DataReserve | wimp/src/wimp_data.c:184-239 | the first free slot is taken and linked, or the table is full, or the name is copied over what lies behind the slot |
| SharedData.Process.DataLink | wimp/src/wimp_data.c:241-285 | the live slot of the name gains a share, unless there is none or it is linked already |
| SharedData.Process.DataUnlink | wimp/src/wimp_data.c:287-325 | the live slot of the name loses a share; the name leaves the cache map and the slot is cleared, except for its arena, with the last share, or the process dies removing the name |
| SharedData.Process.DataAccess | wimp/src/wimp_data.c:327-363 | a copy of the arena of the slot that the cache map names, or failure |
| SharedData.Process.DataStopAccess | wimp/src/wimp_data.c:365-385 | the copy goes back to the table without its data pointer |
| SharedEffects.LinkAnswers | wimp/src/wimp_data.c:248-285 | linking fails exactly when no live slot has the name or the process has linked it, and then changes nothing |
| SharedEffects.LinkLinks | wimp/src/wimp_data.c:254-279 | otherwise the counter of the slot is one more, the process has it and finds it by name, and everything else stays |
| SharedEffects.ReserveAnswers | wimp/src/wimp_data.c:191-238 | reserving fails exactly when no slot is free, changing nothing; a name of 64 bytes or more overruns the slot |
| SharedEffects.ReserveReserves | wimp/src/wimp_data.c:191-235 | otherwise the first free slot has the name and size and one share, the process has it and finds it by name, and everything else stays |
| SharedEffects.UnlinkAnswers | wimp/src/wimp_data.c:293-325 | unlinking finds nothing exactly when no live slot has the name, and then changes nothing |
| SharedEffects.UnlinkUnlinks | wimp/src/wimp_data.c:301-321 | otherwise, for a process that has it and lives, the slot has one share less or is cleared but for its arena, the process no longer has it, and everything else stays |
| SharedEffects.AccessAnswers | wimp/src/wimp_data.c:327-363 | access fails exactly when the process has linked no slot of the name; otherwise it gives the arena of that slot with its data pointer set |
| SharedEffects.StopAccessWrites | wimp/src/wimp_data.c:365-385 | the arena goes back to that slot without its data pointer, and nothing else changes |
| SharedEffects.OneSession | wimp/src/wimp_data.c:327-385 | a process that has a slot linked which nobody has open can open it, allocate what fits and close it; the allocation is the next stretch, and nothing else changes |
| SharedRuns.UnlinkCompletes | wimp/src/wimp_data.c:301-318 | for a process that has the slot linked, unlinking completes if and only if the name is not second in its chain of the cache map; what a crash leaves behind |
| SharedRuns.CrashEndsSharing | wimp/src/wimp_data.c:293-294 | after a crash no slot is reserved, linked or unlinked again |
| SharedExamples.OlderNameCrashes | wimp/src/wimp_data.c:301-318 | two reserved names in one bucket, of which the older one is unlinked |
| SharedRuns.StepKeepsInv | wimp/src/wimp_data.c:184-385 | every operation of every process keeps counters, names, caches, sessions and arenas consistent |
| SharedRuns.RunKeepsInv | wimp/src/wimp_data.c:184-385 | so does every interleaving of many processes |
| SharedRuns.CountersCountHolders | wimp/src/wimp_data.c:184-325 | after every run each share counter is the number of processes that have the slot linked |
| SharedRuns.FreeIsUnlinked | wimp/src/wimp_data.c:191-194 | no process has a free slot linked or open, so no linked slot is handed out again |
| SharedRuns.AllocationsDisjoint | wimp/src/wimp_data.c:327-385 | allocations made in different sessions never overlap nor pass the capacity, which on first use is the reserved size |
| SharedEffects.UsesAreReservations | wimp/src/wimp_data.c:191-235 | a slot has been used as often as it was reserved in the run |
| SharedEffects.FirstUseFits | wimp/src/wimp_data.c:184-385 | when a slot was reserved once, all its allocations lie within the size it was reserved with |
| SharedEffects.SizeIsTotal | wimp/src/utility/simple_arena.c:51-64 | after any run the size and the pointer of an arena are the bytes handed out |
| SharedEffects.OthersKeepTheirs | wimp/src/wimp_data.c:184-385 | a step of one process leaves what the others have linked alone |
| SharedRuns.UnlinkNeedsHolder | wimp/src/wimp_data.c:287-325 | the share counter stays right if and only if the process that unlinks has the slot linked |
| SharedExamples.StrangerBreaksCounter | wimp/src/wimp_data.c:287-325 | one process reserves, another unlinks: the counter is zero, the slot is handed out again and is still linked |
| SharedRuns.ReuseKeepsCapacity | wimp/src/wimp_data.c:220-228 | a slot reserved again has the capacity asked for if and only if it had none before or the same one, and keeps its old pointer |
| SharedExamples.SecondUseKeepsTen | wimp/src/wimp_data.c:220-228 | a slot reserved with 10 bytes, released and reserved with 20 has a capacity of 10 |
| Sds.ReqType | wimp/src/utility/sds.c:60-75 | the smallest header type that can hold the size |
| Sds.Sds.constructor | wimp/src/utility/sds.c:89-145 | the string holds the bytes given, or zeros, in the right header, an empty one never in type 5 |
| SdsHeader.NewReadsBack | wimp/src/utility/sds.c:105-139 | length and allocation written to a new header of any type are read back, modulo what the type can hold |
| SdsHeader.LenReadsBack | wimp/src/utility/sds.h:109-198 | the length set or increased in the bytes of a header is what is read back, modulo what the type can hold; type and allocation stay |
| SdsHeader.AllocReadsBack | wimp/src/utility/sds.h:202-238 | so is the allocation; in type 5, which has none, it is the length |
| SdsHeader.HeaderBytes | wimp/src/utility/sds.h:64-98 | the bytes of a header of each type: length, allocation and type, or length and type in one byte |
| SdsHeader.LenBytesOnly | wimp/src/utility/sds.h:152-174 | setting the length changes nothing but the bytes it is stored in |
| Sds.Sds.MakeRoomFor | wimp/src/utility/sds.c:204-246 | the room is there, content and terminator survive the change of header, nothing moves if there was room |
| Sds.Sds.RemoveFreeSpace | wimp/src/utility/sds.c:256-291 | the content survives and no free space is left |
| Sds.Sds.CatLen | wimp/src/utility/sds.c:398-407 | the bytes are appended |
| Sds.Sds.CpyLen | wimp/src/utility/sds.c:427-436 | the bytes become the content |
| Sds.Sds.GrowZero | wimp/src/utility/sds.c:380-391 | zeros are appended up to the length |
| Sds.Sds.Clear | wimp/src/utility/sds.c:193-196 | the content is empty and the buffer stays |
| Sds.RoomIsProvided | wimp/src/utility/sds.c:204-246 | the room asked for is provided and the header can remember it |
| Sds.TightIsOk | wimp/src/utility/sds.c:256-291 | trimming keeps the content in a header that can hold it, whichever of the two branches is taken |
| Sds.RunIsPlain | wimp/src/utility/sds.c:89-436 | any run of operations does to the content what it does to a plain byte sequence; length at most allocation, allocation within the header |
| Sds.RunFromNew | wimp/src/utility/sds.c:89-436 | the same from the creation of the string on, with the bytes it was created with, in the smallest type that fits, or type 8 for none |
| Sds.GrowingIsExact | wimp/src/utility/sds.c:204-246 | a string with room keeps its buffer; otherwise the content moves once, and the slack is the length asked for, or MAX_PREALLOC from there on, in the smallest type but type 5 that fits |
| Sds.TrimmingIsExact | wimp/src/utility/sds.c:256-291 | trimming moves the content once; lengths below 256 get the type of their size, larger ones keep their type |
| Sds.RequestsDouble | wimp/src/utility/sds.c:212-219 | a reallocation happens exactly when more than twice the last requested length is needed |
| Sds.BuildingIsLinear | wimp/src/utility/sds.c:212-246 | building n bytes by appends of any sizes moves fewer than 2n bytes |
| Sds.LargeStringsReallocateRarely | wimp/src/utility/sds.c:212-246 | from MAX_PREALLOC on, appends reallocate at most once in more than MAX_PREALLOC appended bytes |
| SdsNumber.DecimalIsTheNumeral | wimp/src/utility/sds.c:450-520 | what is written is the one numeral with no leading zero whose value is the integer |
| SdsNumber.DigitsAreCharacters | wimp/src/utility/sds.c:469-475 | the digits are the characters "0" to "9", and "-" stands in front of a negative number |
| SdsNumber.DecimalLength | wimp/src/utility/sds.c:450-450 | at most 20 characters for the whole 64-bit range, sign included |
| SdsNumber.Ll2Str | wimp/src/utility/sds.c:451-491 | writes the numeral and its terminator, LLONG_MIN included |
| SdsNumber.Ull2Str | wimp/src/utility/sds.c:494-520 | writes the numeral and its terminator |
| SdsNumber.WriteDigits | wimp/src/utility/sds.c:469-474 | the digits come out last first |
| SdsNumber.ReverseInPlace | wimp/src/utility/sds.c:481-489 | the characters are turned around and nothing behind them changes |
| SdsFormat.CatFmt | wimp/src/utility/sds.c:616-709 | appends what the format says for its arguments; the write index is the length and there is room for every write |
| SdsFormat.FormatSays | wimp/src/utility/sds.c:626-703 | a format says what its pieces say: literals and unknown specifiers their character, specifiers their argument in order, a lone percent sign at the end nothing |
| SdsFormat.EveryFormatHasPieces | wimp/src/utility/sds.c:626-703 | every format with matching arguments is made of such pieces, arguments left over included |
| SdsFormat.EscapedIsVerbatim | wimp/src/utility/sds.c:635-637 | text with doubled percent signs comes out as it was, and a lone percent sign at the end as nothing |
| SdsFormat.TextIsAppended | wimp/src/utility/sds.c:645-655 | "%s" appends a C string and "%S" any bytes, and then what the rest of the format says |
| SdsFormat.NumeralIsAppended | wimp/src/utility/sds.c:657-689 | "%i", "%I", "%u" and "%U" append the decimal numeral of an integer of their C type |
| SdsFormat.CharacterIsAppended | wimp/src/utility/sds.c:691-701 | a percent sign in front of any other character appends that character; so does a character without one |
| SdsFormat.NothingIsAppended | wimp/src/utility/sds.c:642-643 | the end of a format and a percent sign there append nothing |
| SdsSplit.SplitLen | wimp/src/utility/sds.c:835-872 | NULL exactly for an empty string or separator, otherwise the tokens; the slot array always has room for the last one |
| SdsSplit.JoinSds | wimp/src/utility/sds.c:1120-1129 | the strings with the separator in between |
| SdsSplit.JoinConcat | wimp/src/utility/sds.c:1120-1129 | nothing joins to nothing, one string to itself, and two joins like two strings |
| SdsSplit.JoinOfSplit | wimp/src/utility/sds.c:835-872 | joining the tokens gives the bytes back |
| SdsSplit.TokensAreFree | wimp/src/utility/sds.c:846-862 | no token contains the separator |
| SdsSplit.SplitIsTheSplit | wimp/src/utility/sds.c:835-872 | tokens are the split of their join if and only if every separator in the join is the leftmost one |
| SdsSplit.OneByteRoundTrip | wimp/src/utility/sds.c:835-872 | for a separator of one byte: if and only if no token contains it |
| SdsSplit.FreeTokensMaySplitElsewhere | wimp/src/utility/sds.c:846-862 | an input where tokens without the separator are split elsewhere |
| SdsArgs.SplitArgs | wimp/src/utility/sds.c:973-1081 | arguments and count, or NULL and 0, as the scanning function says; no read behind the terminator |
| SdsArgs.GetToken | wimp/src/utility/sds.c:987-1060 | one token, and where the rest begins |
| SdsGrammar.NextIsItem | wimp/src/utility/sds.c:995-1057 | one turn of the token loop reads a written item as the byte it stands for |
| SdsGrammar.EveryLineFits | wimp/src/utility/sds.c:954-972 | every line has a derivation in the grammar, with or without a fault |
| SdsGrammar.LineMeans | wimp/src/utility/sds.c:973-1081 | the splitter gives the meaning of any derivation of the line |
| SdsGrammar.SplitterAgrees | wimp/src/utility/sds.c:954-1081 | arguments exactly as the grammar gives them, and NULL if and only if a quote is left open or closing quotes are followed by a non-space |
| SdsEscapes.HexEscapeIs | wimp/src/utility/sds.c:932-1000 | a hexadecimal escape in double quotes is the byte 16 * i + j for digits at positions i and j in either case |
| SdsEscapes.NoHexEscape | wimp/src/utility/sds.c:991-1013 | without two such digits the x stands for itself |
| SdsEscapes.EscapeIs | wimp/src/utility/sds.c:1001-1013 | behind a backslash in double quotes five letters stand for control characters, every other byte for itself |
| SdsEscapes.PlainInDouble | wimp/src/utility/sds.c:1022-1024 | every other byte in double quotes stands for itself |
| SdsEscapes.InSingleQuotes | wimp/src/utility/sds.c:1025-1039 | in single quotes only the apostrophe is escaped |
| SdsEscapes.WordIsArgument | wimp/src/utility/sds.c:1040-1060 | a word outside quotes is an argument, ended by blank, tab, newline, carriage return or the end |
| SdsEscapes.FrontIsSkipped | wimp/src/utility/sds.c:981-982 | in front of an argument exactly six bytes are skipped |
| SdsEscapes.BehindQuotes | wimp/src/utility/sds.c:1014-1018 | behind a closing quote exactly these six bytes may follow |
| SdsRepr.CatRepr | wimp/src/utility/sds.c:898-921 | appends the quoted, escaped bytes |
| SdsRepr.ByteIsWritten | wimp/src/utility/sds.c:898-921 | how each of the 256 bytes is written |
| SdsRepr.PlainTextIsPlain | wimp/src/utility/sds.c:911-913 | printable text without quotes and backslashes is written as it is, between quotes |
| SdsRepr.RoundTrip | wimp/src/utility/sds.c:898-1081 | any list of byte strings, written, joined with any blanks and split, comes back |
| SdsRepr.JoinIsLine | wimp/src/utility/sds.c:898-921 | what is written is a C string, so the splitter accepts it |

## Left out

- Sockets, threads, shared memory and mutexes themselves: packets are nonempty and at most 512 bytes, a send takes at least one byte, a mutex has one owner; socket errors, empty receives and a connection closed inside a frame do not occur.
- Allocation failure, and sizes at which `size_t` arithmetic in the strings would wrap around.
- Connection setup, accepting, handshakes, retries, process launching, logging and colours.
- Network.InOrderDelivery: the processes, their tables and active flags are fixed, and no process adds instructions for itself.
- Server.Server.SendOne: the frame is one that the parser understands.
- Server.Server.SendInstructions: a frame for the process itself is put on the incoming queue with its bytes; the code frees the buffer right afterwards, so nothing is claimed about who owns it. The instructions on the queue are ones the parser understands.
- Transport.Reassembly: instructions that the parser misreads, or whose size is the ping constant, are not in the stream; `WireFormat.ParseInvertsBundle` says which ones the former are.
- WaitResponse.WaitResponse: the mutex operations around each pass are not part of it (the lock is proved on its own), and when nothing ever matches the method ends with the batches, where the code goes on waiting. The parser gets through every instruction on the queue, as `WaitResponse.DecodedIsReadable` says of those that arrive.
- PriorityLock.EveryoneGetsThrough: says nothing about fairness between threads that keep calling.
- HashTable.Table.Find: the hash is any function; the Murmur variant and the spread of keys are not modelled.
- SharedData.Process.DataReserve: after a name of 64 bytes or more was copied over what lies behind the slot, nothing is said of the table.
- SharedRuns.StepKeepsInv: reserved names are shorter than 64 bytes and distinct while live, a process unlinks only what it has linked and does not access, and an allocation does not wrap around; `wimp_data_unlink_from_process`, `wimp_data_free` and the sizes of shared memory blocks are not modelled. A dead process still counts as having linked what it had.
- SdsSplit.SplitLen: tokens are byte sequences rather than string objects of their own.
- SdsArgs.SplitArgs: bytes of 128 and above are neither blanks nor printable, as in the ASCII reading of `isspace` and `isprint`; the code passes them a plain `char`. The token under construction and the vector are sequences; appending to a string object is proved in `Sds.Sds.CatLen`.
- SdsFormat.CatFmt: the arguments have the types their specifiers name, and a string is not formatted into itself.
- `SDS_NOINIT`, `sdsIncrLen`, `sdsupdatelen`, the printf wrappers, case conversion, `sdstrim`, `sdsrange`, `sdscmp` and `sdsmapchars`: they would add only easy members.
- `wimp_instr_queue_free` and `wimp_instr_get_instruction_count`: plain walks over the queue.
