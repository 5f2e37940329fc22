# Small systems programs, modelled and proved

Models of the protocol, heap and parsing logic of seven small C programs, with proofs about them in
Dafny 4.11. `dafny verify dfyconfig.toml` checks everything; nothing is executed.

| Files | Program | What is proved |
|---|---|---|
| `LinkedList.dfy`, `ContactOrder.dfy`, `Phonebook.dfy` | 03, phonebook | The list is a ring of distinct nodes under every operation; insertion is a stable sort by last name; ids, size, lookup, removal, dump and load. |
| `CommandLine.dfy`, `Pipeline.dfy` | 04, shell | Two nested strtok scans in one buffer read the line as it was; parsing undoes printing; descriptors of a pipeline of any length. |
| `ChatText.dfy`, `ChatServer.dfy`, `Chat.dfy` | 06, chat over one message queue | Every client reads what it should, in order, over every interleaving; the server acts on everything once, in order. |
| `RecordText.dfy`, `RecordFile.dfy` | 09, writer and readers of a record file | Semaphore invariants for any number of readers; histories are prefixes; the text record round trip up to the boundary lengths. |
| `Exchange.dfy` | 10, one-slot exchange | Conservation laws of a slot that can be overwritten unread; what the reported minimum and maximum are. |
| `DriverRoutine.dfy`, `Dispatch.dfy` | cross2, master and drivers | One reply per request, availability and the one-shot timer, accounting of tasks. |
| `FileTransfer.dfy`, `Sessions.dfy`, `SessionServer.dfy` | 13 and 15, file and arithmetic server | The event-driven receiver against the blocking loop; sessions do not interfere. |
| `CStrings.dfy`, `Cutting.dfy`, `Sequences.dfy` | C library and helpers | strtok, strtol, NUL-terminated strings, decimal text. |

How the models are built:

* Code that changes things in place is imperative here as well: classes with fields and arrays,
  loops with invariants, each method proved against a specification function or an outright property.
* Processes that run side by side are step systems: a state, the steps a process can take next, and
  `Exec`, which runs any interleaving of them. Every result quantifies over all interleavings.
  Histories in a state (what was written, read, said) are not seen by the steps.
* System calls are steps on an abstract state: a semaphore is a number, a pipe or queue a sequence, a
  process's open files a map, a directory a set of names, a one-shot timer one of three values. What
  a call brings in (a random number, the bytes of a read) is a parameter.

Where the code does less than it seems to promise, the code is modelled, the exact condition is
proved, and a run or input that fails is given:

* the reported maximum (`Exchange.WhatIsReported`, `Exchange.ReportedMaximumCanBeWrong`);
* a shutdown sent before its handshake was served, which has no effect (`Chat.ShutdownCounts`,
  `Chat.ShutdownOvertakesHandshake`);
* a task of zero seconds, after which a driver is busy for good (`Dispatch.AvailableIffTimerOff`,
  `Dispatch.NoTimeRun`);
* a record text of exactly 1024 characters, whose NUL is written behind the buffer
  (`RecordText.BuildRecord`, `RecordText.RecordCanBeFull`);
* uploads of the same name by different clients (`SessionServer.NoInterference`,
  `SessionServer.SecondIsTurnedAway`);
* numbers sent without an end, which whatever lies behind the message in the buffer continues
  (`Sessions.NumberIsSettled`, `Sessions.StaleDigitsCount`), and empty reads (`Sessions.WhenCertain`).

Exact conditions are proved also for a file announced as empty (`Sessions.WritesLikeBlockingLoop`),
the removal of a client that is not in the last slot (`SessionServer.RemovesTheRightClient`) and the
size of a store after removing a contact that is not there
(`Phonebook.ContactStorage.RemoveContact`). Loading reports failure whenever it reaches the end of
the file (`Phonebook.ContactStorage.LoadData`).

## Model

| member | source | states |
|---|---|---|
| CStrings.Scanner.Next | 09/reader.c:86-102 | One strtok call (section 7.24.5.8 of ISO C11): delivers exactly the next token of what is left to scan, ends it with a NUL, and writes nowhere else. |
| CStrings.StrtolOfDec | 09/reader.c:90-92 | strtol (section 7.22.1.4 of ISO C11) reads back a number printed with %d, whatever follows, and says where it stopped. |
| CStrings.StrtolIs | 09/reader.c:90-92 | strtol on any text: behind white space and a plus, a minus or no sign, digits give the number they denote, cut off at the limits of a long, and it stops behind the last digit. |
| CStrings.StrtolOfNothing | 09/reader.c:90-92 | Without a digit there it gives 0 and stops at the start. |
| RecordText.BuildRecord | 09/writer.c:112-129 | The record is the text of the longest prefix of the batch that fits 1024 bytes, then NULs, with a newline as its very last byte; the byte behind the buffer, whatever it was, is overwritten with NUL if and only if the text is exactly 1024 long. |
| RecordText.RecordCanBeFull | 09/writer.c:113-127 | There is a batch of a size the writer draws for which that happens. |
| RecordText.KeptIsTheOnlyFit | 09/writer.c:117-127 | The number of numbers kept is the only length of a longest fitting prefix, so stopping at the first that does not fit is right. |
| RecordText.Strncat | 09/writer.c:125-126 | The string and a NUL replace what was at the old end of the buffer's text; everything else stays. |
| RecordText.StrncpyS | 09/shared.c:3-7 | The destination holds the source's string up to its first NUL, NULs behind it, and a NUL in the last byte in any case. |
| RecordText.Consider | 09/reader.c:91-100 | A token changes minimum and maximum only if strtol consumes all of it. |
| RecordText.ScanMinMax | 09/reader.c:86-102 | The strtok loop visits exactly the tokens of the buffer, in order, while it cuts the buffer up. |
| RecordText.GetMinMax | 09/reader.c:83-105 | The loop returns what folding the tokens of the copied record gives. |
| RecordText.CopyOfRecord | 09/reader.c:83-86 | The reader's copy of a record is its text, without the last character exactly if the text fills all 1024 bytes. |
| RecordText.TokensOfRecord | 09/reader.c:85-102 | Copying and splitting a record gives back exactly the numbers printed into it, also at lengths 1023 and 1024. |
| RecordText.MinMaxOfWords | 09/reader.c:87-100 | The loop computes the least and the greatest of its starting values and the numbers. |
| RecordText.RoundTrip | 09/reader.c:83-105 | Of any batch the reader reports the minimum and the maximum of the numbers that fitted, and there is always at least one. |
| RecordFile.CountedStep | 09/writer.c:131-155 | Every step of writer or reader keeps the counting invariants of all three semaphores. |
| RecordFile.StoredStep | 09/reader.c:119-139 | Every step keeps the file a sequence of whole records and every reader's records its first ones. |
| RecordFile.HistoriesArePrefixes | 09/reader.c:107-141 | After any interleaving with any number of readers, each has read the first records of the file, whole and in order, and all reads together never outnumber the writes. |
| RecordFile.NoShortRead | 09/reader.c:109-139 | No read that passed `full` finds the file short. |
| RecordFile.TokensConserved | 09/writer.c:131-155 | `mutex` plus processes inside is 1; `empty` plus `full` plus processes in between is 1000; readers lag by at most 1000 records. |
| RecordFile.MutualExclusion | 09/writer.c:141-150 | Two processes are never in the critical section at once. |
| RecordFile.MutexHolderCanMove | 09/reader.c:119-128 | Whoever waits for the mutex waits for a process whose next step is possible. |
| RecordFile.NoDeadlock | 09/reader.c:107-141 | As long as there is a reader, the writer and the readers never all wait for each other. |
| RecordFile.RecordIsWritten | 09/reader.c:119-139 | In a file that held m whole records when the writer, which appends, opened it, a reader's record m + k is the writer's k-th. |
| RecordFile.ReportsAreTrue | 09/reader.c:143-165 | So what a reader prints for its record m + k is the minimum and maximum of the numbers kept of the writer's k-th batch; for a file that was empty, m is 0. |
| ContactOrder.SetValue | 03/phonebook.c:130-133 | The field always ends in NUL and reads back as the value, cut to 63 characters. |
| ContactOrder.StrcmpEqual | 03/phonebook.c:88-90 | strcmp of two fields is zero exactly if their strings are equal, whatever lies behind the NULs. |
| ContactOrder.StrcmpFlip | 03/phonebook.c:88-90 | Swapping the arguments negates the result. |
| ContactOrder.StrcmpTransitive | 03/phonebook.c:88-90 | The order is transitive, strictly if either comparison is strict: with the two above, a total preorder. |
| ContactOrder.StrcmpIsDictionaryOrder | 03/phonebook.c:88-90 | It is negative exactly if the first string comes before the second in dictionary order: it ends, or has the smaller character, where the two first differ. |
| ContactOrder.SortedIsAlphabetical | 03/phonebook.c:88-105 | A list is sorted exactly if no later last name comes before an earlier one in that order. |
| ContactOrder.Position | 03/linked_list.c:58-74 | The place is the first whose element the new one compares below, or the end. |
| ContactOrder.InsertSorted | 03/linked_list.c:46-77 | Inserting into a sorted list keeps it sorted. |
| ContactOrder.InsertKeepsNamesakes | 03/linked_list.c:64-74 | A new contact goes behind every contact with an equal last name and changes no other name's order. |
| ContactOrder.InsertAllIsStableSort | 03/phonebook.c:92-105 | Inserting one after another into an empty list gives a permutation from A to Z, with equal names in insertion order. |
| ContactOrder.StableSortIsUnique | 03/phonebook.c:92-105 | Only one list is that. |
| ContactOrder.InsertAllOfSorted | 03/phonebook.c:41-67 | A sorted list inserted again comes back unchanged. |
| ContactOrder.InsertAllByDefault | 03/linked_list.c:21-28 | With the default comparison the list is the inputs reversed. |
| LinkedList.ListNode.constructor | 03/linked_list.c:30-36 | A new node is linked to itself. |
| LinkedList.InsertBetween | 03/linked_list.c:38-44 | Linking a node between two neighbours of a ring gives the ring with that node at that place. |
| LinkedList.List.constructor | 03/linked_list.c:23-28 | A new list is an empty ring. |
| LinkedList.List.FindPlace | 03/linked_list.c:64-72 | The do-while walk stops at the first node the new value compares below, or has gone round. |
| LinkedList.List.Insert | 03/linked_list.c:46-77 | The ring stays well formed and its values become s[..k]+[v]+s[k..], k being the first place v compares below. |
| LinkedList.Unlink | 03/linked_list.c:87-95 | Joining a node's neighbours gives the ring without it. |
| LinkedList.List.RemoveNode | 03/linked_list.c:79-99 | Exactly that position goes; the head moves if it was the head, and becomes null if it was the only node. |
| LinkedList.List.WalkStep | 03/linked_list.c:107-114 | One round of the removing walk takes out the current node exactly if it holds the value and moves on, also when the head moves. |
| LinkedList.List.RemoveValue | 03/linked_list.c:101-117 | The walk ends and the ring stays well formed; what it removes is the specification's `Removed`; it returns 1 whenever there was a list to walk, removed or not. |
| LinkedList.RemovedOfDistinct | 03/linked_list.c:106-114 | Of distinct values `Removed` takes out the one occurrence, if there is one, and keeps the order. |
| LinkedList.RemovedIsComplete | 03/linked_list.c:106-114 | Exactly when the walk removes every occurrence: the exit test against a head that has moved can end it early. |
| LinkedList.ListIterator.constructor | 03/linked_list.c:119-129 | An iterator starts at the head, or nowhere without a list. |
| LinkedList.ListIterator.HasNext | 03/linked_list.c:155-161 | Whether there is a current node. |
| LinkedList.ListIterator.Next | 03/linked_list.c:139-153 | Delivers the value at its position and moves on; it is over exactly after the last. |
| LinkedList.ListIterator.RemoveCurrent | 03/linked_list.c:165-181 | Exactly the current position is removed and its value delivered; the iterator stands on the node behind it. |
| Phonebook.ContactStorage.constructor | 03/phonebook.c:15-21 | A new store is empty and its first id is 1. |
| Phonebook.ContactStorage.AddContact | 03/phonebook.c:92-105 | The contact gets the next id and goes where its last name belongs; size and ids stay right, and a store in order runs from A to Z afterwards. |
| Phonebook.ContactStorage.RemoveContact | 03/phonebook.c:107-112 | The contact goes, ids stay distinct and a sorted store sorted; the size stays right if and only if the contact was there or the store was empty. |
| Phonebook.ContactStorage.GetContact | 03/phonebook.c:114-128 | Returns the unique contact with that id, and nothing if and only if there is none. |
| Phonebook.ContactStorage.DumpData | 03/phonebook.c:69-86 | The file gets one record for every contact, in list order. |
| Phonebook.ContactStorage.LoadData | 03/phonebook.c:41-67 | Every whole record becomes a new contact in order, and a sorted store stays sorted; the result is false even so, since the end shows as a short read. |
| Phonebook.ContactStorage.DeleteStorage | 03/phonebook.c:23-39 | Every contact is released exactly once, in list order, and the ring ends empty. |
| Phonebook.ReleaseAll | 03/phonebook.c:29-34 | Removing at the front while iterating ends, with everything released in order. |
| Phonebook.LoadSorts | 03/phonebook.c:41-67 | Adding records one after another to an empty store, in any order, leaves their stable sort; so does loading an unsorted file. |
| Phonebook.LoadSorted | 03/phonebook.c:41-67 | Loading a sorted file only ever appends. |
| Phonebook.Reload | 03/phonebook.c:41-86 | From one store to another through a dump: the new store always holds the stable sort of the old one, from A to Z, and of a store in order the same contacts in the same order, numbered 1 to n. |
| Pipeline.Process.Pipe | 04/main.c:134-137 | Two descriptors not in use become the ends of a new pipe. |
| Pipeline.Process.ConnectPipes | 04/main.c:66-75 | The child's streams become the neighbouring pipe ends and every other pipe end is closed. |
| Pipeline.Process.Redirect | 04/main.c:77-98 | Redirections replace the streams and leave no other descriptor open. |
| Pipeline.Process.Execute | 04/main.c:55-106 | The child reaches execvp with each stream on the file its command names, an output opened for appending exactly if the command says so, else on the pipe of that side, else on what the shell has; everything else it has open is the shell's. |
| Pipeline.Process.Run | 04/main.c:118-152 | For a pipeline of any length every child starts so, and the shell ends with the descriptor table it began with. |
| Pipeline.FilesAreRedirections | 04/main.c:77-98 | Of such a child's descriptors only its standard input can be a file to read and only its standard output one to write, and each is exactly if its command redirects it. |
| Pipeline.NoStrayEnds | 04/main.c:65-98 | Which descriptor of which child is an end of which pipe, in both directions: no stray ends. |
| Pipeline.PipesConnectNeighbours | 04/main.c:118-152 | After a run only command j holds the write end of pipe j and only command j+1 its read end, unless redirected; the shell holds neither. |
| Cutting.Cut | 04/main.c:27-44 | A strtok call leaves every string cut before, and all memory outside the string it scans, as it was. |
| CommandLine.Consume | 04/main.c:29-42 | One round reads an argument or a redirection exactly as the parser's specification does, for every operator. |
| CommandLine.ParseLoop | 04/main.c:27-45 | The loop computes the specified command from the tokens, at most 8192 arguments. |
| CommandLine.ParseCommand | 04/main.c:20-53 | Parses the piece at a pointer and writes only inside that piece. |
| CommandLine.SplitCommands | 04/main.c:108-116 | The pointers are to the pieces between pipe signs, in order, at most 8192 of them, and the pieces do not overlap. |
| CommandLine.OthersIntact | 04/main.c:20-45 | Parsing one piece leaves every later piece as the first scan left it. |
| CommandLine.ReadLine | 04/main.c:108-132 | The commands are those of the line as it was, although the second scan runs in the buffer the first has cut up. |
| CommandLine.Run | 04/main.c:108-157 | From the text of a line to every child's descriptors. |
| CommandLine.TokensOfSpread | 04/main.c:27-44 | Splitting gives back the words of a text, whatever non-empty runs of delimiters stand between them and whatever runs, empty or not, before and behind. |
| CommandLine.ParseWords | 04/main.c:28-45 | Parsing them gives back arguments in order and the last redirection of each side. |
| CommandLine.ParsingUndoesPrinting | 04/main.c:20-132 | Parsing undoes printing for every pipeline, with redirections in any positions and the append flag of the last one, any white space between words, any or none around pipe signs, and repeated pipe signs. |
| CommandLine.ArgumentsInOrder | 04/main.c:41-42 | The arguments are those typed, each behind as many as were typed before it. |
| CommandLine.RunTyped | 04/main.c:20-157 | From a typed line to its children: one for each command, with its arguments, standard output on the file behind its last ">" or ">>", appending exactly for ">>", standard input on the file behind its last "<", else on the neighbours' pipes or the shell's streams. |
| ChatText.ParseOfHello | 06/client.c:27-31 | The server reads a handshake text as the client's pid and no body. |
| ChatText.ParseOfLine | 06/client.c:53-66 | The server reads a line as the client's pid and what it said, whatever fgets can deliver without a colon. |
| ChatText.TryParseMessage | 06/server.c:21-41 | The three results tell apart exactly: no number before the colon, an id alone, an id and a body. |
| ChatServer.ClientTable.constructor | 06/server.c:16-19 | The table starts empty. |
| ChatServer.ClientTable.TryAddClient | 06/server.c:43-47 | The client goes behind the others. |
| ChatServer.ClientTable.DeleteClient | 06/server.c:49-67 | The first entry of that client goes and the others keep their order; without one nothing changes. |
| ChatServer.ClientTable.CloseGap | 06/server.c:64-66 | The shifting loop closes the gap. |
| ChatServer.DropFirstAt | 06/server.c:49-67 | What is dropped is one position. |
| ChatServer.ClientTable.BroadcastMessage | 06/server.c:69-90 | Puts into the queue one message for every client but the sender, in table order. |
| ChatServer.BroadcastReachesOthersOnce | 06/server.c:71-80 | That reaches every other registered client exactly once and nobody else. |
| Chat.FinishSends | 06/server.c:69-90 | The broadcast steps, undisturbed, send what the broadcast method sends. |
| Chat.OrderedStep | 06/server.c:92-123 | Every step keeps what was said and not yet served in the queue in the order it was said. |
| Chat.DeliveredStep | 06/server.c:69-124 | Every step keeps the account of what each client has read, will find and is owed. |
| Chat.BroadcastsDelivered | 06/server.c:69-124 | After any interleaving, what client p has read, followed by what is queued for it and what the broadcast under way owes it, is in order what others said while it was in the room. |
| Chat.NothingIsMissed | 06/server.c:69-124 | Between any two moments at which a client is in the table it gets exactly the lines that others have said and the server has come to in between, each once, in that order. |
| Chat.CaughtUp | 06/client.c:40-50 | A client that has emptied its part of the queue while the server waits has read all of it. |
| Chat.ServedInOrder | 06/server.c:92-123 | The server has acted on exactly the first so many things said by anybody, each once, in order, for the right client; the rest waits in order. The same holds of handshakes. |
| Chat.TableIsTheRoom | 06/server.c:43-67 | The table is exactly who is in the room, each client once, and at most 100 of them. |
| Chat.ServerCanServe | 06/server.c:94-109 | The lowest-type receive never meets a message the code is not defined on, every message it takes parses, and it can be served unless it is a handshake and the table is full. |
| Chat.ClientCanRead | 06/client.c:40-50 | What waits for a client in the queue can be read at any time. |
| Chat.NoEcho | 06/server.c:71-74 | Whatever a client reads was said, in these words, by somebody else. |
| Chat.HandshakesComeLast | 06/server.c:95 | A handshake is only taken when everything said so far has been served. |
| Chat.ShutdownCounts | 06/server.c:95-117 | A client whose handshake was served is out if and only if the server has got to a shutdown the client sent in a state in which its handshake was already served. |
| Chat.ShutdownOvertakesHandshake | 06/server.c:95-117 | Type 10 is served before type 11, so a quick shutdown overtakes its handshake and the client stays registered. |
| Exchange.GetMinMax | 10/main.c:288-306 | The loop over the array computes the specified pair; without numbers the results keep their values. |
| Exchange.WhatIsReported | 10/main.c:293-303 | The minimum is true; the maximum is right if and only if behind some maximum there are only new minima. |
| Exchange.ReportedMaximumCanBeWrong | 10/main.c:232-303 | A batch of a size the parent produces about which it is wrong. |
| Exchange.CountedStep | 10/main.c:241-335 | Every step keeps the counting invariants of the slot and the semaphores. |
| Exchange.AcknowledgedStep | 10/main.c:255-262 | Every step keeps every acknowledgement true of a batch of its own. |
| Exchange.Conservation | 10/main.c:241-335 | Batches stored are processed, overwritten or pending; lost, pending and tokens on one side balance skipped looks and tokens on the other. |
| Exchange.LossesMatchSkips | 10/main.c:33-36 | Batches lost and looks in vain never differ by more than one. |
| Exchange.ProcessedIsCounted | 10/main.c:255-261 | The parent's count plus the result still in the slot is the number of batches processed. |
| Exchange.AcknowledgedResults | 10/main.c:255-259 | Every printed result is the true minimum of one batch, of a later one each time, with the maximum's exact condition. |
| Exchange.ResultBelongsToNumbers | 10/main.c:250-262 | When a result is about to be printed, its batch is still in the slot. |
| Exchange.MutualExclusion | 10/main.c:250-267 | The two sides are never at the slot together. |
| Exchange.NoDeadlock | 10/main.c:241-335 | The two sides never wait for each other: one of them can always take a step. |
| DriverRoutine.TokensOfRequest | cross2/main.c:189-212 | How strtok cuts up the requests the master prints. |
| DriverRoutine.Driver.Report | cross2/main.c:95-107 | A status or busy reply, which leaves the buffer no longer reading "task". |
| DriverRoutine.Driver.Accept | cross2/main.c:109-118 | The time is read back, the timer set and the driver busy. |
| DriverRoutine.Driver.OnRequest | cross2/main.c:81-120 | Every request gets exactly one reply, the right one, although the token aliases the overwritten buffer; a busy driver's timer is not touched. |
| DriverRoutine.Driver.OnTimer | cross2/main.c:122-126 | Reading the expiration makes the driver available. |
| Dispatch.Lookup | cross2/main.c:34-42 | The first driver with that pid, or none if and only if there is none. |
| Dispatch.GetDriverByPid | cross2/main.c:34-42 | The search loop finds it. |
| Dispatch.SoundStep | cross2/main.c:72-126 | Every step of the master, a driver or a timer keeps all invariants. |
| Dispatch.OneReplyPerRequest | cross2/main.c:183-235 | Requests and replies in flight are one if the master waits for that driver and none otherwise; every request was answered once, in order, fittingly. |
| Dispatch.PollAsksEveryone | cross2/main.c:229-235 | From get_drivers until the master is at its prompt again every driver is asked for its status once and heard once, and at any moment in between whoever was asked comes behind drivers that were all asked and heard. |
| Dispatch.CommandAsksOne | cross2/main.c:183-227 | From send_task or get_status until the prompt the driver with that pid is asked exactly that, once, and heard once, and no other driver is asked or heard. |
| Dispatch.PidsAreDistinct | cross2/main.c:160-177 | A pid finds the only driver with that pid. |
| Dispatch.AvailableIffTimerOff | cross2/main.c:68-126 | Available if and only if the timer is neither running nor expired unread: this holds of a driver if and only if it has not accepted a task of zero seconds. |
| Dispatch.PositiveTimesKeepTimersHonest | cross2/main.c:68-126 | So it holds throughout every run in which the master sends only positive times. |
| Dispatch.NoTimeRun | cross2/main.c:109-118 | A run in which it fails. |
| Dispatch.NoTimeMeansForever | cross2/main.c:109-118 | A driver that has accepted a task of zero seconds is busy for the rest of every run. |
| Dispatch.TasksAreAccountedFor | cross2/main.c:109-126 | Tasks accepted are tasks finished plus the one in progress, and as many as were told "ok". |
| Dispatch.TimerIsNeverRestarted | cross2/main.c:95-118 | A task sent to a busy driver does not touch its timer; a timer is only started when it is off. |
| Dispatch.RepliesAreTrue | cross2/main.c:95-119 | "Busy" is replied if and only if some accepted task is not finished, "ok" if and only if a task was asked for and is accepted with that reply. |
| Dispatch.ReportedEventsStayReady | cross2/main.c:73-126 | In every order of one epoll batch, what was reported is still ready when its turn comes, so no read blocks. |
| Dispatch.ReplyIsOnItsWay | cross2/main.c:197-218 | While the master waits, it or the driver it waits for can take a step. |
| FileTransfer.LastToken | 13/server.c:241-246 | The do-while loop ends with the last component. |
| FileTransfer.ParseMessage | 13/server.c:232-253 | Two strtok passes over one header give name and size as specified; the second leaves the size text intact. |
| FileTransfer.LastComponent | 13/server.c:241-246 | The last token between slashes is what stands behind the last slash. |
| FileTransfer.HeaderRoundTrip | 15/client.c:94 | The server gets back the size and the last component of every colon-free path. |
| FileTransfer.BadHeaders | 13/server.c:232-253 | A header with something other than a digit behind its size is refused, and so is one without a colon. |
| FileTransfer.ReceiveFile | 13/server.c:270-291 | The blocking loop writes the specified bytes, and stops at the end of the stream. |
| FileTransfer.ReceivedIs | 13/server.c:272-289 | Those are the chunks up to the first with which the size is reached. |
| FileTransfer.WholeBody | 13/server.c:272-289 | A body of the announced size arrives whole, however it was cut up. |
| FileTransfer.SendFile | 15/client.c:92-123 | The header goes out in a full message of its own, then non-empty pieces of at most 1024 bytes that make up the file. |
| FileTransfer.FileRoundTrip | 13/server.c:224-297 | From file to file through the blocking server. |
| Sessions.Client.constructor | 15/server.c:68-73 | A new client's slot is cleared. |
| Sessions.AtoiIgnoresStale | 15/server.c:201-242 | A number that ends inside its message is read the same whatever lies behind the message in the buffer. |
| Sessions.NumberIsSettled | 15/server.c:201-242 | Exactly when what lies behind a message does not matter to its number: the number ends inside the message, or it is so long that no further digit can change what is left of it in an int. |
| Sessions.IntIsSettled | 15/server.c:201-242 | For numbers an int can hold, exactly if the number ends inside the message. |
| Sessions.StaleDigitsCount | 15/server.c:201-242 | Inputs that fail: a printed number sent without anything behind it is continued by a digit left over there. |
| Sessions.WhenCertain | 15/server.c:200-242 | Exactly when a message before the end of an arithmetic session decides alone what happens, in an array that is never initialised: a choice or operation if it is not empty, a number if it is settled, an empty read never. |
| Sessions.Client.DoMath | 15/server.c:200-258 | One message of an arithmetic session does what the session specification says, in every phase, whatever the rest of the buffer holds. |
| Sessions.Storage.Create | 15/server.c:296-300 | Opening with O_CREAT and O_EXCL fails exactly if the file exists. |
| Sessions.FileNameParts | 15/server.c:293-294 | A file is called "storage/", the pid, "-" and the name, cut off at 255 characters. |
| Sessions.SameFileIffAlike | 15/server.c:293-294 | Two names lead to the same file exactly if they agree as far as there is room. |
| Sessions.FittingNames | 15/server.c:293-294 | Names that fit lead to the same file exactly if they are equal. |
| Sessions.RoomForMost | 15/server.c:293-294 | There is room for 236 characters under every pid. |
| Sessions.Client.OpenFile | 15/server.c:280-307 | A header that was taken apart opens the named file, or ends the session, and the directory gains exactly that file. |
| Sessions.Client.ReceiveFile | 15/server.c:260-328 | One message of a file session does what the specification says, header or chunk, to the client and to the directory. |
| Sessions.Client.DoStuff | 15/server.c:330-371 | Every message is passed to the service chosen, and an unknown choice ends the session; only the bytes of the message matter, not the rest of the 1024-byte buffer. |
| Sessions.PhasesMoveForward | 15/server.c:35-47 | Whatever a client sends, its phase only moves forward along one of two paths. |
| Sessions.MathSession | 15/server.c:200-258 | An arithmetic session of four messages ends with the chosen operation applied to its two numbers, or the zero-division reply, after the three prompts; its numbers are settled in the sense of `NumberIsSettled`. |
| Sessions.AtoiOfSent | 15/server.c:201-242 | A printed int with anything but a digit behind it is read back, sign and all, and settled. |
| Sessions.ResultIsRight | 15/server.c:107-110 | The reply is the sum, the difference, the product, or the quotient truncated towards zero (given by its remainder, which is smaller than the divisor and has the dividend's sign), printed, or the error for a division by zero. |
| Sessions.PrintedSession | 15/server.c:200-258 | Two printed ints and an operation whose result fits an int always end with that reply to exactly these numbers, after the three prompts. |
| Sessions.WrongChoice | 15/server.c:338-355 | A first message that chooses no service is told so and ends the session. |
| Sessions.WrongOperation | 15/server.c:212-229 | Any other operation ends the session without a reply. |
| Sessions.ReceivingStep | 15/server.c:309-325 | One chunk keeps the file what the blocking loop writes. |
| Sessions.WritesLikeBlockingLoop | 15/server.c:309-325 | However the bytes are cut up, the event-driven server writes the file the blocking loop writes, if and only if the size is positive or nothing has come. |
| Sessions.FileSession | 15/server.c:260-325 | A transfer by send_file to a server without a file of that name always completes with the same file under the path's last component. |
| Sessions.WrongHeader | 15/server.c:267-285 | A header without a size, or with one that is no number, ends the session without a word or a file. |
| Sessions.NothingBehindFile | 15/server.c:367-370 | A message behind a whole file is refused, and the file stays as it is. |
| SessionServer.Server.AddClient | 15/server.c:68-73 | A new slot behind the others, which stay as they are. |
| SessionServer.Lookup | 15/server.c:75-83 | The first slot with that descriptor, or none if and only if there is none. |
| SessionServer.Server.GetClientIdx | 15/server.c:75-83 | The search loop finds it. |
| SessionServer.Server.OnEvent | 15/server.c:173-184 | One event is one step: its client's slot and the directory change as the session specification says, and no other slot. |
| SessionServer.Server.RemoveClient | 15/server.c:85-89 | What is left is all but the last slot, whichever client was meant. |
| SessionServer.RemovesTheRightClient | 15/server.c:85-89 | So the removal is right if and only if the client was in the last slot. |
| SessionServer.FilesAreOwned | 15/server.c:292-300 | Every file was there at the start or was created by exactly one client: no two clients ever write the same file. |
| SessionServer.NotRefusedBefore | 15/server.c:296-300 | A header that names a file another client has created ends the run: a run that is not over holds none. |
| SessionServer.NoInterference | 15/server.c:158-185 | After any interleaving up to the first removal, a client's state, replies and file are those a server with only that client would have, if and only if it has not sent a header that named, at that moment, a file another client had created. |
| SessionServer.AloneIsARun | 15/server.c:158-185 | What a client's messages alone lead to, in every statement above, is the run of a server with only that client, in which it sends just these messages. |
| SessionServer.SecondIsTurnedAway | 15/server.c:292-300 | The run that shows it: of two clients that send the same name the second is turned away although alone it would be served. |
| SessionServer.EveryHeaderWants | 15/client.c:94 | Every header a client prints asks for such a name. |
| SessionServer.UploadArrives | 15/server.c:260-325 | An upload to the shared server arrives whole whatever other clients do, unless its name was taken by one of them. |
| SessionServer.DifferentNamesNeverRefused | 15/server.c:292-300 | A client whose header names nothing another client's header names, as far as there is room for names, is never refused. |
| SessionServer.OwnNameArrives | 15/server.c:260-325 | So an upload arrives whole, in "storage/", the pid, "-" and its name, if that file was not there and no other client sends that name, for names that fit. |
| SessionServer.MathIsNotRefused | 15/server.c:200-258 | A client that chose arithmetic is never refused a name. |
| SessionServer.MathIsAnswered | 15/server.c:200-258 | So an arithmetic session on the shared server gets the right result and prompts whatever other clients do. |
| SessionServer.PrintedMathIsAnswered | 15/server.c:200-258 | In plain numbers: two printed ints and an operation between them are answered with the right number, whatever other clients do. |

## Left out

- LinkedList.List.RemoveValue: does not cover a list whose only node holds the value, since the loop then reads a freed node; memory that was freed is modelled only by leaving its node out of the ring.
- Phonebook.ContactStorage.RemoveContact: for the same reason not for the only contact in the store.
- Phonebook.ContactStorage.LoadData: a record of fewer bytes than a contact ends the file, so a file is a sequence of whole records.
- Phonebook.Reload: that the same contacts come back in the same order is for stores still in order; `edit_menu` can change a last name without sorting again, and then the new store holds the stable sort.
- RecordText.BuildRecord: what the overwritten byte behind the buffer belongs to; numbers are those of a `rand` with RAND_MAX 2^31-1.
- RecordText.GetMinMax: not for a record without any token, which the source's loop passes to strtol as a null pointer.
- ChatText.TryParseMessage: not for a text without any token, for the same reason.
- ChatServer.ClientTable.TryAddClient: not for a full table of 100 clients, behind which the source writes without a check; the runs of `Chat` have at most 100 clients in the room.
- CommandLine.ParseCommand: not for a piece without a word or an operator without a file name (null pointers in the source) or names that overflow their buffers; the test of `argv[0]` after the loop reads what the loop may not have set, and the entry behind the last argument is never set.
- CommandLine.SplitCommands: not for a line of nothing but pipe signs, of which the source passes a null pointer on.
- Pipeline.Process.Execute: calls that fail, execvp itself and waiting for the children.
- Dispatch.SoundStep: at most 128 drivers, behind which the source writes without a check; a task for an unknown pid changes nothing and is no step, and a status request for one uses a null pointer.
- DriverRoutine.Driver.OnRequest: negative times, for which setting the timer fails and the driver ends.
- Sessions.Client.DoMath: results that do not fit an int, and numbers that are not settled: by `Sessions.NumberIsSettled` exactly those whose value depends on what lies behind the message.
- Sessions.Client.DoStuff: an empty read, which is how a disconnect shows, before a service is chosen or in an arithmetic session, where by `Sessions.WhenCertain` it never has one outcome, or while a header is awaited. Runs with a disconnect while a file is received are covered.
- Sessions.Client.ReceiveFile: headers without a NUL, and paths of nothing but slashes, of which the source prints a null name; headers that arrive split or together with other data: only the body may be cut up in any way.
- SessionServer.Server.AddClient: not for a full table of 100 clients, behind which the source writes without a check.
- SessionServer.NoInterference: nothing after the first removal, which is a removal only for the last slot.
- System calls that fail, other than EAGAIN, lookups and creating a file that exists, and processes that are interrupted or end.
- Program 10's `produce_data`, which fills an array with random numbers: a batch is a parameter, of 1 to 1024 numbers.
- A full message queue, on which msgsnd waits.
- The interactive parts: prompts, menus, printing, command names of cross2's master.
- Program 13's arithmetic session, its semaphore-guarded client count, and the forks around it.
- Programs 01, 02, 05, 07, 08, 11, 12, 14, cross1 and 10/obsolete: plumbing, or variants of what is here.
