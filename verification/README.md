# A verified model of the file storage server

The server keeps files in memory for its clients. Clients open, lock, read, write, close and remove files over
a socket. When the storage is full it evicts files by a replacement algorithm, and it keeps only a run-length
code of every content. A manager thread hands ready connections to a pool of workers.

The project models the server part by part and proves what the parts promise each other.

| file | what it models |
|---|---|
| `Prelude.dfy` | bytes, optional values, a few facts about sequences and sets |
| `RunLength.dfy` | the codec of `src/rleCompression.c`: encoder and decoder as loops over buffers, round trip, size laws |
| `IclHash.dfy` | the chained hash table of `src/icl_hash.c`, updated in place, as a finite map |
| `StoreModel.dfy` | every handler of `src/filesystemApi.c` as one atomic step on values |
| `StoreInvariant.dfy`, `HandlerLaws.dfy` | the storage invariant, kept by every handler and over every run |
| `Eviction.dfy`, `EvictionLaws.dfy` | what the replacement loop evicts; the same in the terms of each algorithm, and when a creation evicts |
| `StoreRefinement.dfy`, `StoreRuns.dfy`, `StoreOrder.dfy` | the storage as a map from paths to entries; contents, accounting and maxima over whole runs; list order; failures |
| `UseLaws.dfy` | what a file records of its use over whole runs: last use, number of uses, openers |
| `LockLaws.dfy`, `Disclosure.dfy`, `LockOrder.dfy`, `WaiterLaws.dfy`, `Departure.dfy` | what locks protect and what they do not, the order of grants, no waiter lost or answered twice, what a departed client leaves behind |
| `FilesystemApi.dfy` | the storage on the heap: doubly linked list, hash index and counters updated in place, each handler proved to take the step of `StoreModel.dfy` |
| `ReadWrite.dfy`, `ReadWriteInvariant.dfy`, `ReadWriteLaws.dfy` | the mutexes, condition variable and flags of `src/filesystemApi.c` as a machine of single steps for any number of threads and files |
| `BoundedBuffer.dfy`, `BufferProtocol.dfy` | the linked queue of `src/boundedbuffer.c`, and any interleaving of its producers and consumers |
| `Wire.dfy`, `Socket.dfy`, `ClientApi.dfy`, `Worker.dfy` | the byte streams between `src/clientApi.c` and `src/server.c`, the client's half, and one request served from socket to storage and back |
| `Refusals.dfy` | which answer each request gets, by the state and by the history of its file |
| `Session.dfy` | whole sessions: requests, handlers and responses put together, over every run |
| `Server.dfy`, `Manager.dfy` | the circulation of descriptors in `src/server.c`, and the manager's scan of ready descriptors |

Reading notes:

- A file is called by its path, a sequence of bytes without the terminating NUL. Descriptors are integers; 0 stands
  for nobody. The clock is an argument of every handler and may have any value.
- The storage invariant `StoreInvariant.Inv` asks for distinct non-empty paths, exact counters within both limits,
  sizes that are those of the bytes and of their code, and queues that hold real, distinct, non-holding clients, no
  client in two of them. A queue is non-empty only while somebody holds the file.
- `HandlerLaws.Admissible` is what the server guarantees about the client of a request: its descriptor is positive
  and it is not waiting for a lock. `Server.BusyIsAdmissible` proves that workers only ever serve such clients.
- A lock does not keep content from others altogether. `readNFilesHandler` looks at no lock, and an evicted file is sent
  to the client whose write evicts it; `Disclosure.LockedContentIsSentIff` says exactly when.
- Where code and comments disagree the model follows the code. The comment at line 741 of `src/filesystemApi.c` says that a
  write can never find another writer inside; `ReadWriteLaws.AssertCanFail` is a run in which it does, and
  `ReadWriteLaws.AssertFailsIff` says exactly when. The comment on `n` digits in `getRequestPayloadSegment` says 8; the
  code uses 10. Reference counts are reset after every successful write, not only after an eviction.
- The value read past the end of a code by the decoder is an argument of the model and may be any byte.

## Model

| member | source | states |
|---|---|---|
| `RunLength.DecodeEncode` | src/rleCompression.c:9-62 | Every byte string, whatever its digits, run lengths or trailing zeros, is recovered from its code; the decoder it is recovered by does not know the encoder. |
| `RunLength.EncodeIsInjective` | src/rleCompression.c:9-45 | Two byte strings with the same code are equal, so a stored code determines the bytes of a file. |
| `RunLength.EncodedSize` | src/rleCompression.c:10-43 | n bytes take c bytes of code with n <= 3c and 2c <= 3n: the 2n bytes allocated always suffice. |
| `RunLength.EncodedSizeOfAppend` | src/rleCompression.c:10-43 | Appending never shrinks the code, and joining two strings costs at most one byte more than coding them apart. |
| `RunLength.EncodeByRuns` | src/rleCompression.c:16-42 | The code written token by token is the code of each maximal run, nines first and the remainder last. |
| `RunLength.EncodeFormat` | src/rleCompression.c:20-42 | The code of any bytes starts with what its first run of equal bytes says: the byte alone; the byte twice and the count as a digit for two to nine; the byte twice and a 9 for more, and then the code of the rest. |
| `RunLength.RepeatedByteCode` | src/rleCompression.c:28-42 | Two to nine equal bytes are coded in three bytes: the byte twice and the count as a digit. |
| `RunLength.RepeatedByteSize` | src/rleCompression.c:28-42 | Any number of equal bytes takes three bytes for each nine, and none, one or three for what is left over. |
| `RunLength.RunIsMaximal` | src/rleCompression.c:20-26 | The length found by the scan is the only one that is equal throughout and followed by a different byte. |
| `RunLength.ScanRun` | src/rleCompression.c:18-27 | The scan finds the length of the maximal run that starts at the index. |
| `RunLength.WriteRun` | src/rleCompression.c:28-42 | One run is written as its code right after what is there, and nothing else of the buffer changes. |
| `RunLength.Compress` | src/rleCompression.c:9-45 | The first `size` bytes of the new buffer are the code of the input, the rest is zero, and one byte at least is left over. |
| `RunLength.Fill` | src/rleCompression.c:54-57 | A count is filled in with the byte, but never past the size of the original. |
| `RunLength.CopyToken` | src/rleCompression.c:51-60 | One turn of the decoder turns the code of what is left into its first token and the code of the rest, also when the byte past the buffer is arbitrary. |
| `RunLength.Decompress` | src/rleCompression.c:47-62 | Given the code of s, the new buffer holds s followed by the extra zero bytes asked for; every write stays inside |s| and both loops end. |
| `IclHash.HashPjw` | src/icl_hash.c:41-54 | The loop computes the hash and stays below 2^28 after every character, so no shift loses a bit. |
| `IclHash.Pjw` | src/icl_hash.c:41-54 | The hash of any string is below 2^28. |
| `IclHash.FoldLaw` | src/icl_hash.c:49-52 | Folding keeps the lowest four bits and bits 8 to 27, makes each of bits 4 to 7 the exclusive or of itself and one of the top four, and clears these. |
| `IclHash.ShortKeysAreNotFolded` | src/icl_hash.c:47-53 | The hash of up to six seven-bit characters is their number to the base 16. |
| `IclHash.NegativeCharacters` | src/icl_hash.c:48-48 | A character above 127 is taken off the hash, being negative. |
| `IclHash.Table.constructor` | src/icl_hash.c:72-93 | A new table stands for the empty map. |
| `IclHash.Table.Find` | src/icl_hash.c:105-120 | Finds exactly what the map holds for the key. |
| `IclHash.Table.Insert` | src/icl_hash.c:131-158 | Refuses a key that is there and otherwise extends the map by it; keys stay distinct and in the bucket of their hash, and the count is the size of the map. |
| `IclHash.Table.Delete` | src/icl_hash.c:223-250 | Returns 0 and takes the key out of the map if it is there, and -1 otherwise, keeping every other entry. |
| `IclHash.Table.Drop` | src/icl_hash.c:231-246 | The entry found leaves its bucket, and the map loses exactly its key. |
| `IclHash.Table.Locate` | src/icl_hash.c:112-116 | The walk through a bucket stops at the entry of the key exactly when the map has the key. |
| `IclHash.Table.Prepend` | src/icl_hash.c:146-157 | A new entry becomes the head of its bucket, and every other chain is as before. |
| `IclHash.Table.Unlink` | src/icl_hash.c:229-243 | One entry is taken out of its chain, at the head or behind another entry, and every other chain is as before. |
| `IclHash.IndexesAfterInsert` | src/icl_hash.c:131-158 | Prepending a new key to the bucket of its hash extends the map that the chains stand for. |
| `IclHash.IndexesAfterDelete` | src/icl_hash.c:223-250 | Taking an entry out of its chain takes its key out of the map that the chains stand for. |
| `StoreModel.Victim` | src/filesystemApi.c:41-64 | The victim is never the spared file and goes before every other candidate: ranked lower, or as low and earlier in the list; there is none only if no other file exists. |
| `StoreModel.IndexOf` | src/filesystemApi.c:366-392 | The first file with the path, or the length of the list when no file has it. |
| `StoreModel.ReadCount` | src/filesystemApi.c:663-663 | A read-n takes all files for a limit that is not positive, and otherwise as many as the limit says, or all if there are fewer. |
| `Eviction.EvictionOrderIsStableSort` | src/filesystemApi.c:41-64 | The order in which files would be evicted holds every candidate once, sorted by the rank of the algorithm, with ties in list order. |
| `Eviction.EvictsShortestPrefix` | src/filesystemApi.c:784-798 | The write loop evicts exactly the shortest prefix of that order whose removal makes the new content fit. |
| `Eviction.VictimExists` | src/filesystemApi.c:786-787 | While a write does not fit, a victim exists, and it is not the file being written. |
| `Eviction.NoUnderflow` | src/filesystemApi.c:268-269 | Neither counter can go below zero by the removal of a listed file. |
| `Eviction.LoopMakesRoom` | src/filesystemApi.c:784-798 | After the loop the counters are exact and the new content fits. |
| `Eviction.LoopCounts` | src/filesystemApi.c:784-798 | The loop changes nothing but the list, its two counters and the number of victims, which grows by the number evicted. |
| `Eviction.LoopSplits` | src/filesystemApi.c:784-798 | Survivors and victims are exactly the files there were, and the file being written survives. |
| `Eviction.LoopKeepsOrder` | src/filesystemApi.c:784-798 | Survivors keep their relative order in the list. |
| `Eviction.OneTurn` | src/filesystemApi.c:784-798 | One turn of the loop finds a victim and leaves the file being written in a consistent, smaller list. |
| `EvictionLaws.VictimByAlgorithm` | src/cacheFns.c:9-15 | The victim is the first candidate under first-in-first-out, the one with the lowest time of last use under least-recently-used, the one with the lowest count under least-frequently-used; the first of the list on ties. |
| `EvictionLaws.OrderByAlgorithm` | src/cacheFns.c:9-15 | The whole eviction order runs by list position, time of last use, or count of uses, as the algorithm says. |
| `EvictionLaws.WriteEvictsByAlgorithm` | src/filesystemApi.c:784-798 | Whatever a write destroys is stored, is not the file written to, and goes before every other file that stays, by the measure of the algorithm. |
| `EvictionLaws.CreationEvicts` | src/filesystemApi.c:476-508 | A creation destroys a file if and only if the store holds as many files as it may, and then exactly the first of the eviction order; the new file, empty, open to its creator and locked if asked for, goes to the end of the list. |
| `HandlerLaws.CreateKeeps` | src/filesystemApi.c:476-508 | A creation, with the eviction it may need, keeps the storage invariant. |
| `HandlerLaws.OpenKeeps` | src/filesystemApi.c:434-532 | Opening keeps the storage invariant on every path. |
| `HandlerLaws.ReadKeeps` | src/filesystemApi.c:533-622 | Reading keeps the storage invariant. |
| `HandlerLaws.WriteKeeps` | src/filesystemApi.c:704-829 | Writing keeps the storage invariant: distinct paths, exact counters within both limits, exact sizes, well-formed queues. |
| `HandlerLaws.RoomForWrite` | src/filesystemApi.c:777-814 | Before the content is replaced the store is consistent, has the file, and has room for its new code. |
| `HandlerLaws.ReplaceKeeps` | src/filesystemApi.c:800-817 | Replacing the content of one file re-establishes the invariant and changes no other file but its reference count. |
| `HandlerLaws.LockKeeps` | src/filesystemApi.c:830-898 | A lock request by a client that is not waiting keeps the invariant: nobody waits for two files, and no holder waits for its own. |
| `HandlerLaws.UnlockKeeps` | src/filesystemApi.c:959-1021 | Giving a lock back keeps the invariant: a file with waiters always has a holder. |
| `HandlerLaws.CloseKeeps` | src/filesystemApi.c:1023-1078 | Closing keeps the storage invariant. |
| `HandlerLaws.RemoveStepKeeps` | src/filesystemApi.c:1080-1115 | Removing keeps the storage invariant. |
| `HandlerLaws.ExitKeeps` | src/filesystemApi.c:900-957 | A departure keeps the storage invariant, and afterwards the client holds no lock and waits for no file. |
| `HandlerLaws.RemoveFirstLaw` | src/filesystemApi.c:158-201 | In a queue without duplicates, popping a descriptor removes it and nothing else. |
| `HandlerLaws.LeaveLaw` | src/filesystemApi.c:931-947 | The lock of a departing holder goes to the head of the queue, everybody else goes on waiting, and the departed client does not. |
| `HandlerLaws.StepKeepsInv` | src/filesystemApi.c:434-1148 | Every handler keeps the storage invariant when its client is not waiting for a lock. |
| `HandlerLaws.RunKeepsInv` | src/filesystemApi.c:434-1148 | The invariant holds in every store that any sequence of handler calls reaches. |
| `StoreRefinement.StepRefines` | src/filesystemApi.c:434-1148 | Every handler does to a map from paths to bytes, holder, queue and openers exactly what the map alone determines, given which files it destroyed, and replies as the entry of its path determines; a listing pairs the paths of the first files, in list order, with the bytes of their entries. |
| `StoreRefinement.ListingReplies` | src/filesystemApi.c:655-701 | The pair listed at k is the path of the file at k and the bytes of its entry, and there are as many pairs as the limit allows. |
| `StoreRefinement.WriteRefines` | src/filesystemApi.c:704-829 | A write appends to the entry of its path, or fails as the entry says, and changes other entries only by evicting them or resetting their use counts. |
| `StoreRefinement.OpenRefines` | src/filesystemApi.c:434-532 | Opening creates a fresh entry or adds an opener, and takes the lock only if nobody has it. |
| `StoreRefinement.ExitRefines` | src/filesystemApi.c:900-957 | A departure releases, withdraws and closes once in every entry. |
| `StoreRuns.ContentIsWhatWasWritten` | src/filesystemApi.c:764-814 | Over every run, the bytes of a file are the concatenation of all successful writes since its creation, and the two sizes recorded for it are those of these bytes and of their code. |
| `StoreRuns.ReadReturnsWhatWasWritten` | src/filesystemApi.c:597-601 | Over every run, a read that succeeds returns exactly the bytes written since the creation of the file. |
| `StoreRuns.FirstWriteIff` | src/filesystemApi.c:1117-1148 | Over every run, a first write is allowed if and only if its client has created the file with a lock and nobody has since read, written, locked, unlocked or closed it with success. |
| `StoreRuns.EveryFileAccountedFor` | src/filesystemApi.c:1102-1109 | Over every run, successful creations are the files there are, plus the victims, plus the successful removals. |
| `StoreRuns.MaximaAreExact` | src/filesystemApi.c:425-429 | Over every run, the two recorded maxima are exactly the largest values their counters have had. |
| `UseLaws.RecordsAreRight` | src/filesystemApi.c:28-30 | Over every run, the time a file records is that of its last use, its count the number of uses since counts last started again, and each client is among its openers as often as it has opened it and not closed it or left. |
| `UseLaws.AccessibleIff` | src/filesystemApi.c:574-583 | Over every run, a client may read or write a file if and only if nobody else holds it and the client has opened it more often than it has closed it. |
| `UseLaws.VictimsByHistory` | src/filesystemApi.c:784-798 | Over every run, what a write destroys was created before, last used no later, or used no more often than anything it leaves, as the algorithm of the store has it. |
| `StoreOrder.StepKeepsOrderOfCreation` | src/filesystemApi.c:403-430 | No step reorders two files that survive it. |
| `StoreOrder.CreatedIsLast` | src/filesystemApi.c:403-430 | A file that has just been created is the last of the list. |
| `StoreOrder.FailureChangesNothing` | src/filesystemApi.c:777-783 | A failed request leaves contents, locks, queues, counters and maxima as they were, destroys nothing and answers nobody else. |
| `LockLaws.DestroyedWhen` | src/filesystemApi.c:213-285 | A file is destroyed only by a removal by its holder, or by the eviction for a write or creation of another file. |
| `LockLaws.LockProtects` | src/filesystemApi.c:574-583 | While a client holds a file, no request of another client changes its bytes, takes its lock or removes it, and those that name the file are refused or made to wait, but for opening without a lock and closing. Only an eviction destroys it. Its content may still be sent to others, see `Disclosure.LockedContentIsSentIff`. |
| `LockLaws.LockChangesHands` | src/filesystemApi.c:871-893 | A lock request or an opening with the lock that succeeds makes the client the holder, a lock request that has to wait goes to the end of the queue, an unlock makes the first of the queue the holder, or nobody; nothing else that names the file touches its lock. |
| `LockLaws.CreatedHolder` | src/filesystemApi.c:494-498 | A file created with the lock is held by its creator, otherwise by nobody, and nobody waits for it. |
| `Disclosure.LockedContentIsSentIff` | src/filesystemApi.c:655-701 | While a client holds a file, the response to another client carries the content of that file if and only if it is a listing whose limit reaches the file, or the answer to a write that passes its checks and for which the file is in the shortest sufficient prefix of the eviction order; and the content is what is stored. |
| `Disclosure.ListingCarries` | src/filesystemApi.c:655-701 | A listing gives the content of a file exactly if its limit reaches the file, whoever holds it. |
| `Disclosure.PassedWriteCarries` | src/server.c:312-326 | The answer to a write gives the content of another file exactly if that file has to go to make room. |
| `Disclosure.VictimsHaveToGo` | src/filesystemApi.c:784-798 | The files that a write evicts are exactly the shortest sufficient prefix of the eviction order. |
| `Disclosure.ListingShowsLockedFile` | src/filesystemApi.c:655-701 | A run after which a listing sends one client the content of a file that another one holds: `readNFilesHandler` looks at no lock. |
| `Disclosure.EvictionShowsLockedFile` | src/server.c:312-326 | A run after which a write to a file of its own sends one client the content of a file that another one holds: evictions look at no lock either. |
| `LockOrder.NoOvertaking` | src/filesystemApi.c:872-887 | Over every run in which the file lives, a client ahead of another in the queue stays ahead or has held the lock while the other still waited. |
| `LockOrder.StepKeepsOrder` | src/filesystemApi.c:118-201 | No single step lets a client pass another one in a queue. |
| `WaiterLaws.StepConserves` | src/filesystemApi.c:254-258 | Whoever waited, or starts to, either waits after the step, or is told that the file is gone, or has the lock, and only one of these, once. |
| `WaiterLaws.WaitsOnce` | src/filesystemApi.c:872-880 | Under the invariant a client occurs at most once over all queues. |
| `WaiterLaws.GoneAreTheirWaiters` | src/filesystemApi.c:784-798 | The clients told that their file is gone are exactly those that waited for the destroyed files, queue after queue. |
| `WaiterLaws.BlockedClientIsAnsweredOnce` | src/server.c:311-396 | A blocked client goes on waiting unanswered, or is granted exactly when it becomes the holder, or is told once that the file is gone exactly when it is destroyed. |
| `WaiterLaws.EveryWaitIsAnsweredOnce` | src/server.c:311-396 | Over every run, each lock request of a client that had to wait has been answered exactly once, or is the one it is waiting for. |
| `WaiterLaws.RunConserves` | src/server.c:311-396 | Over every run, the lock requests that had to wait are the answers sent later plus those still waiting. |
| `WaiterLaws.OnlyBlockedClientsAreAnswered` | src/server.c:346-359 | Nobody is notified who was not waiting. |
| `Departure.StillOpenIff` | src/filesystemApi.c:944-947 | An exit leaves the client no lock and no place in a queue; it still counts as having a file open if and only if it had opened it at least twice, and its permission for a first write stays. |
| `Departure.OpenedTwiceStaysOpen` | src/filesystemApi.c:944-947 | A run in which a departed client still counts as having a file open. |
| `FilesystemApi.IsFdInList` | src/filesystemApi.c:147-156 | The scan answers whether the descriptor is in the list. |
| `FilesystemApi.PopFd` | src/filesystemApi.c:158-201 | Only the first occurrence of the descriptor is taken out; 0 when there is none. |
| `FilesystemApi.PopHead` | src/filesystemApi.c:167-175 | The head of the queue is taken out; 0 when the queue is empty. |
| `FilesystemApi.FileNode.constructor` | src/filesystemApi.c:343-364 | A new node stands for an empty, unlocked file that nobody has open. |
| `FilesystemApi.FileNode.Recode` | src/filesystemApi.c:764-775 | Decompressing, appending and compressing again gives the code of the old bytes followed by the new ones, and its exact length. |
| `FilesystemApi.FileNode.MayUse` | src/filesystemApi.c:574-574 | The test of access lets through exactly the holder, or anybody if nobody holds the file, among those that have it open. |
| `FilesystemApi.FileNode.TakeLock` | src/filesystemApi.c:872-893 | A node that stands for a file is locked or queued for, as the file is. |
| `FilesystemApi.FileNode.GiveLock` | src/filesystemApi.c:997-1012 | A node that stands for a file hands its lock to the head of its queue, as the file does. |
| `FilesystemApi.FileNode.Abandon` | src/filesystemApi.c:931-947 | A node that stands for a file loses the departed client, as the file does. |
| `FilesystemApi.FileNode.Shut` | src/filesystemApi.c:1056-1071 | A node that stands for a file loses one opening of the client, as the file does. |
| `FilesystemApi.FileNode.Reopen` | src/filesystemApi.c:512-522 | A node that stands for a file gains an opener, unless the lock is asked for and taken. |
| `FilesystemApi.FileNode.Fetch` | src/filesystemApi.c:589-611 | Decompressing the content of a node gives the bytes of its file. |
| `FilesystemApi.CacheStorage.constructor` | src/filesystemApi.c:288-314 | A new storage is valid and stands for the empty one. |
| `FilesystemApi.CacheStorage.FindFile` | src/filesystemApi.c:366-392 | The hash index finds the node of the listed file with the path, and nothing when no listed file has it. |
| `FilesystemApi.CacheStorage.ScanForVictim` | src/filesystemApi.c:51-60 | The scan of the list with the comparator ends at the best candidate. |
| `FilesystemApi.CacheStorage.GetVictim` | src/filesystemApi.c:41-64 | Returns the node of the unique victim and counts one more. |
| `FilesystemApi.CacheStorage.Unlink` | src/filesystemApi.c:238-252 | Taking a node out leaves a doubly linked list of the others in the same order, with both ends right. |
| `FilesystemApi.CacheStorage.DestroyFile` | src/filesystemApi.c:213-285 | List, index and both counters lose exactly that file; its waiters are handed over and its content stays readable. |
| `FilesystemApi.CacheStorage.Forget` | src/filesystemApi.c:278-279 | The index loses the file, and still maps every other path to its node. |
| `FilesystemApi.CacheStorage.Attach` | src/filesystemApi.c:409-420 | A node becomes the last of the doubly linked list. |
| `FilesystemApi.CacheStorage.AddFileToStore` | src/filesystemApi.c:403-430 | List, index, counters and maxima gain exactly that file. |
| `FilesystemApi.CacheStorage.ResetAllRefCounts` | src/filesystemApi.c:800-805 | Every listed file has its reference count reset, and nothing else changes. |
| `FilesystemApi.CacheStorage.EvictToFit` | src/filesystemApi.c:784-798 | The loop ends in the store that the abstract loop reaches; the notify list is the waiters of the victims in order, and the evicted nodes are linked latest first with their content. |
| `FilesystemApi.CacheStorage.OpenFile` | src/filesystemApi.c:434-532 | In memory, exactly the step of the abstract handler: store, reply and clients to notify; storage stays valid. |
| `FilesystemApi.CacheStorage.CreateFile` | src/filesystemApi.c:476-508 | In memory, the abstract creation, with its eviction and the reset of reference counts when the store was full. |
| `FilesystemApi.CacheStorage.ReadFile` | src/filesystemApi.c:533-622 | In memory, exactly the step of the abstract handler, with the decompressed content as reply. |
| `FilesystemApi.CacheStorage.ReadNFiles` | src/filesystemApi.c:624-702 | The buffer holds the frames of all files, or of the first of them up to a positive limit, in list order. |
| `FilesystemApi.Grow` | src/filesystemApi.c:664-674 | The recorded capacity never exceeds the allocated one, what is in the buffer stays, and the next frame fits. |
| `FilesystemApi.CacheStorage.AddFrame` | src/filesystemApi.c:664-690 | One file is added to the buffer as length, path, length and content, inside what is allocated. |
| `FilesystemApi.CacheStorage.WriteToFile` | src/filesystemApi.c:704-829 | In memory, exactly the step of the abstract handler, and the evicted files with their content in reverse order. |
| `FilesystemApi.CacheStorage.LockFile` | src/filesystemApi.c:830-898 | In memory, exactly the step of the abstract handler. |
| `FilesystemApi.CacheStorage.UnlockFile` | src/filesystemApi.c:959-1021 | In memory, exactly the step of the abstract handler, with the new holder or 0. |
| `FilesystemApi.CacheStorage.CloseFile` | src/filesystemApi.c:1023-1078 | In memory, exactly the step of the abstract handler. |
| `FilesystemApi.CacheStorage.RemoveFile` | src/filesystemApi.c:1080-1115 | In memory, exactly the step of the abstract handler, with the waiters of the removed file. |
| `FilesystemApi.CacheStorage.ClientExit` | src/filesystemApi.c:900-957 | In memory, exactly the step of the abstract handler, with the new holders in list order. |
| `FilesystemApi.CacheStorage.TestForFirstWrite` | src/filesystemApi.c:1117-1148 | Answers whether the file exists and the client may do its first write. |
| `ReadWriteInvariant.StepKeepsInv` | src/filesystemApi.c:566-1073 | Every lock, unlock, wait, wake and flag update of every thread keeps the protocol invariant, for any number of threads and files. |
| `ReadWriteInvariant.RunKeepsInv` | src/filesystemApi.c:566-1073 | The protocol invariant holds after every interleaving. |
| `ReadWriteInvariant.ReadersExcludeWriters` | src/filesystemApi.c:566-617 | Over every run, `activeReaders` is the number of threads in the read window, `isBeingWritten` holds exactly when one thread is in a write window, and never both: no two threads are in write windows of a file, and none reads it meanwhile. |
| `ReadWriteInvariant.DestroyedFileIsUnreferenced` | src/filesystemApi.c:231-285 | When a file is unlinked, no other thread holds a pointer to it. |
| `ReadWriteInvariant.UnlinkedFileHasOneUser` | src/filesystemApi.c:231-285 | Over every run, once a file is unlinked only the thread that is freeing it, under its mutex, refers to it. |
| `ReadWriteInvariant.NoOtherReference` | src/filesystemApi.c:234-236 | Whatever another thread is doing, once the destroyer has passed its wait that thread does not refer to the file. |
| `ReadWriteInvariant.AtMostOneParked` | src/filesystemApi.c:585-587 | Since the ordering mutex is held across every wait, at most one thread is parked on a file. |
| `ReadWriteInvariant.SignalSuffices` | src/filesystemApi.c:613-615 | After the signal of a leaving reader, a thread that is still parked on the file still has to wait. |
| `ReadWriteInvariant.EnterKeeps` | src/filesystemApi.c:589-594 | Entering a window, as reader, writer, locker or closer, keeps the flags equal to who is inside. |
| `ReadWriteInvariant.WriterLeaves` | src/filesystemApi.c:819-825 | Leaving a write window clears the flag and wakes everybody that could be waiting for it. |
| `ReadWriteInvariant.ReaderLeaves` | src/filesystemApi.c:606-617 | Leaving a read window keeps the invariant with a signal by the last reader only. |
| `ReadWriteLaws.NoWakeUpIsLost` | src/filesystemApi.c:754-756 | Over every run, a thread that is parked and not woken still has to wait, and it is the only one on its file. |
| `ReadWriteLaws.SomebodyMoves` | src/filesystemApi.c:737-825 | Under the protocol invariant, if some thread is in the middle of a handler then some thread can take a step other than a new request or a spurious wake-up. |
| `ReadWriteLaws.NoDeadlock` | src/filesystemApi.c:566-1073 | The same over every run that no failed assert has ended. |
| `ReadWriteLaws.PassesIff` | src/filesystemApi.c:585-587 | A read gets past its wait if and only if nobody is in a write window of the file, a write if and only if nobody reads it, and a lock, an unlock, a close, an exit and a destruction if and only if nobody is inside. |
| `ReadWriteLaws.NobodyInsideWhileUnlocking` | src/filesystemApi.c:994-1015 | Over every run, from where an unlock or an exit has passed its wait until it has given back the mutex, nobody reads the file or is in a write window of it. |
| `ReadWriteLaws.StoreWhileBusy` | src/filesystemApi.c:566-1073 | Over every run, a thread that has had the mutex of its file holds the store mutex if and only if it writes, closes, opens, exits or destroys; readers, lockers, unlockers and tests wait and work without it. |
| `ReadWriteLaws.OnlyTheLastReaderSignals` | src/filesystemApi.c:606-617 | A reader that leaves wakes a thread only if no reader is left inside. |
| `ReadWriteLaws.OnlyLocksWriteWithoutStore` | src/filesystemApi.c:866-893 | While one thread holds the store mutex, another one in a write window can only be locking. |
| `ReadWriteLaws.AssertFailsIff` | src/filesystemApi.c:741-742 | The assert at the start of a write fails if and only if some thread is in the write window of a lock request on that file. |
| `ReadWriteLaws.AssertCanFail` | src/filesystemApi.c:741-742 | A run that ends in that failed assert: the comment beside it rules this out, the code does not. |
| `BoundedBuffer.Buffer.constructor` | src/boundedbuffer.c:72-113 | A new buffer is valid and empty. |
| `BoundedBuffer.Buffer.Enqueue` | src/boundedbuffer.c:237-248 | Once there is room, the element goes to the end of the linked list, and a broadcast is due exactly when the buffer was empty. |
| `BoundedBuffer.Buffer.Dequeue` | src/boundedbuffer.c:145-159 | Once there is an element, the first leaves the linked list, and a broadcast is due exactly when the buffer was full. |
| `BoundedBuffer.Buffer.Drain` | src/boundedbuffer.c:185-187 | All elements are taken out, in order. |
| `BufferProtocol.StepKeepsInv` | src/boundedbuffer.c:139-161 | Every step of every producer and consumer keeps the protocol invariant. |
| `BufferProtocol.QueueIsFaithful` | src/boundedbuffer.c:231-250 | Over every run the buffer is within its capacity, what came out is a prefix of what went in, and nobody stays parked unless the buffer is empty for a consumer, full for a producer. |
| `BufferProtocol.SomebodyMoves` | src/boundedbuffer.c:139-161 | Whoever is neither idle nor parked can go on, or the holder of the mutex can. |
| `BufferProtocol.OnlyOneSideWaits` | src/boundedbuffer.c:141-143 | A producer and a consumer are never parked at the same time. |
| `Wire.TenDigits` | src/clientApi.c:190-190 | A number below 10^10 printed with ten digits is read back by `atol` and by `isNumber`. |
| `Wire.PaddedIsDecimal` | src/clientApi.c:190-190 | The digits of a padded number are its decimal digits, the highest first. |
| `Wire.LimitIsRead` | src/clientApi.c:206-208 | The limit of a read-n request arrives unchanged if and only if it is above -10^9; otherwise its last digit is cut off, which never changes whether it is positive. |
| `Wire.NoLimitIsTaken` | src/server.c:272-278 | Ten bytes that do not start like a number are a bad limit, and exactly they are consumed. |
| `Wire.SegmentIsTaken` | src/server.c:125-154 | A payload with its length in front is read back exactly, and nothing after it is touched. |
| `Wire.ListingIsTaken` | src/clientApi.c:72-130 | Every file list, ended by ten zeros, is parsed into exactly its paths and contents, and nothing after it is touched. |
| `Wire.RequestIsTaken` | src/server.c:212-306 | Every request is understood as it was sent, and exactly its bytes are consumed. |
| `Wire.RequestBytes` | src/clientApi.c:190-190 | Each request starts with its own digit from 1 to 9, and then the length of its path in ten digits, and the path. |
| `Wire.ResponseIsTaken` | src/clientApi.c:53-70 | Every response is decoded against its own request, and exactly its bytes are consumed. |
| `Wire.ServerStaysInStep` | src/server.c:182-386 | For every sequence of requests on one connection the server reads exactly those requests. |
| `Wire.ClientStaysInStep` | src/clientApi.c:177-400 | For every sequence of requests, the client reads any sequence of responses of the right kinds exactly, each against its own request; `Session.SessionsStayInStep` shows that the server sends such responses. |
| `Sockets.Socket.Readn` | utils/misc.h:24-36 | However few bytes each read returns, exactly the bytes asked for are consumed, in order. |
| `Sockets.Socket.Writen` | utils/misc.h:46-58 | However few bytes each write takes, exactly the bytes given are sent, in order. |
| `Sockets.Socket.ReadSegment` | src/server.c:125-154 | Two full reads take one payload with its length in front off the stream. |
| `ClientApi.StoreFiles` | src/clientApi.c:72-130 | The loop reads exactly the files of the listing, counts them, and stops right behind the terminator. |
| `ClientApi.SendRequest` | src/clientApi.c:177-517 | Nothing is sent for an empty path or nothing to append; otherwise the buffer that is built has room for the whole request, and exactly the bytes of the request are sent. |
| `ClientApi.SendPath` | src/clientApi.c:236-249 | Although `snprintf` is told of one byte more than was allocated, the request and its NUL fit, and exactly code, length and path are sent. |
| `ClientApi.SendOpen` | src/clientApi.c:182-193 | The computed length is that of code, length, path and flags, which are sent without the NUL. |
| `ClientApi.SendLimit` | src/clientApi.c:204-211 | The buffer on the stack cuts the limit off after ten characters, and these are sent. |
| `ClientApi.SendData` | src/clientApi.c:324-338 | `strlen` finds the end of the text in the zeroed buffer, the content goes right there and fits, and code, path and content are sent, each with its length. |
| `ClientApi.ReceiveResponse` | src/clientApi.c:53-70 | The status and whatever payload follows it are read as the request calls for. |
| `Worker.SendEvicted` | src/server.c:312-326 | The evicted files are sent, latest victim first, with their decompressed contents, and then the terminator. |
| `Worker.NotifyPendingClients` | src/server.c:112-120 | Every client of the list is sent the code and reported on the pipe, in order. |
| `Worker.ServeFirstWrite` | src/server.c:287-297 | A forbidden first write is answered and its body drained; an allowed one is carried out as an append. |
| `Worker.Serve` | src/server.c:212-386 | One request, well formed or not: exactly its bytes are read, the storage takes the step of its handler, one response is sent unless the client has to wait, and the right clients are notified and reported. A bad flag or code gets BAD_REQUEST; after a bad limit a listing follows the BAD_REQUEST. |
| `Worker.ServeExit` | src/server.c:387-400 | A departure releases the client's locks, tells the new holders, and reports them and then a zero. |
| `Refusals.OpenAnswer` | src/server.c:222-241 | FILE_NOT_FOUND if the file is neither there nor to be created, ALREADY_EXISTS if it is there and to be created, FORBIDDEN if its lock is asked for and somebody has it, and OK otherwise; the flags are 1 for creation and 2 for the lock. |
| `Refusals.ReadAnswer` | src/server.c:249-270 | FILE_NOT_FOUND without the file, FORBIDDEN if another client holds it or the client has not opened it, and its bytes otherwise. |
| `Refusals.AppendAnswer` | src/server.c:297-327 | FILE_NOT_FOUND, FORBIDDEN as for reads, FILE_TOO_BIG exactly if the new code does not fit an empty store, and otherwise the evicted files. |
| `Refusals.FirstWriteAnswer` | src/server.c:287-295 | FORBIDDEN to everybody but the client that may do the first write, even without the file; to that client, what an append is answered. |
| `Refusals.LockAnswer` | src/server.c:330-344 | FILE_NOT_FOUND without the file; OK if nobody else holds it, and no answer yet if somebody does. |
| `Refusals.UnlockAnswer` | src/server.c:345-360 | FILE_NOT_FOUND without the file, FORBIDDEN to all but the holder. |
| `Refusals.CloseAnswer` | src/server.c:241-248 | FILE_NOT_FOUND without the file, OK otherwise, also to a client that has not opened it. |
| `Refusals.RemoveAnswer` | src/server.c:361-372 | FILE_NOT_FOUND without the file, FORBIDDEN to all but the holder. |
| `Refusals.NoPathAnswer` | src/server.c:66-82 | BAD_REQUEST for an empty path, but FORBIDDEN for a first write. |
| `Refusals.ReadAnswerByHistory` | src/server.c:249-270 | Over every run: all that has been written to the file since its creation, to a client that has it open and is not kept out by a lock; FORBIDDEN to others if the file exists, FILE_NOT_FOUND if it does not. |
| `Refusals.FirstWriteAnswerByHistory` | src/server.c:287-327 | Over every run: FORBIDDEN unless the client has created the file with its lock, nobody has used it with success since, and the client has it open; then FILE_TOO_BIG exactly if the code of all that would have been written does not fit. |
| `Refusals.StatusBytes` | include/responseCode.h:4-10 | Each status is sent as the one digit of its code. |
| `Worker.DestroyedAreStored` | src/server.c:314-323 | Files handed over by an eviction still have the content they had. |
| `Session.SessionsStayInStep` | src/clientApi.c:177-517 | Over every run of the storage and for every client: the server reads exactly the requests that the client sent, and the client, reading each response against its request, reads exactly the responses it was sent, given at once, after the body of a first write, or later by the worker of another client; all requests are answered, in order, but for the lock request it waits for. |
| `Session.ConnectionsStayInStep` | src/server.c:212-400 | Over every run, the responses sent to a client are of the kinds its requests call for, in order, and a client that waits has asked for that lock last. |
| `Session.WaiterIsToldTheTruth` | src/server.c:112-120 | A client that waits is sent nothing, or OK exactly when it has become the holder of the file it asked for, or FILE_NOT_FOUND exactly when that file has been destroyed. |
| `Session.RunIsServed` | src/filesystemApi.c:434-1148 | Over every run whose created names a client may send, every stored name and content fits the frames of a listing, if three times the configured size has at most ten digits. |
| `Session.ContentIsBounded` | src/filesystemApi.c:764-814 | No stored content is longer than three times the configured size. |
| `Session.UnderstoodIsHandledAlike` | src/filesystemApi.c:663-663 | A limit that lost its last digit still selects the same files. |
| `Session.ResponseFits` | src/server.c:222-377 | Every request that is answered at once gets a response of the kind its client expects. |
| `Session.DelayedResponseFits` | src/server.c:112-120 | What is sent to a client that waited for a lock is exactly a response to its lock request: OK, or that the file was not found. |
| `Session.ExchangeIsFaithful` | src/clientApi.c:177-517 | A whole exchange: the server understands the request as sent and the client reads back the response to it, whatever follows on either stream. |
| `Session.DemandKeepsStepIff` | src/server.c:212-306 | For every demand that is answered at once, well formed or not: the client reads the response it should, a refusal if the demand is malformed, and it reads all that it was sent if and only if the demand is not a bad limit. |
| `Session.NonsenseLosesStep` | src/server.c:272-286 | Ten letters in the place of a limit: the server takes them for a bad limit, the client takes the BAD_REQUEST for the whole response, and the listing stays in its stream. |
| `Session.InitialIsServed` | src/filesystemApi.c:288-313 | A server that has just started, with a configured size of which three times has at most ten digits, has a store that sessions may begin with. |
| `Server.NextKeepsInv` | src/server.c:182-592 | Every step of the manager and of every worker keeps the circulation invariant. |
| `Server.DescriptorsAreConserved` | src/server.c:333-400 | Over every run, each connected descriptor is in exactly one of the read set, the task queue, a worker, a lock queue and the pipe, others in none; `fd_num` bounds the read set; the client count is the open connections plus the exits not read yet. |
| `Server.InitialInv` | src/server.c:491-527 | A server that has just started satisfies the circulation invariant, for any number of workers and any configuration. |
| `Server.ConservedFromStart` | src/server.c:333-400 | The same for every run of a server that has just started; and if it has stopped, it was told to exit softly and has left nobody. |
| `Server.BusyIsAdmissible` | src/server.c:337-341 | The client a worker is busy with is connected and waits for no lock. |
| `Server.HandleMoves` | src/server.c:346-385 | A handler call moves descriptors between worker and lock queues without losing or duplicating any. |
| `Server.DepartMoves` | src/server.c:387-400 | A departure takes exactly the client's own descriptor out of circulation and puts one zero in. |
| `Server.SoftExitLeavesNobody` | src/server.c:531-560 | A step stops the server if and only if it is a signal or a reading of the pipe that leaves a soft exit with no client connected and no exit unread; then no client is waiting, queued, handled or reported either. |
| `Server.StoppedLeavesNobody` | src/server.c:531-560 | Over every run, a server that has stopped was told to exit softly, and no client is left anywhere. |
| `Server.InterruptStopsIff` | src/server.c:531-537 | A signal stops the server exactly when, during a soft exit, no client is connected and no exit unread: the client count says neither more nor less. |
| `Server.CollectStopsIff` | src/server.c:551-560 | Reading the pipe stops the server exactly when it leaves a soft exit with no client connected and no exit unread. |
| `Server.QueueHasRoom` | src/server.c:588-588 | The manager never finds the task queue full. |
| `Server.RunKeepsInv` | src/server.c:182-592 | The circulation invariant holds after every run. |
| `Server.WorkersLeaveManager` | src/server.c:182-402 | No step of a worker touches the read set, its bound, the client count or the soft exit flag. |
| `Manager.Manager.HandlePipe` | src/server.c:548-562 | A reported descriptor goes back to the read set and under the bound; a zero takes one client off the count and ends the server when it was the last of a soft exit. This is the step `Collect` of the server. |
| `Manager.Manager.HandleConnection` | src/server.c:563-580 | A new connection joins the read set and the count, unless the server is exiting softly. This is the step `Accept`. |
| `Manager.Manager.HandleRequest` | src/server.c:581-589 | A ready client leaves the read set, and the bound still bounds the others. This is the step `Dispatch`. |
| `Manager.Manager.Scan` | src/server.c:546-591 | Although the bound of the loop moves while it runs, every ready client is taken exactly once, in ascending order, and the read set ends up with the others, the reported one and the new one. The loop is a run of steps of the server, which adds exactly these clients to its task queue. |

## Left out

- Sockets, `select`, signals and pipes as system calls, and files on the client's disk: streams are byte sequences, the read set is a set, the pipe a queue.
- Allocation failure, the `DIE_ON_*` exits and broken pipes: each ends the run, and the model says nothing about what follows. `ENOMEM` replies are therefore not modelled.
- `src/cliParser.c`, `src/fileparser.c`, option handling in `src/client.c`, `src/log.c` and the text of log events: formatting and list scans only. Logging is a no-op in the protocol model.
- `icl_hash_update_insert`, `icl_hash_dump` and `icl_hash_destroy`: never called on a live table, or release of memory only.
- `destroyStorage` and the clean-up after the manager loop: termination messages and release of memory.
- FilesystemApi.CacheStorage.ReadNFiles: bounds the payload bytes of the growing buffer; the NUL that `sprintf` writes after a header is not modelled. Lengths are taken below 10^10.
- FilesystemApi.FileNode.TakeLock: runs as part of one atomic handler; that `lockedBy` is assigned outside the file's mutex shows only in the protocol model, which carries no lock owners.
- FilesystemApi.FileNode.Recode: the content buffer is a sequence that is replaced as a whole, as the source replaces the pointer; releasing the old buffer is not modelled.
- StoreModel.Victim: ranks are mathematical integers; the comparators' differences are assumed to fit an `int`.
- ReadWriteLaws.NoDeadlock: says that some thread can step, not that every request is granted in the end; two clients can each wait for a lock that the other holds.
- ReadWriteInvariant.StepKeepsInv: `readNFilesHandler` takes no lock of a file and appears as a holder of the store mutex; which of the listed files an exit or an eviction picks next is left open.
- BoundedBuffer.Buffer.Enqueue: elements are values; copying `dataSize` bytes into a node and freeing nodes are not modelled.
- Worker.Serve: the bytes of a request are all there, and the single `read` of a ten-character limit returns all ten. The value that a worker uses after a bad limit is an argument and may be any number.
- ClientApi.ReceiveResponse: `removeFile` leaves the byte behind its response code uninitialised; the model takes it to end the string, as in the other requests.
- Session.SessionsStayInStep: asks for a configured size below 10^10 / 3 bytes, since a longer content would not fit its ten digits, and for requests as the functions of `src/clientApi.c` send them.
- Manager.Manager.Scan: the steps of workers between the turns of the loop are left out; they touch none of its variables (`Server.WorkersLeaveManager`).
- Server.QueueHasRoom: relies on descriptors below `FD_SETSIZE`, which `FD_SET` needs anyway.
- `insertionTime` and `fifo_cmp`: kept in the nodes and defined, but the replacement by age uses the list order alone, as the code does.
