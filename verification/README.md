# Verification of the distributed network file store

A Dafny model of the naming server's path index and lookup cache, the storage server's locks, file
transfers and directory listing, and the naming server's registration and dispatch, with proofs of
what they do over all inputs, all runs and all interleavings. `dafny verify dfyconfig.toml` checks
the whole project.

- `Bytes` - bytes, C strings and the special characters.
- `PathIndex` - what the path index means: a map from paths to a server or a tombstone, with the
  exact effect of every insertion and deletion. `Trie` implements it by the 256-way heap trie that
  the naming server updates in place.
- `RollingHash` - the address hash in the fixed-width arithmetic of the source. `LruCache` - the
  cached lookup on the array of slots. `LruTheory` - what the cache holds after any trace of
  lookups, at any capacity. `CacheAgreement` - what a cached answer is worth while the index changes.
- `DirectoryListing` - the recursive listing of a directory tree. `Registration` - listing and
  insertion together: exactly which paths resolve.
- `NamingServer` - registration, lookup and dispatch, once in place as methods of one object, and
  once as an interleaving of the server listener and any number of client handlers.
  `ServerHistory` - what the insertions, deletions and lookups of a run of that interleaving say of
  the answers found. `ClientSlots` - the table of client connections under the same interleaving.
- `Transfer` - chunked reads and writes over a channel of whole packets. `TextCollection` - how the
  client collects the text of a write.
- `LockSystem` - the readers-writer locks and the outer mutex, one semaphore operation per step, any
  number of threads. `StorageServer` - the file operations inside those sections, one chunk per step.

## What the code does where its comments or documentation say something else

- A tombstone hides every string that extends the deleted path, not only paths below it: deleting
  `/a` also hides `/ab` (`PathIndex.DeleteExact`). A new insertion clears tombstones at its own end
  and at its own `/`-terminated prefixes only (`PathIndex.RevivalExact`).
- The cache is never told of a change to the index. For every run of insertions, deletions and
  lookups and every address, the cached lookup agrees with the index exactly when the address's hash
  is no longer cached or was last loaded with the answer the index gives now
  (`CacheAgreement.AgreementExact`); whether a hash is cached is read off the lookups alone. A path is
  looked up before it is deleted, so a deletion whose round is not interrupted leaves a stale answer
  behind (`CacheAgreement.DeletedPathStillAnswered`, `ServerHistory.DeletionLeavesStaleAnswer`). When
  other handlers run in between, it does exactly if the hash is still cached and was last loaded with
  a server (`ServerHistory.DeletionExact`); enough lookups in between can always prevent it
  (`ServerHistory.DeletionCanLeaveNothing`).
- Deleting a directory only prints a line on the storage server (`StorageServers/server.c:91-92`),
  which goes on listing it. So the next forwarded request brings the deleted directory back, whenever
  no tombstone is left on a prefix of it outside the tree (`Registration.DeletedPathReturns`).
- Slots start with hash 0, so as long as fewer hashes than slots have been looked up an address that
  hashes to 0 matches a slot that was never loaded and is reported as not found
  (`CacheAgreement.ZeroHashNotFound`). `/ejuddkj` is such an address. `LruTheory.HitExactly` and
  `LruTheory.FirstLookupMisses` give the exact condition; the theorem on what the cache holds needs
  no exclusion of hash 0.
- The table of client connections bounds the handlers that have not cleared their slot
  (`ClientSlots.HandlersAreBounded`), not the threads: a slot is reused while its last thread is on
  its way to its exit, and any number of those can pile up (`ClientSlots.ExitingIsUnbounded`). All
  threads together stay within the table as long as no slot is filled again that early
  (`ClientSlots.ThreadsAreBounded`).
- Text is said to end at a double newline. It also ends at the newline of any line whose length is a
  positive multiple of 1023 (`TextCollection.LongLineEndsText`); `TextCollection.StopsAtEmptyLine`
  says exactly when the first empty line is where it ends.
- The receiving loop of `write_file_in_ss` tests `bytesRead`, which is never assigned
  (`StorageServers/client_request_helper.c:125`, `:158`). The model loops until `lastChunk`, which is
  what the comment on the loop says.
- Content with NUL bytes does not survive a transfer: each 1024-byte piece is cut at its first NUL
  (`Transfer.WriteThenRead`, `Transfer.CutKeepsNulFree`). Collected text loses, in each piece of a line
  that is read, the bytes from the first NUL on, and is whole exactly when there is no NUL before the
  newline that ends it (`TextCollection.CollectText`).

## Reading the model

- A path is the bytes of a C string. Bytes are 0..255; the hash alone reads them as signed `char`.
- The trie's `nodes`, `owner` and `contents` are ghost: they name each heap node by its path and
  carry the abstract index that the nodes are proved to hold.
- In `LockSystem` each thread serves a finite list of requests, `serving` says which one; `nested`
  says whether it wraps its sections in the outer mutex. The server always does; exclusion and progress
  are proved for any mix, and any workload under the locks there are can be started
  (`LockSystem.AnyWorkloadStarts`, `StorageServer.AnyWorkloadStarts`).
- In `StorageServer` the lock index of a request is unrelated to its path, so atomicity rests on the
  mutex alone. A read handle sees the file as it is at each chunk. Whether a creation or removal is
  possible is decided by the environment.
- In `NamingServer` a request's reply, the paths that come with it and whether an acknowledgment
  could be sent are decided by the environment. Server ids are within 0..MAX_SERVERS-1. Registrations
  whose acknowledgment cannot be sent are counted apart: the code leaves their server online and does
  not count it as running.
- In `ClientSlots` a descriptor that has been closed may be handed out again at once. The table may
  have any size; the source's is MAX_CLIENTS.

## Model

| member | source | states |
|---|---|---|
| PathIndex.DeleteExact | NamingServer/nm_helper.c:454-476 | deleting a resolvable path makes exactly the strings that extend it unresolvable and changes no other answer |
| PathIndex.InsertExact | NamingServer/nm_helper.c:397-415 | every answer after an insertion, from the index before it |
| PathIndex.RevivalExact | NamingServer/nm_helper.c:404-415 | an inserted path resolves exactly when no proper prefix of it that lacks a final '/' is tombstoned |
| PathIndex.UnhidingExact | NamingServer/nm_helper.c:437-451 | any other path changes its answer exactly when it was live and all tombstones over it are revived, and then answers its old server |
| PathIndex.FileAnswerIsStable | NamingServer/nm_helper.c:388-452 | a resolvable file path keeps its answer under any further insertions of other paths |
| PathIndex.InsertsExact | NamingServer/nm_helper.c:388-452 | every answer after any insertions into any index, tombstones included |
| PathIndex.LatestInsertWins | NamingServer/nm_helper.c:388-452 | without deletions a path answers the server of the latest insertion at it or, for a '/'-terminated directory, beneath it |
| PathIndex.AnswerAfterAnyRun | NamingServer/nm_helper.c:388-476 | every answer after any run of insertions and deletions is a function of the history that mentions no index: nothing if a non-empty prefix was deleted while it resolved and not written since, else the server of the latest insertion that wrote the entry |
| PathIndex.ReachableIndex | NamingServer/nm_helper.c:388-476 | after any insertions and deletions the entries are exactly the touched paths, each a tombstone or an inserted server |
| Trie.TrieNode.constructor | NamingServer/nm_helper.c:369-379 | a new node has no children, no server and no marks |
| Trie.Trie.Insert | NamingServer/nm_helper.c:388-416 | the in-place insertion keeps the nodes an unshared tree and its contents become the specified insertion |
| Trie.Trie.Search | NamingServer/nm_helper.c:426-452 | the walk answers the specified search: nothing under a tombstone, else the entry or nothing |
| Trie.Trie.Delete | NamingServer/nm_helper.c:454-476 | the in-place deletion keeps the tree and its contents become the specified deletion |
| Trie.Trie.NodesFormATree | NamingServer/nm_helper.c:388-476 | distinct paths have distinct nodes and child arrays, a node has one parent slot, the root has none |
| RollingHash.ComputeHash | NamingServer/nm_helper.c:331-334 | the hashing loop computes the fixed-width hash |
| RollingHash.HashStaysSmall | NamingServer/nm_helper.c:331-334 | the hash stays below 1000000007 and its multiplication never overflows 64 bits |
| RollingHash.HashStepExact | NamingServer/nm_helper.c:333 | one step is exact but for 2^64 added when the scaled hash cannot absorb a character below 'a', which needs a hash of at most 7 |
| RollingHash.HashIsPolynomial | NamingServer/nm_helper.c:331-334 | the hash is the base-31 polynomial plus 2^64 for each borrow, modulo 1000000007 |
| RollingHash.PlainHash | NamingServer/nm_helper.c:331-334 | addresses without characters below 'a' hash to the polynomial modulo 1000000007 |
| RollingHash.HashOfByte | NamingServer/nm_helper.c:331-334 | the hash of any single byte, in numbers: bytes of 128 and above count as negative, and below 'a' the subtraction wraps |
| RollingHash.HashCollision | NamingServer/nm_helper.c:331-334 | the path "/ejuddkj" hashes to 0, and so does "/ejuddkja" |
| LruCache.Initialise | NamingServer/nm.c:313-317 | every slot starts with hash 0, server -1 and rank 10^9 |
| LruCache.FindStorageServer | NamingServer/nm_helper.c:329-362 | the in-place lookup ages all slots, then resets the first matching one or replaces the first of greatest rank with the index's answer |
| LruCache.Victim | NamingServer/nm_helper.c:341-348 | the replaced slot is the first of greatest rank |
| LruTheory.CacheHoldsMostRecent | NamingServer/nm_helper.c:336-361 | after any trace the loaded slots hold exactly the min(capacity, distinct) most recent hashes, each once, at ranks equal to their ages; the rest are as initialised |
| LruTheory.RecentIsByAge | NamingServer/nm_helper.c:336-339 | the recency order lists each looked-up hash once, in strictly increasing age |
| LruTheory.StackDistance | NamingServer/nm_helper.c:341-361 | the place of a hash in the recency order is the number of distinct hashes used since |
| LruTheory.HitExactly | NamingServer/nm_helper.c:350-353 | a lookup hits exactly when its hash is among the most recent, or is 0 while a slot is free |
| LruTheory.RepeatedLookupHits | NamingServer/nm_helper.c:341-361 | a repeated lookup hits exactly when fewer than capacity distinct other hashes came in between |
| LruTheory.FirstLookupMisses | NamingServer/nm_helper.c:341-361 | a first lookup misses unless its hash is 0 and a slot is free |
| LruTheory.Inclusion | NamingServer/nm_helper.c:341-361 | a larger cache holds everything a smaller one holds on the same trace |
| LruTheory.VictimIsLeastRecent | NamingServer/nm_helper.c:345-359 | with every slot loaded the victim holds the least recently used hash |
| LruTheory.EvictsLeastRecent | NamingServer/nm_helper.c:345-359 | a miss on a full cache drops the least recently used hash and no other |
| LruTheory.RanksFitInt | NamingServer/nm_helper.c:337-347 | ranks fit 32 bits for the first 1147483647 lookups |
| CacheAgreement.CacheIsRunOfTrace | NamingServer/nm_helper.c:329-362 | the cache of a run that mixes insertions, deletions and lookups is that of its trace of lookups |
| CacheAgreement.RememberedIsHeld | NamingServer/nm_helper.c:341-361 | a hash is in the cache exactly when fewer than capacity distinct other hashes were looked up since its last lookup, or it is 0, never looked up, and fewer than capacity hashes were |
| CacheAgreement.Provenance | NamingServer/nm_helper.c:350-361 | every slot of every reachable cache holds what the index answered at the miss that loaded its hash last |
| CacheAgreement.HitAnswersAsLoaded | NamingServer/nm_helper.c:350-353 | a hit on an address that shares its non-zero hash with no other answers what the index said when it was loaded |
| CacheAgreement.AgreementExact | NamingServer/nm_helper.c:329-362 | for every run and address, collisions and hash 0 included: the answer of the cached lookup, and that it is the index's exactly when the hash is not cached or was last loaded with the answer the index gives now |
| CacheAgreement.AgreementAtLoad | NamingServer/nm_helper.c:350-361 | the same with the event of the last load named |
| CacheAgreement.Agreement | NamingServer/nm_helper.c:329-362 | without collisions, and for a non-zero hash, the cached lookup equals the index's answer when that is what it was at the last load |
| CacheAgreement.FoundFileStaysRight | NamingServer/nm_helper.c:329-362 | a file path that was found when last loaded is answered right while only other paths are inserted |
| CacheAgreement.DeletedPathStillAnswered | NamingServer/nm_helper.c:350-353 | in any state and for any path: looked up and then deleted, it resolves no more and is answered as before |
| CacheAgreement.ZeroHashNotFound | NamingServer/nm.c:313-317 | a path of hash 0 is answered as not found, whatever the index says, as long as fewer hashes than slots have been looked up |
| CacheAgreement.ZeroHashListed | StorageServers/client_request_helper.c:311-327 | a tree with the one file "ejuddkj" lists a path of hash 0 |
| CacheAgreement.RegisteredNotFound | NamingServer/nm.c:313-317 | a path of hash 0 that is registered is not found by the first lookup |
| DirectoryListing.ListFilesAndEmptyFolders | StorageServers/client_request_helper.c:279-335 | the recursion appends the specified listing to the accessible paths |
| DirectoryListing.HasNoEntries | StorageServers/client_request_helper.c:297-309 | the emptiness test ignores "." and ".." |
| DirectoryListing.ListingByName | StorageServers/client_request_helper.c:289-327 | the listing holds exactly: every file by its name, every directory with nothing in it by its name and '/', and what is listed below any other directory; only "." and ".." are passed over |
| DirectoryListing.ListingCountsLeaves | StorageServers/client_request_helper.c:311-327 | one path per file and per empty directory |
| DirectoryListing.ListingHasNoDuplicates | StorageServers/client_request_helper.c:311-327 | no path is listed twice |
| DirectoryListing.ListingLosesNothing | StorageServers/client_request_helper.c:279-335 | two trees list the same paths exactly when they are equal up to the order of siblings |
| Registration.PopulateTrie | NamingServer/new_srv_helper.c:60-62 | the registration loop performs the insertions of its paths in order |
| Registration.ReachedIsTreePath | StorageServers/client_request_helper.c:279-335 | the entries that inserting a tree's listing writes are its files, its directories with a final '/', and '/' if it is not empty |
| Registration.ListedTreeResolves | NamingServer/nm_helper.c:139-145 | every answer after a tree's listing is inserted into any index: hidden under the tombstones that are not on paths of the tree, else the server for the tree's paths, else as the entry was |
| Registration.DeletedPathReturns | NamingServer/nm_helper.c:139-145 | a deleted path that is still listed comes back with the next listing exactly if no tombstone is left on a prefix of it outside the tree, always if it resolved when it was deleted |
| Registration.RegisteredTreeResolves | NamingServer/new_srv_helper.c:60-62 | registering a tree in an empty index makes exactly those paths resolve to the server, and -1 the answer for every other string |
| Registration.RegisteredServersResolve | NamingServer/new_srv_helper.c:53-63 | after any number of registrations a path resolves to the last server whose tree has it |
| NamingServer.Registry.constructor | NamingServer/new_srv_helper.c:116-121 | no server is online, the cache is as initialised, the trie has no root |
| NamingServer.Registry.RegisterNewServer | NamingServer/new_srv_helper.c:27-93 | a known server is refused without change; a new one is online with its paths inserted, counted if acknowledged, and the start semaphore is posted on reaching the initial number |
| NamingServer.Registry.ServeRequest | NamingServer/nm_helper.c:206-313 | a round of lookup and dispatch: which server is found, the outcome, and the index and cache it leaves; the found server is online and the offline and wrong-path branches cannot be taken |
| NamingServer.Registry.Find | NamingServer/nm.c:58-65 | a looked-up server is online and then the trie has a root |
| NamingServer.Registry.Update | NamingServer/nm_helper.c:136-145 | the paths of a reply are inserted for their server |
| NamingServer.RegistrationRoundIsRegister | NamingServer/new_srv_helper.c:27-93 | the listener's steps without interruption have the effect of the registration method, and change nothing else |
| NamingServer.ListenerCanGoOn | NamingServer/new_srv_helper.c:27-93 | in every state of every run the server listener can go on, for any server, paths and acknowledgment, and clients are let in from the first post on |
| NamingServer.HandlerCanGoOn | NamingServer/nm.c:43-73 | in every state of every run every handler can go on, whatever is asked, replied and acknowledged |
| NamingServer.HandlerRoundIsServe | NamingServer/nm.c:58-65 | a handler's steps without interruption have the effect of the lookup and dispatch method, leave it ready for the next request, and change nothing else |
| NamingServer.RegistrationSafety | NamingServer/new_srv_helper.c:45-83 | in every interleaving the running servers are the online ones save those not yet or never acknowledged, the semaphore is posted once, and clients come after that |
| NamingServer.IdsAreOnline | NamingServer/nm_helper.c:139-145 | in every interleaving the ids in index and cache are those of online servers |
| NamingServer.DispatchSafety | NamingServer/nm_helper.c:206-313 | in every interleaving dispatch meets no offline server, no id out of range and no missing root |
| NamingServer.OnlineForGood | NamingServer/new_srv_helper.c:55-56 | a registered server stays online |
| ServerHistory.ClientsCanBeServed | NamingServer/nm.c:334-342 | every run in which enough servers run can be carried on so that a new client gets a handler |
| ServerHistory.FirstClientFinds | NamingServer/nm.c:58 | from start to answer: a registered tree's files and directories are what the first client's lookup finds, save for paths of hash 0 |
| ServerHistory.RunExplained | NamingServer/nm.c:58-65 | in every interleaving the index and the cache are those of the insertions, deletions and lookups of the run's own steps |
| ServerHistory.IndexFromHistory | NamingServer/nm_helper.c:388-476 | in every state of every run the index answers what the run's own insertions and deletions alone say |
| ServerHistory.LookupExact | NamingServer/nm.c:58 | in every interleaving, what a handler finds for a path as the run's own history gives it, and exactly when it is the index's answer |
| ServerHistory.DeletionExact | NamingServer/nm_helper.c:293-298 | in every interleaving, a served deletion makes the path unresolvable, and a lookup after it answers a server exactly if the hash is still cached and was last loaded with one |
| ServerHistory.DeletionLeavesStaleAnswer | NamingServer/nm_helper.c:293-298 | after a round without interruption that serves a deletion a lookup still answers its server |
| ServerHistory.DeletionCanLeaveNothing | NamingServer/nm_helper.c:341-361 | any run with a deletion about to end can be carried on to its end with nothing stale left, by another handler's lookups |
| ClientSlots.OpenConnectionHasOneOwner | NamingServer/nm.c:252-294 | in every interleaving an open connection belongs to the listener or to exactly one handler, by its slot |
| ClientSlots.HandlerServesItsSlot | NamingServer/nm.c:39 | a serving handler's descriptor is that of its slot, and open |
| ClientSlots.ReuseAfterClear | NamingServer/nm.c:257-274 | a slot is filled only when no handler is alive on it |
| ClientSlots.ScanFinds | NamingServer/nm.c:257-264 | looking on from any slot, the listener comes to the first free one |
| ClientSlots.ConnectionCanBeServed | NamingServer/nm.c:252-294 | in any state, a new connection can be accepted in the first free slot and served there by a new handler |
| ClientSlots.FailureLeavesFree | NamingServer/nm.c:275-290 | a failed accept or thread creation leaves the slot free and the connection closed |
| ClientSlots.EveryoneCanGoOn | NamingServer/nm.c:252-294 | in every state of every run the listener, every handler and every exiting thread can go on |
| ClientSlots.HandlersAreBounded | NamingServer/nm.c:252-294 | no more handlers that have not cleared their slot than the table has slots |
| ClientSlots.ThreadsAreBounded | NamingServer/nm.c:252-294 | no more threads than slots, exiting ones included, as long as no slot is filled again while its last thread has not exited |
| ClientSlots.ExitingIsUnbounded | NamingServer/nm.c:78-81 | threads that have cleared their slot and not exited are not bounded: a run for any table and any number of them |
| ClientSlots.NoSlotIsLost | NamingServer/nm.c:75-79 | every taken slot is the listener's or a handler's |
| ClientSlots.SlotCanBeFreed | NamingServer/nm.c:75-79 | from every state of every run the owner of a taken slot can go on, alone, until the slot is free |
| Transfer.ReadFile.Fread | StorageServers/client_request_helper.c:78-86 | end of file is flagged only by a read that asks for more than is left |
| Transfer.ReadFileInSs | StorageServers/client_request_helper.c:61-107 | the server sends floor(n/1024)+1 packets of the content, each cut at its first NUL, only the final one marked last |
| Transfer.SendFileDataToSs | Clients/req_helper.c:107-133 | the client sends floor(n/1024)+1 packets of its file, only the final one marked last |
| Transfer.WriteFileInSs | StorageServers/client_request_helper.c:142-158 | the server appends what one transmission delivers and leaves the rest of the channel |
| Transfer.GetFileDataFromSs | Clients/req_helper.c:15-46 | the client shows what one transmission delivers and leaves the rest of the channel |
| Transfer.TransmissionOfOne | StorageServers/client_request_helper.c:155-157 | a receiver takes exactly one sender's packets, whatever follows them |
| Transfer.DeliveredIsCut | StorageServers/client_request_helper.c:81-83 | both senders' packets deliver the content with each 1024-byte piece cut at its first NUL |
| Transfer.PacketsDetermineContent | Clients/req_helper.c:107-133 | the client's packets determine the content |
| Transfer.CutKeepsNulFree | StorageServers/client_request_helper.c:153 | nothing is cut exactly when the content has no NUL, and cutting again changes nothing |
| Transfer.WriteThenRead | Clients/req_helper.c:104-133 | written and read back, a text is what was sent with each piece cut at its first NUL, so the same exactly when it has none |
| TextCollection.InputStream.Fgets | Clients/req_helper.c:70 | a line read holds at most 1023 bytes and nothing after its newline |
| TextCollection.CollectText | Clients/req_helper.c:68-88 | collection succeeds exactly when some newline stands at a multiple of 1023 in its line; it saves what precedes the first such, less what follows a NUL in its piece, so all of it exactly when there is no NUL in it |
| TextCollection.CollectAndSend | Clients/req_helper.c:56-145 | the packets sent are those of the saved text, of the whole text exactly when there is no NUL in it, and none if collection fails |
| TextCollection.KeptPiece | Clients/req_helper.c:87 | what `fputs` writes of a piece is its bytes before the first NUL |
| TextCollection.StopsAtEmptyLine | Clients/req_helper.c:77-81 | the first empty line ends the text exactly when no earlier line length is a positive multiple of 1023 |
| TextCollection.LongLineEndsText | Clients/req_helper.c:70-81 | a line of 1023 bytes ends the text |
| LockSystem.StepInv | StorageServers/client_request_helper.c:12-51 | every step keeps the accounting of both semaphores, `readers` and the mutex |
| LockSystem.RunInv | StorageServers/server.c:253-258 | the accounting holds in every state of every run from the initial one |
| LockSystem.Exclusion | StorageServers/client_request_helper.c:12-51 | a lock's writer is never inside with a reader or another writer |
| LockSystem.ExclusionByRequest | StorageServers/server.c:201-231 | while a request to write under the lock it names is inside, no other request that names that lock is |
| LockSystem.LockWithoutMutex | StorageServers/server.c:201-231 | a thread that does not wrap its sections waits for the mutex only with a privileged request |
| LockSystem.ReaderComesIn | StorageServers/client_request_helper.c:12-22 | readers share a lock: one comes in beside others, or alone when no writer is in |
| LockSystem.HeldUpExactly | StorageServers/client_request_helper.c:12-51 | a thread is held up exactly by the semaphore it is about to wait on being 0 |
| LockSystem.Bookkeeping | StorageServers/client_request_helper.c:12-51 | `readers` is the number of threads between its increment and decrement, and all semaphores stay binary |
| LockSystem.DeadlockFree | StorageServers/server.c:201-231 | while some thread is unfinished some thread can move, with or without the outer mutex |
| LockSystem.RunsAreBounded | StorageServers/client_request_helper.c:12-51 | every schedule of a finite workload ends within a number of steps known at the start |
| LockSystem.MaximalRunFinishes | StorageServers/server.c:201-231 | a run that cannot go on has served every request and left every lock and the mutex as they began |
| StorageServer.WorkStep | StorageServers/client_request_helper.c:61-165 | each chunk keeps the files in line with the operations completed and the one under way |
| StorageServer.RunInv | StorageServers/server.c:79-104 | that holds in every state of every run |
| StorageServer.Atomicity | StorageServers/server.c:201-231 | every completed operation has the outcome of running alone after those completed before it; a read sends exactly the content they left, a possible creation succeeds, a possible deletion succeeds exactly if the file is there |
| StorageServer.ReadAnswersLastChange | StorageServers/server.c:201-231 | a completed read answers the last completed write, creation or deletion of its file: the text that was written, nothing, or a failure; or the file as it was at the start |
| StorageServer.CreationAndDeletion | StorageServers/server.c:86-98 | a creation empties or makes the file, a deletion removes it, if possible, and both say so |
| StorageServer.LockIsRequests | StorageServers/server.c:201-231 | a thread that uses a lock uses the one its request names, as a writer exactly for a write, and works on the file of that request |
| StorageServer.FilesAtRest | StorageServers/server.c:79-104 | while the mutex is free the files are what the completed operations make of them |
| StorageServer.HistoryGrows | StorageServers/server.c:201-231 | a completed operation keeps its outcome and place |
| StorageServer.DeadlockFree | StorageServers/server.c:201-231 | chunk loops included, some thread can move while some thread is unfinished |
| StorageServer.AloneInSection | StorageServers/server.c:79-104 | no two threads are in sections at once |
| StorageServer.StepMakesHeadway | StorageServers/client_request_helper.c:61-165 | each step of the locks or of file work leaves fewer steps to do |
| StorageServer.RunsAreBounded | StorageServers/server.c:201-231 | every schedule of a finite workload, chunk loops included, ends within a number of steps known at the start |
| StorageServer.AnswersConserved | StorageServers/server.c:201-231 | answers given and answers owed always add up to the workload, for each kind and path and, for a write, its packets |
| StorageServer.EverythingAnswered | StorageServers/server.c:201-231 | a run that cannot go on has answered each request of the workload once: reads, creations and deletions by path, writes by path and packets |
| StorageServer.AnswersCanBeCompleted | StorageServers/server.c:201-231 | any run can be carried on until each request is answered once in that sense |

## Left out

- LIST_ALL delivery, whose status and paths are sent in an order the client does not expect; here it is one outcome of dispatch.
- The formatting of file information, directory creation and removal, and the alive-check threads.
- Sockets, partial receives, thread creation, logging and printing, among it the client's own messages around file data; channels carry whole packets.
- Command parsing and whitespace trimming in the client: short, with nothing that prints commands back.
- Data races inside one trie or cache call between handler threads: each call is one step.
- Truncation of paths, buffer sizes and the limit of 1000 paths: the listing requires room for its paths.
- Failures of `stat` and `opendir` during the listing, and of the client's temporary file.
- The storage server's search for a path's index before it takes the mutex; a request carries any lock index.
- The lists of accessible paths that the naming server keeps per server beside the trie; only LIST_ALL reads them.
- StorageServer.Atomicity: emptying a file that could be opened for reading is taken to succeed, and a read handle follows the path rather than the open file.
