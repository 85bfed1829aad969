# CppDB in Dafny

CppDB is an in-memory SQL engine: a B-tree per table, a hash map and an LRU cache in front of it, a query planner, a
lexer and parser, and a TCP server built on a thread pool, a readers-writer lock and a lock-free queue. This project
models those parts and proves that each does what the rest of the engine relies on.

- **Storage.** `BTree*.dfy` is the B-tree with preemptive splitting and single-pass deletion. Its `Valid()` is the whole
  B-tree invariant and `Model()` is the finite map it stands for. `HashMap.dfy` is open addressing with tombstones over an
  array. `LRUCache.dfy` is the recency list of heap nodes with that hash map as its index, specified by `Recency.dfy`.
- **Tables and queries.** `Rows.dfy`, `Table.dfy`, `Where.dfy` and `Executor.dfy`: typed rows, a table whose cache always
  agrees with its tree, and a planner whose answers are those of filtering every row.
- **Concurrency.** `LockFreeQueue.dfy`, `RWLock.dfy`, `ThreadPool.dfy`, `Strand.dfy` and `CacheProtocol.dfy` are state
  machines. A step is one atomic access or one critical section of one thread. Theorems speak of every run: any number of
  threads, any interleaving, spurious wakeups and reused addresses and descriptors included. A step that would touch freed
  memory or a foreign descriptor is not excluded: it sets a flag, which is proved never to be set.
- **SQL text.** `Lexer.dfy`, `Parser.dfy` and `Query.dfy`: the scanning loops and the token cursor, proved equal to a grammar
  (`Sql.dfy`) that is the inverse of printing.

Exceptions are `None`, `Rejected` or `false` results. Integers are unbounded except for row cells and id literals, which
are 64-bit.

Where comments and code disagree, the model follows the code:

- `include/structures/BTree.hpp:34` says a duplicate insert changes nothing. Full nodes are still split on the way down;
  what does not change is the map.
- `include/query/Lexer.hpp:12` says strings have no escape sequences. The lexer reads a doubled quote as one quote, for
  both kinds of quote.
- `include/concurrency/ThreadPool.hpp:18` mentions the lock-free queue in the server. The server does not use it, so the
  queue is modelled on its own.

## Model

| member | source | states |
|---|---|---|
| `BTreeInsert.SplitChild` | include/structures/BTree.hpp:139-165 | splitting a full child keeps shape and occupancy and the entries in order; exactly one separator is added, at position i, and both halves have t-1 keys |
| `BTreeInsert.InsertNonFull` | include/structures/BTree.hpp:167-182 | in a node that is not full, the entry is added in key order exactly when the key is absent; a duplicate leaves the entries alone, even when the rising median is the key |
| `BTrees.BTree.Make` | include/structures/BTree.hpp:28-32 | a tree exists exactly for a minimum degree of at least 2, and starts valid and empty |
| `BTrees.BTree.Insert` | include/structures/BTree.hpp:35-53 | keeps the whole invariant; adds exactly the new binding when the key is absent, changes no binding otherwise, and says which |
| `BTrees.BTree.Search` | include/structures/BTree.hpp:55-63 | finds exactly the bound value |
| `BTreeScan.Find` | include/structures/BTree.hpp:55-63 | the walk down from the root succeeds exactly when some node holds the key |
| `BTrees.BTree.Store` | include/structures/BTree.hpp:55-63 | writing through the pointer `search` returned rebinds that key only and keeps the invariant |
| `BTrees.BTree.Remove` | include/structures/BTree.hpp:71-80 | keeps the whole invariant through borrowing, merging and root shrinking; the map loses exactly that key; returns whether it was there |
| `BTreeRemove.RemoveFrom` | include/structures/BTree.hpp:187-229 | every call enters the root or a node with at least t keys, which makes the defensive self-call unreachable and height a termination measure; the entries lose exactly the key |
| `BTreeRemove.TakeMax` | include/structures/BTree.hpp:233-247 | takes the last entry of a subtree whose root has at least t keys and leaves a balanced subtree of the same height |
| `BTreeRemove.TakeMin` | include/structures/BTree.hpp:249-261 | the same for the first entry |
| `BTreeRemove.FillChild` | include/structures/BTree.hpp:265-277 | leaves the entries alone and makes the child that covers the same gap hold at least t keys |
| `BTreeRemove.BorrowFromPrev` | include/structures/BTree.hpp:281-296 | the rotation keeps entries, order and occupancy; the child reaches t keys |
| `BTreeRemove.BorrowFromNext` | include/structures/BTree.hpp:298-312 | the mirror rotation |
| `BTreeRemove.MergeChildren` | include/structures/BTree.hpp:316-336 | two minimal children and their separator become one child of exactly 2t-1 keys; the entries stay |
| `BTrees.BTree.ForEachInOrder` | include/structures/BTree.hpp:87-89 | visits every binding once, in ascending key order |
| `BTreeScan.InOrder` | include/structures/BTree.hpp:339-345 | the recursion visits a subtree's entries in order |
| `BTrees.BTree.ForEachRange` | include/structures/BTree.hpp:93-95 | visits exactly the bindings with lo <= key <= hi, ascending, for all bounds |
| `BTreeScan.RangeVisit` | include/structures/BTree.hpp:348-354 | the pruned recursion equals the full traversal restricted to the range |
| `BTreeScan.WithinExact` | include/structures/BTree.hpp:91-95 | the restriction keeps only what is in range and misses nothing in range |
| `BTrees.BTree.Height` | include/structures/BTree.hpp:97-105 | the number of levels h, with at least 2t^(h-1) - 1 entries stored |
| `BTreeCheck.HeightBound` | include/structures/BTree.hpp:97-105 | minimum occupancy compounds over the levels, so height is logarithmic in the entry count |
| `BTrees.BTree.CheckInvariants` | include/structures/BTree.hpp:109-116 | answers true exactly on trees that satisfy the declared invariant, for any root and count |
| `BTreeCheck.CheckNode` | include/structures/BTree.hpp:356-386 | the node-local tests with threaded leaf depth and count decide global order, balance and occupancy |
| `HashMaps.MaskIsModulo` | include/structures/HashMap.hpp:101-103 | masking with a power of two less one is the remainder |
| `HashMaps.HashMap.constructor` | include/structures/HashMap.hpp:22-26 | starts valid and empty with a power-of-two capacity: the least one that is at least 16 and at least what was asked for |
| `HashMaps.HashMap.FindSlot` | include/structures/HashMap.hpp:107-116 | for every hash function, finds a key's slot exactly when the key is stored |
| `HashMaps.HashMap.Locate` | include/structures/HashMap.hpp:118-142 | the probe loop ends because the load bound leaves an empty slot; it finds the key, or the earliest slot of the key's chain that is free, a tombstone before an empty slot |
| `HashMaps.HashMap.Place` | include/structures/HashMap.hpp:118-142 | adds or overwrites one binding and keeps every key reachable and unique |
| `HashMaps.HashMap.ReserveForOneMore` | include/structures/HashMap.hpp:145-149 | exactly when one more slot would pass 70% load, one rehash makes room: doubled when over 40% live, else at the same size; no tombstone is left and the bindings stay |
| `HashMaps.HashMap.Rehash` | include/structures/HashMap.hpp:151-162 | the new table holds the same bindings and no tombstones |
| `HashMaps.HashMap.Insert` | include/structures/HashMap.hpp:29-32 | adds the binding exactly when the key is absent |
| `HashMaps.HashMap.InsertOrAssign` | include/structures/HashMap.hpp:35-38 | binds the key to the value, and says whether it is new |
| `HashMaps.HashMap.Find` | include/structures/HashMap.hpp:40-43 | the bound value, or none |
| `HashMaps.HashMap.Erase` | include/structures/HashMap.hpp:52-59 | removes exactly that key; the tombstone keeps all other keys reachable |
| `HashMaps.Buried` | include/structures/HashMap.hpp:52-59 | a tombstone breaks no other probe chain |
| `HashMaps.Filled` | include/structures/HashMap.hpp:118-142 | filling the earliest tombstone of a chain keeps every key on its own chain, once |
| `LRUCaches.LRUCache.Make` | include/structures/LRUCache.hpp:24-28 | capacity zero is rejected |
| `LRUCaches.LRUCache.Put` | include/structures/LRUCache.hpp:32-44 | the recency sequence gets the entry in front, loses an older one for the key, and loses its last entry exactly when the key is new and the cache full; every index entry still names its own node |
| `LRUCaches.LRUCache.Get` | include/structures/LRUCache.hpp:48-57 | returns the cached value, moves a hit to the front, and counts the hit or miss |
| `LRUCaches.LRUCache.Peek` | include/structures/LRUCache.hpp:60-63 | returns the cached value and changes nothing |
| `LRUCaches.LRUCache.Erase` | include/structures/LRUCache.hpp:67-73 | forgets exactly that key |
| `LRUCaches.LRUCache.Clear` | include/structures/LRUCache.hpp:75-78 | forgets everything and keeps the counters |
| `LRUCaches.LRUCache.Touch` | include/structures/LRUCache.hpp:90 | splicing a node to the front keeps the order of the others and every iterator valid |
| `Recency.RunKeepsRecency` | include/structures/LRUCache.hpp:30-78 | after every run of operations the cache is within capacity, ordered by last use, and holds only the latest value put under each key; what it must hold is `Recency.KeptUntilCrowdedOut` |
| `Recency.KeptUntilCrowdedOut` | include/structures/LRUCache.hpp:30-78 | in every run, a key that was put, or asked for and found, is found with its latest value until it is erased or cleared or as many other keys as the capacity have been put or asked for since |
| `Recency.EvictsLeastRecent` | include/structures/LRUCache.hpp:30-44 | what a put pushes out of a full cache was used longer ago than everything that stays |
| `Rows.AddColumn` | src/core/schema.cpp:50-58 | rejects exactly empty and taken names, keeps names unique, adds the column and changes no other lookup |
| `Rows.ParseExactly` | src/core/schema.cpp:35-48 | a text is read as an integer exactly when it is that integer's decimal digits, after any zeros and an optional minus sign, and the integer is between -9223372036854775808 and 9223372036854775807; every other text is rejected |
| `Rows.SuitsExactly` | src/core/schema.cpp:35-48 | every text suits a TEXT column; exactly the decimal texts of 64-bit integers suit an INT column |
| `Rows.SetCellEffect` | src/core/row.cpp:39-59 | a successful assignment makes a TEXT cell the literal itself and an INT cell the integer the literal spells, leaves every other cell, and keeps a complete row complete |
| `Rows.ValidateIsComplete` | src/core/schema.cpp:77-84 | a row of the schema passes validation exactly when no cell is unset |
| `Rows.AssignedEffect` | src/core/table.cpp:128-130 | assignments that passed the check cannot fail on a row; each column has the text or the integer its last literal spells, and other cells stay |
| `Rows.AssignableExactly` | src/core/table.cpp:106-119 | an assignment passes the check exactly when it names a column of the schema other than id whose type can hold its literal |
| `Rows.LastAssignedExactly` | src/core/table.cpp:128-130 | the winning literal of a column is the one of its last assignment in the list |
| `Tables.Table.Make` | src/core/table.cpp:8-16 | rejects exactly schemas without an INT id column and a zero cache capacity |
| `Tables.Table.Insert` | src/core/table.cpp:20-32 | rejects exactly foreign and incomplete rows; files a row under its id cell unless the id is taken |
| `Tables.Table.FindById` | src/core/table.cpp:34-47 | returns what a bare search of the tree returns and leaves the rows alone; a hit is promoted, a found miss is cached, another miss leaves the cache alone |
| `Tables.Table.DeleteById` | src/core/table.cpp:49-57 | removes exactly that row, and forgets exactly it when it was there |
| `Tables.Table.SelectWhere` | src/core/table.cpp:64-72 | the matching rows in ascending id order |
| `Tables.SelectedExactly` | src/core/table.cpp:64-72 | the rows a scan selects are those stored under exactly the ids that match, each once, in ascending id order |
| `Tables.Table.DeleteWhere` | src/core/table.cpp:78-90 | removes exactly the matching rows, from tree and cache, and returns how many matched |
| `Tables.Table.UpdateWhere` | src/core/table.cpp:102-137 | rejects bad assignments and changes nothing, or maps exactly the rows that matched beforehand through the assignments, whose cells `Tables.UpdatedExactly` gives; every row stays under its id; the cache forgets exactly the changed ids; returns the match count |
| `Tables.UpdatedExactly` | src/core/table.cpp:121-131 | after an update the same ids are there, rows that did not match are as they were, and in those that did each column has the cell its last literal spells, or the one it had |
| `Tables.Table.SelectIdRange` | src/core/table.cpp:139-145 | the rows with lo <= id <= hi in ascending id order |
| `Tables.IdsMatch` | src/core/table.cpp:80-83 | the collecting scan finds each matching id once |
| `Where.CompareTextSign` | src/query/query_executor.cpp:58-61 | string comparison has the sign of dictionary order by first difference |
| `Where.ClauseOkExactly` | src/query/query_executor.cpp:40-49 | a clause is legal exactly when some column has its name and can hold its literal |
| `Where.MakePredicate` | src/query/query_executor.cpp:40-62 | compiles exactly the legal clauses, to the clause's meaning on every row |
| `Where.CellPresent` | src/query/query_executor.cpp:53-61 | on a row a table can hold, a legal clause finds a cell of its column's type, so the test cannot throw |
| `Where.MakeConjunction` | src/query/query_executor.cpp:65-78 | compiles exactly the lists whose clauses are all legal, to their conjunction |
| `Where.UpdateIsFound` | src/query/query_executor.cpp:50-62 | a row that went through checked assignments satisfies `column = literal` for the last literal each column got |
| `Executor.IdClauseIsRange` | src/query/query_executor.cpp:86-110 | every indexable id comparison is an inclusive 64-bit range, at both ends of the 64-bit range too |
| `Executor.RowsByIdClause` | src/query/query_executor.cpp:86-110 | point lookup and range scans return the rows a filter on that clause returns, in order; bounds never overflow |
| `Executor.FindIndexable` | src/query/query_executor.cpp:117-119 | the first indexable clause, or none exactly when there is none |
| `Executor.FetchRows` | src/query/query_executor.cpp:114-136 | the rows a filter over the whole conjunction returns, in the same order, failing on exactly the same lists |
| `Executor.PointDelete` | src/query/query_executor.cpp:246-249 | deleting one id equals deleting where the id equals it |
| `Executor.RunDelete` | src/query/query_executor.cpp:243-256 | DELETE removes and counts exactly the rows satisfying the conjunction, by either path, and changes nothing on an illegal clause |
| `Executor.RunUpdate` | src/query/query_executor.cpp:228-241 | UPDATE is all or nothing, and rewrites and counts exactly the matching rows; the rewritten cells are those of `Tables.UpdatedExactly`, and `Where.UpdateIsFound` finds them by their literals |
| `LockFreeQueue.StepKeeps` | include/concurrency/LockFreeQueue.hpp:43-60 | every atomic step of push and pop keeps the chain from stub to tail, each missing link owed by one producer, and every heap node reachable or private |
| `LockFreeQueue.RunSafe` | include/concurrency/LockFreeQueue.hpp:43-60 | in every run no step touches an address not in use; popped items are a prefix of tail-exchange order; the chain of distinct live nodes runs from stub to tail, a producer mid-push holds two neighbours of it, and one before its exchange holds a live node outside it |
| `LockFreeQueue.FreedIsUnreferenced` | include/concurrency/LockFreeQueue.hpp:43-60 | in every run, when pop frees the stub, neither the tail, the consumer, any producer nor any node's link points to it; so no pointer outlives its node and a reused address never meets an old pointer |
| `LockFreeQueue.FifoPerProducer` | include/concurrency/LockFreeQueue.hpp:43-60 | in every run each producer's popped items are a prefix of the items it called push with, in its order |
| `LockFreeQueue.EmptyMeansDrained` | include/concurrency/LockFreeQueue.hpp:52-54 | in every run, with no push mid-way, pop gets hold of an item exactly when something pushed has not been popped |
| `LockFreeQueue.PopFindsNext` | include/concurrency/LockFreeQueue.hpp:52-54 | in every run, pushes mid-way included, pop gets hold of an item exactly when one pushed has not been popped and no producer still owes the link out of the stub |
| `LockFreeQueue.PopTakesOldest` | include/concurrency/LockFreeQueue.hpp:52-60 | in every run a whole pop, whatever the producers do between its steps, hands out the oldest item not yet popped and nothing else |
| `LockFreeQueue.PushPublishes` | include/concurrency/LockFreeQueue.hpp:43-49 | in every run a push makes its producer hold its item, appends exactly that item at its exchange, and leaves the producer free at its link |
| `LockFreeQueue.Destroy` | include/concurrency/LockFreeQueue.hpp:30-37 | with no thread inside, the destructor's walk frees every node once and leaks none |
| `RWLocks.StepKeeps` | src/concurrency/rwlock.cpp:5-36 | every step keeps the counters equal to the threads they count, writers alone, and no wakeup lost |
| `RWLocks.MutualExclusion` | src/concurrency/rwlock.cpp:5-36 | in every run a writer is alone |
| `RWLocks.WriterPreference` | src/concurrency/rwlock.cpp:5-10 | in every run no reader enters while a writer waits or writes |
| `RWLocks.EntersExactly` | src/concurrency/rwlock.cpp:5-26 | in every run a reader that tests gets in exactly when no thread writes or waits to write, and a writer exactly when no thread reads or writes; otherwise they sleep |
| `RWLocks.FreeLockIsTaken` | src/concurrency/rwlock.cpp:12-36 | in every run, when the lock is free and a thread waits: if a writer waits, some waiting writer is awake and its next test admits it; if none does, every waiting thread is awake and its next test admits it |
| `RWLocks.ReadersEnter` | src/concurrency/rwlock.cpp:5-36 | in every run, whenever no writer waits or writes, every waiting reader is awake and its next test admits it, however many readers are inside |
| `ThreadPools.StepKeeps` | src/concurrency/thread_pool.cpp:18-56 | every step keeps task order, wakeups and shutdown consistent |
| `ThreadPools.TakenInOrder` | src/concurrency/thread_pool.cpp:29-48 | in every run the tasks taken followed by the tasks queued are exactly the accepted ones, in order |
| `ThreadPools.AcceptedAreSubmitted` | src/concurrency/thread_pool.cpp:29-38 | in every run the accepted tasks are exactly those submitted before the destructor began, in order |
| `ThreadPools.WorkerTakesOldest` | src/concurrency/thread_pool.cpp:40-56 | in every run a worker that looks runs the oldest task submitted and not yet taken; with none left it sleeps before the destructor begins and returns after |
| `ThreadPools.NeverStranded` | src/concurrency/thread_pool.cpp:29-48 | in every run, while a task waits, some worker is awake or a notify is still owed |
| `ThreadPools.NothingLeft` | src/concurrency/thread_pool.cpp:18-56 | in every run, when all workers have returned, every accepted task was taken |
| `ThreadPools.JoinCannotHang` | src/concurrency/thread_pool.cpp:18-27 | in every run, once the destructor joins, every worker that has not returned can step: none is asleep |
| `ThreadPools.JoinReturns` | src/concurrency/thread_pool.cpp:18-56 | in every run, from the moment the destructor joins, the workers have a fixed number of steps to take; they have taken them exactly when every worker has returned, every accepted task has then run, and until then some worker can step |
| `CacheProtocol.ActionKeeps` | src/core/table.cpp:20-57 | every action of concurrent lookups and writers keeps lock, cache and tree consistent, with stale ids known to the one writer |
| `CacheProtocol.CacheAgrees` | src/core/table.cpp:34-57 | in every interleaving, whenever no writer is inside, each cached row is the tree's row of that id |
| `CacheProtocol.FindReturnsTreeRow` | src/core/table.cpp:34-47 | in every interleaving, what findById returns is what a bare tree search for the id its thread last asked for would return at that moment |
| `CacheProtocol.LookupProgress` | src/core/table.cpp:34-47 | each step of a lookup brings it nearer its end, and a row it returns is then cached under the id it looked for |
| `CacheProtocol.WriteIsAtomic` | src/core/table.cpp:20-137 | in every interleaving, when a writer leaves the lock the tree is the one it found on getting the lock, changed by exactly what its thread asked for: an insert if the id was free, a delete of the id, a delete of all rows its scan picked, or all the changes its scan picked |
| `CacheProtocol.WorkKeepsGoal` | src/core/table.cpp:78-137 | every step of a writer brings it nearer its end and keeps the tree that the end will have |
| `Strands.StepKeeps` | src/network/tcp_server.cpp:153-227 | every step of the event loop and of the workers keeps the connection invariant |
| `Strands.OneDrainTask` | src/network/tcp_server.cpp:166-195 | in every run no drain task is started while its connection has one and none is submitted that is not owed; a connection is busy exactly when its one task is owed, queued or running; at most 1024 lines are pending |
| `Strands.ExecutedInOrder` | src/network/tcp_server.cpp:187-209 | in every run executed queries are queued lines at increasing positions, and a prefix of them when no reply of the connection failed to be written |
| `Strands.LostExactly` | src/network/tcp_server.cpp:200-207 | in every run a connection counts as having lost a reply exactly when a write to it failed |
| `Strands.QueuedAreLines` | src/network/tcp_server.cpp:153-181 | in every state of every run, however the bytes were cut into reads, the queued lines are a prefix of the non-empty lines received; what is missing is what is still in the inbox and, if a limit was hit, the one line that hit it, after which the connection is unlisted or next to be; when a limit is hit is `Strands.LimitIsReal` |
| `Strands.LimitIsReal` | src/network/tcp_server.cpp:157-176 | in every run a connection goes over its limit exactly when the loop takes a line of more than 65536 bytes off it, or takes a line while 1024 are pending |
| `Strands.DroppedForCause` | src/network/tcp_server.cpp:177-181 | in every run, once the loop has split what it read, it drops the connection exactly when that read saw the peer close, a limit was hit, or more than 65536 bytes are left without a newline |
| `Strands.LeavesOnlyDropped` | src/network/tcp_server.cpp:177-216 | in every run a connection leaves the map only by such a drop |
| `Strands.ReceivedIsRead` | src/network/tcp_server.cpp:140-151 | in every run what a connection has received is exactly the bytes read from its descriptor, in order |
| `Strands.LinesOfWire` | src/network/tcp_server.cpp:157-161 | the lines of a text are the non-empty lines that were sent, whether they ended in a newline or in a carriage return and a newline, and nothing of an unfinished one |
| `Strands.ClosedOnceAfterLastReply` | src/network/tcp_server.cpp:186-227 | in every run a descriptor is closed at most once, exactly when its connection is dropped and idle, after it left the map; no read, reply or close hits a reused descriptor |
| `Strands.DroppedIsClosed` | src/network/tcp_server.cpp:186-227 | in every run, once a connection is dropped at most 2050 more worker steps close its descriptor: each uses up work, nothing adds any, the descriptor is closed exactly when none is left, and until then a worker step is enabled |
| `Sql.ParsePrint` | src/query/parser.cpp:36-181 | parsing the symbols of any well-formed statement gives the statement back |
| `Sql.PrintParse` | src/query/parser.cpp:36-181 | whatever is accepted is the printed form of the result: nothing is skipped or invented |
| `Parsers.Parser.Advance` | src/query/parser.cpp:203-207 | steps over one token, and stays where it is at the sentinel |
| `Parsers.Parser.ParseIdentifierList` | src/query/parser.cpp:191-199 | reads the longest comma-separated list the grammar reads, leaving the same rest |
| `Parsers.Parser.ParseOptionalWhere` | src/query/parser.cpp:166-181 | reads the grammar's optional condition list, leaving the same rest |
| `Parsers.Parser.ParseCreateTable` | src/query/parser.cpp:51-76 | accepts and returns what the grammar does |
| `Parsers.Parser.ParseDropTable` | src/query/parser.cpp:79-86 | accepts and returns what the grammar does |
| `Parsers.Parser.ParseInsertInto` | src/query/parser.cpp:89-115 | accepts and returns what the grammar does, with equally many columns and values |
| `Parsers.Parser.ParseSelectFrom` | src/query/parser.cpp:118-131 | accepts and returns what the grammar does; a star is the empty column list |
| `Parsers.Parser.ParseUpdateSet` | src/query/parser.cpp:134-153 | accepts and returns what the grammar does |
| `Parsers.Parser.ParseDeleteFrom` | src/query/parser.cpp:156-164 | accepts and returns what the grammar does |
| `Parsers.Parse` | src/query/parser.cpp:36-48 | terminates with the cursor in bounds, returns the statement whose symbols the tokens are, and fails exactly when they are no statement's |
| `Lexers.ReadString` | src/query/lexer.cpp:72-98 | undoes doubled quotes up to the closing quote, and fails exactly when it never comes |
| `Lexers.ScanForward` | src/query/lexer.cpp:45-128 | a spelled lexeme is read back whole unless the text after it extends it |
| `Lexers.ScanBackward` | src/query/lexer.cpp:45-128 | whatever is read is the spelling of the lexeme, read as far as it goes |
| `Lexers.Tokenize` | src/query/lexer.cpp:37-134 | returns the tokens that read the lexemes of the text one by one, at their offsets and closed by the one END token; fails exactly when the text is no sequence of lexemes |
| `Lexers.LexForward` | src/query/lexer.cpp:37-134 | text made of properly separated lexemes, however spaced, gives exactly their tokens at their offsets: numbers with sign and digits, strings with their content, keywords in capitals, other words as they are |
| `Lexers.LexBackward` | src/query/lexer.cpp:37-134 | every accepted text is such a text |
| `Lexers.LexExactly` | src/query/lexer.cpp:37-134 | the lexer accepts exactly the legible texts, with exactly the tokens that read their lexemes |
| `Lexers.TokenReads` | src/query/lexer.cpp:51-125 | the token of a lexeme is the only one that reads it: a word equal to a keyword up to the case of each letter is that keyword, any other word is itself, a number keeps its sign and digits, a string its content |
| `Lexers.CharacterClasses` | src/query/lexer.cpp:23-31 | which characters are space, digits, start and continue a word, and quote, listed one by one |
| `Queries.ParseQuery` | src/query/query_executor.cpp:160-162 | lexer and parser together compute the reading of the text |
| `Queries.ReadText` | src/query/lexer.cpp:37-134 | writing a statement with legal names as text and reading it gives the statement back, whatever its literals contain |
| `Queries.ReadComplete` | src/query/parser.cpp:36-181 | any text that writes a statement's symbols one by one reads as that statement, however spaced: keywords in any case, literals as numbers or in either quote, names and operators as they are |
| `Queries.ReadSound` | src/query/parser.cpp:36-181 | a text that reads as a statement writes exactly its symbols, one by one in those spellings, and the statement is well-formed with legal names |
| `Queries.Expressible` | src/query/parser.cpp:36-181 | queries can ask for exactly the well-formed statements whose names are identifiers and no keyword in any case |
| `Queries.KeywordsAreUsed` | src/query/lexer.cpp:11-14 | every keyword is printed by some statement, so no other word is kept from being a name |

## Left out

- B-tree nodes are values inside a mutable tree: nodes have one owner in the source, and sharing of node memory is not modelled; keys are integers rather than any ordered type; null child pointers, which the self-check also tests, do not exist in the model.
- Memory orders: every atomic access is one sequentially consistent step.
- Fairness: wakeup and join theorems say which threads are able to proceed and how many of their steps it takes, not that the scheduler runs them.
- Sockets, kqueue, accept, read, send, the wakeup pipe and the server's own construction and destruction: received bytes, peer close and write success are free choices of a step.
- Query execution inside a drain task is one step that yields a reply; the reply's text is not modelled.
- CREATE TABLE, DROP TABLE and INSERT execution, the database's table registry, column projection in SELECT, reply formatting, error texts and which of several errors is reported first.
- Library internals: `std::from_chars`, `std::list`, `std::lower_bound`, `std::find_if` and `std::hash` enter by what they promise; the hash is any function.
- `size_t` overflow of capacities, counts and positions, and allocation failure.
- HashMap's `operator[]`, `forEach` and load factor; row count and cache counters of a table; row printing: easy next to what is here.
- Rows whose schema grew after construction: a row has one cell per column from the start.
- Row predicates are total: where the C++ closure would throw on a missing cell they answer false, which `Where.CellPresent` shows cannot happen on a stored row.
- UniquePtr, SharedPtr, PoolAllocator, the benchmark and the command line.
- Characters are taken as in the C locale; other locales of `isalpha` and `toupper` are not modelled.
