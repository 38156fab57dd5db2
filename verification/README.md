# A verified model of the mini DBMS

The repository is a small database server in C: a B+ tree index, a table of users that is
kept in memory and in an append-only text file, a pool of worker threads behind a bounded
queue, a hand-written SQL parser, a JSON printer, and an HTTP reader. This project models
those parts in Dafny and proves what they promise.

| file | models |
|---|---|
| `BPlusTreeModel.dfy` | the tree as a value: what an insert does, its shape, and that it is a map |
| `BPlusTree.dfy` | `src/bptree.c` on the heap: nodes with arrays of 31 keys, shifts, splits, root growth, the leaf chain |
| `TreeDestroy.dfy` | `node_destroy` |
| `ThreadPool.dfy` | `src/thread_pool.c`: the ring in place, the pool as a transition system, and its invariant |
| `PoolRuns.dfy` | whole runs of the pool: the freeing, how long a run can be, what it has done in the end |
| `Options.dfy`, `Text.dfy` | optional values; C strings, decimal printing, `strtol` and the integer conversion of `sscanf` |
| `Json.dfy` | `src/util.c`: the escaper and the growing builder, and a JSON reader to compare with |
| `DbModel.dfy` | the users table as a list of rows: decisions, counter, index, scan, lines of the file |
| `DataFile.dfy` | reading the data file back |
| `TableJson.dfy` | the row printer of `src/db.c` |
| `Db.dfy` | `src/db.c`: the engine over the records array, the counter, the tree and the file |
| `DbSteps.dfy` | INSERT and SELECT as interleaved small steps under the read-write lock |
| `SqlSteps.dfy` | SQL texts on that interleaved engine, against the interpreter |
| `Sql.dfy`, `SqlParser.dfy` | `src/sql.c`: the readers as functions with their round trip, and the cursor methods that refine them |
| `SqlTexts.dfy` | the texts of SQL statements word by word |
| `SqlGrammar.dfy`, `SqlNames.dfy` | that accepted texts are renderings, and that names stay free of NUL |
| `RequestReader.dfy`, `RequestText.dfy` | `src/http.c`: the request reader over a stream in pieces, and whole requests as clients write them |
| `SqlBody.dfy` | `src/http.c`: the extractor of the SQL text |
| `BodyTexts.dfy` | the bodies that carry a statement, written out |
| `Server.dfy` | `execute_statement` and `handle_query`, against an interpreter that only keeps a list of rows |
| `Replies.dfy` | what the replies say, read as JSON and byte by byte |
| `Client.dfy` | `handle_client`: one connection from its bytes to its reply |

## What is proved

**B+ tree.** Every insert, through leaf splits, inner splits and root growth, is the update
of a finite map, and every search is the lookup, for every tree that any sequence of inserts
reaches (`BPlusTree.BPlusTree.Insert`, `Search`, `BPlusTreeModel.SearchAfterRun`). Inserts
keep the shape: ascending keys, equal depth, at most 31 keys, at least 16 in a leaf and 15 in
an inner node other than the root, each separator the least key to its right
(`InsertGood`). A tree with h inner levels holds at least 2 * 16^h keys, so the search loop
looks at h + 1 nodes at most (`HeightBound`, `Search`). The `next` chain visits every leaf
once in order and lists the map (`LeafChain`).

**Thread pool.** An invariant over every interleaving of any number of workers and
submitters, one shutdown and spurious wakeups: the ring is a first-in first-out queue, every
descriptor is accounted for until it is closed, and no wakeup is lost. Shutdown waits for
the workers and then destroys the mutex and frees the ring, without waiting for submits
(`src/thread_pool.c:133-142`), and a use of the pool after that is a fault. `FreedUntouched`
gives the exact condition for a run from a fresh pool to its end: freed memory stays
untouched if and only if no submit is running when shutdown frees the pool and none begins
later. `LateSubmit` is a run that breaks it, with a descriptor that is neither accepted nor
refused. Under that condition a run that cannot go on has handed over every accepted
descriptor once, refused every other one once and closed each once (`WholeRun`). The server
meets it, because the thread that accepts is the one that shuts down, and so it refuses
nothing (`ServerRun`). While the pool is open every run with finitely many spurious wakeups
is finite and ends with everything offered handed over (`OpenRun`); from the flag of shutdown
on, every run is finite.

**Engine.** Array, counter, tree and file agree in every reachable state. Reloading the file
of any run gives the same rows if and only if no id is INT_MAX, where the original would
overflow. Ids stay unique as long as the counter has not reached INT_MAX; `InsertKeepsUnique`
gives the exact condition and `ExhaustingRun` a run of three inserts that breaks it. `WHERE id = n`
through the tree is the linear scan if and only if n is stored at most once. The text of a
result, read by a JSON reader, is exactly the list of projected rows, and two results have the
same text only if the rows agree.

**Concurrency.** With INSERT split into append, store, count, counter and index steps, every
SELECT finds exactly the rows of the table after a prefix of the completed INSERTs that lies
between its call and its return, and every INSERT is decided on the table before it. With
SQL texts as the operations of the threads, every finished text has the reply of the naive
interpreter run on the texts in the order in which their inserts completed
(`SqlSteps.TextsLinearize`), at a point between its asking and its reply
(`SqlSteps.TextRealTime`).

**Texts.** The parser accepts a text with a statement as its result if and only if the text
spells that statement: its keywords and columns in any letter case, white space where words
need it, numbers in any digits, and at most one semicolon (`SqlTexts.SpelledIff`, stated
without the parser's tokens and letter tables). The reader of HTTP requests gives the same
outcome for every way of cutting the stream into pieces when the headers are steady, and
`SteadyIff` shows that this condition is exact; `RequestOutcome` and its neighbours give the
outcome of every request that a client writes, accepted or rejected, against both limits.
`BodyTexts.ExtractIff` says exactly which bodies carry which statement.

**Replies.** The reply to every select, read by a JSON reader, lists exactly the rows that
the condition asks for, in their order, with the asked columns in theirs
(`Replies.SelectReads`); `Replies.InsertReads` does the same for inserts. Both are stated
without the filters and projections of the engine.

**Histories.** For every sequence of SQL texts and every table, the engine behind the parser
ends with the rows of a naive interpreter; the replies are the same too, if and only if no
statement asked for an id that was stored twice at that moment (`Server.History`);
`AmbiguousHistory` is such a history. The interpreter has a test and columns of its own.
`Client.QueryAnswered` joins the layers: a text that a client escapes, wraps and sends, in any
pieces, has its own reply.

The main results are lemmas over functions; the methods, which work in place as the C code
does, are proved against those functions.

## Reading the model

A `char` stands for one byte, also for the JSON reader, which neither asks for UTF-8 nor
reads surrogate pairs, and a C string for the bytes before its terminator. Integers
are unbounded; the limits of C (INT_MAX, the 127 bytes of a name, the 512 bytes of a line,
31 keys, 64-bit `strtoul`) are written out. Memory allocation succeeds. The capacity of the
queue and the sizes of the request and SQL buffers are parameters, except where a bound
matters. The pieces that `recv` delivers, the threads that run next and the threads that a
signal wakes are arbitrary. Where code and documentation differ the model follows the code:
the reply to a query is the bare array of rows (`src/server.c:179-180`), and
`execute_statement` has the INSERT with an id and the projections (`src/server.c:74-118`).
Copy loops that the C code repeats are methods of their own (`ShiftUp`, `Gather`,
`CopyRange`, `WriteAt`).

## Model

| member | source | states |
|---|---|---|
| `BPlusTreeModel.InsertFlat` | src/bptree.c:142-225 | the entries of a tree after an insert, split or not, are its entries with key k put in: nothing else moves, appears or is lost |
| `BPlusTreeModel.InsertAdded` | src/bptree.c:68-73 | the insert reports a new key exactly when the key was not stored before |
| `BPlusTreeModel.FindFlat` | src/bptree.c:259-281 | the descent by separators and the scan of one leaf find what a search through all entries finds, also for absent keys |
| `BPlusTreeModel.Routing` | src/bptree.c:131-140 | the child that the separators choose is the only one that can hold the key: everything before it is smaller, everything after it larger |
| `BPlusTreeModel.InsertShape` | src/bptree.c:142-225 | an insert keeps ascending keys, equal depth, fill bounds and separators equal to the least key on their right, in one node or in both halves of a split |
| `BPlusTreeModel.InsertGood` | src/bptree.c:227-257 | the tree under the old or the new root is again a good tree, so every reachable tree is |
| `BPlusTreeModel.ShapeSizes` | src/bptree.c:75-224 | in numbers: at most 31 keys in every node and one child more, at least 16 entries in a leaf and 15 keys in an inner node other than the root |
| `BPlusTreeModel.PutMiddle` | src/bptree.c:148-152 | putting a key into the entries of one child puts it into the entries of the whole node |
| `BPlusTreeModel.ToMapPut` | src/bptree.c:227-240 | putting an entry into ascending entries is the update of the map |
| `BPlusTreeModel.ToMapSize` | src/bptree.c:236-240 | ascending entries are as many as the keys of the map |
| `BPlusTreeModel.LookupIsMap` | src/bptree.c:272-280 | looking up a key among ascending entries is the lookup in the map |
| `BPlusTreeModel.BuildIsMap` | src/bptree.c:227-257 | after every sequence of inserts the tree holds the map that the same sequence of updates makes |
| `BPlusTreeModel.SearchAfterRun` | src/bptree.c:227-281 | after every sequence of inserts a search finds the last value of its key, or nothing for a key that was never inserted |
| `BPlusTreeModel.SubtreeSize` | src/bptree.c:107-120 | a subtree of height h below the root holds at least 16^(h+1) entries |
| `BPlusTreeModel.HeightBound` | src/bptree.c:227-267 | a tree with h inner levels holds at least 2 * 16^h keys |
| `BPlusTreeModel.RebalanceShape` | src/bptree.c:157-224 | a node that took one more separator keeps the shape, whole or split at the middle separator |
| `BPlusTreeModel.GraftSplit` | src/bptree.c:157-168 | putting the two halves of a split child in place of the child keeps separators and children in step |
| `BPlusTree.ShiftUp` | src/bptree.c:76-79 | the shift loop moves the elements from c on up by one and leaves the others |
| `BPlusTree.InsertAt` | src/bptree.c:158-165 | shift and store together insert one element at position c of the array |
| `BPlusTree.Gather` | src/bptree.c:90-99 | the copy into the temporary array leaves room for the new element at its position |
| `BPlusTree.CopyRange` | src/bptree.c:111-120 | the copy loop copies count elements from position lo |
| `BPlusTree.LeafFindPosition` | src/bptree.c:52-61 | the loop stops at the number of entries with a smaller key |
| `BPlusTree.LeafShift` | src/bptree.c:75-84 | the leaf holds its entries with the new one inserted at its position |
| `BPlusTree.LeafGather` | src/bptree.c:86-99 | the temporary arrays hold the 31 old entries and the new one in order |
| `BPlusTree.LeafFill` | src/bptree.c:110-120 | a node is filled with one part of the gathered entries |
| `BPlusTree.LeafSplit` | src/bptree.c:86-128 | the leaf keeps the first 16 of the 32 entries, a fresh leaf has the other 16, and the chain goes through both |
| `BPlusTree.LeafInsert` | src/bptree.c:63-129 | in place, the leaf does what the model insert does: overwrite, shift or split, with the promoted key and the report of a new key |
| `BPlusTree.ChildIndexForKey` | src/bptree.c:131-140 | the loop computes the number of separators that are at most the key |
| `BPlusTree.NodeShift` | src/bptree.c:157-168 | separator and right half are shifted into the node in place |
| `BPlusTree.NodeGather` | src/bptree.c:170-190 | the temporary arrays hold 32 separators and 33 children in order |
| `BPlusTree.NodeFill` | src/bptree.c:202-219 | an inner node is filled with one part of the gathered separators and children |
| `BPlusTree.ClearChildren` | src/bptree.c:209-211 | the slots behind the last child become null and those before stay |
| `BPlusTree.NodeSplit` | src/bptree.c:192-224 | the node keeps 16 separators, a fresh node has 15, and separator 16 goes up |
| `BPlusTree.NodePromote` | src/bptree.c:155-225 | the node takes a promoted key and right half: it refines the model's rebalancing, keeps all footprints apart and the order of the leaves |
| `BPlusTree.NodeAbsorb` | src/bptree.c:157-168 | the same when there is room for one more separator |
| `BPlusTree.NodeOverflow` | src/bptree.c:170-224 | the same when the node has to split |
| `BPlusTree.NodeInsert` | src/bptree.c:142-225 | the recursive insert on the heap refines the model insert, touches only the subtree and fresh nodes, and keeps the leaf chain to the exit leaf |
| `BPlusTree.LeafCase` | src/bptree.c:144-146 | the case of a leaf |
| `BPlusTree.InnerCase` | src/bptree.c:148-153 | the case of an inner node, up to the result of the child |
| `BPlusTree.InnerFinish` | src/bptree.c:151-225 | the case of an inner node, from the result of the child on |
| `BPlusTree.GrowRoot` | src/bptree.c:246-256 | the new root holds the promoted key over the two halves |
| `BPlusTree.RootInsert` | src/bptree.c:236-257 | an insert from the root, with or without root growth, refines the model |
| `BPlusTree.RootOrLeafInsert` | src/bptree.c:229-257 | the same for a tree that may be empty |
| `BPlusTree.FindLeaf` | src/bptree.c:261-266 | the loop ends at a leaf in which the key has the value it has in the tree, after Height + 1 nodes |
| `BPlusTree.BPlusTree.constructor` | src/bptree.c:39-43 | an empty tree is the empty map |
| `BPlusTree.BPlusTree.Insert` | src/bptree.c:227-257 | the contents become the old map with k bound to v, size is the number of keys, the shape is kept, and only the tree's own objects change |
| `BPlusTree.BPlusTree.Search` | src/bptree.c:259-281 | found and value are the lookup in the map, and the loop visits at most 1 + log16(size / 2) nodes once the root has split |
| `BPlusTree.BPlusTree.LeafChain` | src/bptree.c:122-123 | following next from the leftmost leaf visits every leaf exactly once, ends in null, and lists the map in ascending order |
| `BPlusTree.InsertContents` | src/bptree.c:236-240 | the map, the size and the shape after an insert, in one statement about the model |
| `BPlusTree.SearchContents` | src/bptree.c:259-281 | the search of the model is the lookup in the map, within the height bound |
| `BPlusTree.LeavesDistinct` | src/bptree.c:122-123 | no leaf stands at two places of the tree |
| `BPlusTree.LeavesList` | src/bptree.c:122-123 | the entries read off the leaves in chain order are the entries of the tree |
| `BPlusTree.AssembleTwo` | src/bptree.c:202-219 | the two halves of a split inner node use every child exactly once and stay apart |
| `TreeDestroy.NodeDestroy` | src/bptree.c:24-37 | the trace of reads and frees: it frees exactly the nodes of the tree, each once and after its children, and uses no node after it was freed |
| `TreeDestroy.TouchesSafe` | src/bptree.c:30-36 | nothing that the recursion does to a node comes after the freeing of that node |
| `TreeDestroy.TouchesFree` | src/bptree.c:30-36 | what the recursion frees is the list of all nodes, children first |
| `TreeDestroy.AllNodesOnce` | src/bptree.c:30-36 | no node occurs twice among those that the recursion reaches |
| `TaskRing.PutQueue` | src/thread_pool.c:113-115 | storing at tail and moving it around the ring appends to the queue |
| `TaskRing.TakeQueue` | src/thread_pool.c:23-25 | reading at head and moving it around the ring removes the oldest entry |
| `TaskRing.PoolQueue.constructor` | src/thread_pool.c:41-58 | a fresh queue is empty and has the given capacity |
| `TaskRing.PoolQueue.Enqueue` | src/thread_pool.c:113-115 | the fields in place become those of the ring after a put, and the queue gets the descriptor at its end |
| `TaskRing.PoolQueue.Dequeue` | src/thread_pool.c:23-25 | the fields in place become those of the ring after a take, and the oldest descriptor is returned |
| `ThreadPool.StepKeepsInv` | src/thread_pool.c:6-135 | every step of every worker, submitter, shutdown and spurious wakeup keeps the invariant |
| `ThreadPool.InitInv` | src/thread_pool.c:35-82 | a fresh pool satisfies it, with any number of workers and submitters |
| `ThreadPool.RunKeepsInv` | src/thread_pool.c:6-135 | so it holds in every reachable state |
| `ThreadPool.StepKeepsLock` | src/thread_pool.c:13-27 | the mutex is held by exactly the thread whose position says so, and what a thread knows after its waiting loop stays true |
| `ThreadPool.WorkerKeepsWakeful` | src/thread_pool.c:13-27 | no worker step loses a wakeup: sleeping workers imply that waiting descriptors are covered by workers on their way or by signals still to come, and likewise for free slots |
| `ThreadPool.SubmitterKeepsWakeful` | src/thread_pool.c:102-117 | no step of a submit loses a wakeup |
| `ThreadPool.OtherKeepsWakeful` | src/thread_pool.c:127-131 | neither do shutdown and spurious wakeups |
| `ThreadPool.WorkerKeepsFifo` | src/thread_pool.c:23-25 | what was accepted is what was taken followed by what waits, after a worker's step |
| `ThreadPool.SubmitterKeepsFifo` | src/thread_pool.c:113-115 | and after a submitter's step |
| `ThreadPool.WorkerKeepsAccount` | src/thread_pool.c:23-29 | a worker neither loses nor doubles a descriptor between the ring and the handler |
| `ThreadPool.SubmitterKeepsAccount` | src/thread_pool.c:108-118 | a submit decides on its descriptor once, and returns what it decided |
| `ThreadPool.WorkerKeepsClosing` | src/thread_pool.c:18-21 | a worker leaves only when the pool stops and the queue is empty, so the queue is empty once one has left |
| `ThreadPool.OwnerCanMove` | src/thread_pool.c:13-27 | the thread that holds the mutex has an enabled step, unless freed memory was used |
| `ThreadPool.StuckWhileOpen` | src/thread_pool.c:14-16 | a running pool in which nobody can move is idle: empty queue, all workers asleep, no submit waiting |
| `ThreadPool.StuckAfterClose` | src/thread_pool.c:127-142 | unless freed memory was used, nobody can move after shutdown only when all workers have exited and shutdown has joined them and freed the pool |
| `ThreadPool.Delivered` | src/thread_pool.c:18-29 | then the descriptors handed over are those whose submit returned 1, each exactly once, taken out in the order in which they were stored; every other one was refused once; and each was closed once |
| `ThreadPool.DeliveredWhileOpen` | src/thread_pool.c:13-29 | an open pool in which nobody can move has handed over and closed everything offered, and refused nothing |
| `PoolRuns.OnlySubmitsFault` | src/thread_pool.c:133-142 | workers never use the freed pool; only a submit can |
| `PoolRuns.FreedUntouched` | src/thread_pool.c:100-142 | from a fresh pool to where nobody can go on: freed memory was used if and only if a submit was running when shutdown freed the pool or began later |
| `PoolRuns.FreedSafely` | src/thread_pool.c:137-142 | at the freeing: no continuation uses freed memory if and only if no submit is running then and none is still to come |
| `PoolRuns.LateSubmit` | src/thread_pool.c:102-142 | a run in which a submit that has begun locks the freed mutex, and its descriptor is neither accepted nor refused |
| `PoolRuns.AcceptorIsSafe` | src/server.c:287-313 | a caller that shuts down after its last submit never uses the freed pool and is never refused |
| `PoolRuns.StepDecreases` | src/thread_pool.c:6-142 | every step lowers a measure, except a spurious wakeup before shutdown has set its flag; from the flag on those do too |
| `PoolRuns.RunsEnd` | src/thread_pool.c:6-142 | the length of every run, before and after shutdown, is bounded by its first state and its spurious wakeups |
| `PoolRuns.RunsEndAfterFlag` | src/thread_pool.c:128-135 | from the flag of shutdown on, the length of every run is bounded by its first state alone, if handlers return |
| `PoolRuns.OpenRun` | src/thread_pool.c:6-119 | without any shutdown: runs are finite, and where one cannot go on everything offered was handed over once and closed once |
| `PoolRuns.WholeRun` | src/thread_pool.c:6-142 | over whole runs in which no submit is running at the freeing and none begins later: each offered descriptor is handed over exactly once or refused exactly once, and closed exactly once, the queue ends empty, and no worker stays behind |
| `PoolRuns.ServerRun` | src/server.c:287-313 | the server never uses the freed pool, refuses no connection, and each is handed over once and closed once |
| `Text.ValueDecimal` | src/db.c:282 | a printed number has its value |
| `Text.DecimalLength` | src/db.c:282 | a number below 10^e has at most e digits |
| `Text.ReadDecimal` | src/db.c:202 | the integer conversions read a printed number back, after any white space, and leave the rest |
| `Text.DecimalDigit` | src/db.c:282 | the k-th digit that is printed, from the right, is n / 10^k mod 10 |
| `Text.ReadSigned` | src/http.c:75 | a sign before the number: minus makes it negative, plus is passed over |
| `Text.IntegerIff` | src/db.c:202 | an integer conversion reads n and stops at the rest exactly when the text is white space, a sign or none, digits of that value, and a rest that does not go on with a digit |
| `Text.UpToNulCut` | src/http.c:168-169 | the first NUL ends the body as a C string, whatever follows it |
| `Text.CharClasses` | src/sql.c:16-44 | white space, digits, letters and word characters, byte by byte |
| `Text.RecasedIff` | src/sql.c:54 | two texts are the same without case exactly when they differ in capitals and small letters 32 apart, and in nothing else |
| `Json.EscapeChar` | src/util.c:154-187 | one byte becomes one to six bytes, none of them below 0x20 |
| `Json.EscapeTable` | src/util.c:154-187 | every escape in full, with four small hexadecimal digits for the other control bytes |
| `Json.ReadEscaped` | src/util.c:134-192 | a reader of RFC 8259 strings over bytes gets every text back from its escaped form, so no raw quote or lone backslash is left in it |
| `Json.ReadShown` | src/db.c:89-145 | the reader gets every value back from its printed form, whatever its nesting and its strings, and stops at its end |
| `Json.EscapeDup` | src/util.c:134-192 | the buffer holds the escaped text and its terminator; before input byte i the write position is at most 6 * i, so 6 * len + 1 bytes are enough |
| `Json.WriteAt` | src/util.c:154-187 | the writes at pos++ append to what was written and change nothing before it |
| `Json.JsonBuilder.constructor` | src/util.c:17-27 | an empty builder |
| `Json.JsonBuilder.Reserve` | src/util.c:37-68 | the capacity suffices for extra bytes and the terminator, and the contents survive the reallocation |
| `Json.JsonBuilder.Append` | src/util.c:70-81 | the contents are the old contents followed by the text |
| `Json.JsonBuilder.AppendFormatted` | src/util.c:83-106 | the same for a formatted text, also when the first attempt was cut off |
| `Json.JsonBuilder.AppendString` | src/util.c:108-122 | the same for the quoted, escaped text |
| `Json.JsonBuilder.Take` | src/util.c:124-132 | the text that was built is given away, and the builder is left without buffer and contents |
| `DbModel.LastIndexIs` | src/db.c:147-163 | the index maps every stored id, and no other, to the last position that carries it, also with duplicate ids |
| `DbModel.NextIdStep` | src/db.c:290-299 | storing a row changes counter and index as the assignments of the code do |
| `DbModel.IdsBelowCounter` | src/db.c:292-294 | every stored id is below the counter, except INT_MAX |
| `DbModel.CounterFollows` | src/db.c:292-294 | the counter is 1 or one more than an id that is stored |
| `DbModel.AutoIdTaken` | src/db.c:271 | the automatic id is stored already if and only if the counter and a stored id are INT_MAX |
| `DbModel.InsertKeepsUnique` | src/db.c:257-294 | an accepted insert keeps the ids unique if and only if it is explicit, the counter is below INT_MAX, or INT_MAX is not stored |
| `DbModel.ExhaustedCounter` | src/db.c:292-294 | a table of two rows for which the next automatic insert repeats an id |
| `DbModel.AutoIdsGrow` | src/db.c:292-294 | automatic ids grow strictly while the counter is below INT_MAX, whatever is stored in between |
| `DbModel.DecidedIsRow` | src/db.c:252-273 | an accepted insert stores a row whose fields fit the limits, its name cut to 127 bytes |
| `DbModel.DecideIs` | src/db.c:252-273 | which values are refused, when an id is a duplicate, and the id, the name cut to 127 bytes and the age of the row that is stored otherwise |
| `DbModel.IndexIsScan` | src/db.c:352-362 | WHERE id = n through the index gives what the scan gives if and only if n is stored at most once |
| `DbModel.ScanTwice` | src/db.c:364-370 | an id that is stored twice has at least two rows in the scan |
| `DbModel.ScanAll` | src/db.c:364-370 | a select without filter gives all rows in insertion order |
| `DbModel.SelectedAt` | src/db.c:352-387 | a select lists the rows at a strictly ascending list of positions: all of them without a condition, exactly those with the name for a name, and the last one with the id for an id |
| `DbModel.ScanPrinted` | src/db.c:202-207 | the scan format reads a printed line back as the same record |
| `DataFile.LineFits` | src/db.c:282 | every line fits the 512 byte buffer and has its only newline at its end |
| `DataFile.LoadWritten` | src/db.c:194-223 | a line that an insert wrote loads as its record, unless its id is INT_MAX, where the counter would overflow |
| `DataFile.LoadConcat` | src/db.c:194-223 | a file that goes on after complete lines loads those lines first |
| `DataFile.GetLineIs` | src/db.c:194 | a line goes up to and with the first newline, but not over 511 bytes |
| `DataFile.ScanIff` | src/db.c:202 | a line is accepted with a record if and only if it is the id, a comma, a name of 1 to 127 bytes without a comma, a comma and the age, numbers after any white space and with a sign or none, and anything behind |
| `DataFile.LineLoads` | src/db.c:202-222 | such a line is stored, or refused for a value out of range, an id that is not positive, a negative age or a line break in the name |
| `DataFile.LineMalformed` | src/db.c:198-207 | empty lines are skipped, and exactly the other lines without these parts are malformed |
| `DataFile.AppendedLine` | src/db.c:282-294 | appending the line of a row makes a file that loads as the table with that row, exactly when the id is below INT_MAX |
| `DataFile.Reload` | src/db.c:193-223 | the file of a table loads as that table if and only if no id is INT_MAX |
| `DataFile.ScannedRow` | src/db.c:202-215 | every record that loading accepts satisfies the limits of a row |
| `DataFile.RunReloads` | src/db.c:193-294 | after every run of inserts, accepted and rejected, from every file that loads, the file loads as the table if and only if no id is INT_MAX |
| `DataFile.ExhaustingRun` | src/db.c:252-294 | three inserts from an empty file after which an id is stored twice and the file does not load |
| `DataFile.RunGrows` | src/db.c:290-294 | rows are only ever appended and the counter never falls |
| `DataFile.RunKeepsUnique` | src/db.c:252-294 | no run repeats an id while the counter is below INT_MAX |
| `TableJson.ColumnsOf` | src/db.c:337-340 | a projection that asks for nothing gets all columns, so some column is always selected |
| `TableJson.FlagsDecide` | src/db.c:126-142 | without a list the flags decide, id before name before age, and all three when none is set |
| `TableJson.ReadRows` | src/db.c:346-393 | the text of a result, read as JSON, is exactly the list of projected rows in order, whatever bytes the names hold; the reader works on bytes and does not ask for UTF-8 |
| `TableJson.TextDecidesRows` | src/db.c:89-145 | two results have the same text if and only if they have equally many rows that agree on every selected column |
| `TableJson.AppendField` | src/db.c:79-107 | one field is appended with its separator, key and value |
| `TableJson.AppendFlag` | src/db.c:126-142 | one flagged field is appended after the columns before it, with a comma if there are any |
| `TableJson.AppendFlagged` | src/db.c:126-142 | the fields for the flags, when there is no list of columns |
| `TableJson.AppendColumns` | src/db.c:117-124 | the fields of a list of columns are appended in its order, separated by commas |
| `TableJson.AppendRecord` | src/db.c:109-145 | one row is appended as a JSON object with the columns in the requested order |
| `Db.DbEngine.constructor` | src/db.c:170-191 | an engine without rows |
| `Db.DbEngine.ReserveRecords` | src/db.c:29-51 | room for the needed records; the stored ones survive the reallocation |
| `Db.DbEngine.LoadRecord` | src/db.c:147-163 | the row is appended and array, counter and tree agree again |
| `Db.DbEngine.StoreRecord` | src/db.c:290-299 | the same in the order of an insert |
| `Db.DbEngine.InsertInternal` | src/db.c:239-317 | the decision, the new table, the appended line and the answer are those of the model, the answer counts one row and no use of the index; a rejected insert changes nothing; a file that loads as the table still does |
| `Db.DbEngine.Insert` | src/db.c:319-322 | the insert with an automatic id: decision, new table, appended line and answer |
| `Db.DbEngine.InsertWithId` | src/db.c:324-327 | the insert with an explicit id: decision, new table, appended line and answer |
| `Db.DbEngine.AppendMatching` | src/db.c:363-387 | the loop over the records appends exactly the rows of the scan, separated by commas, and counts them |
| `Db.DbEngine.AppendIndexed` | src/db.c:352-362 | the indexed branch appends the row at the position that the tree gives, if there is one |
| `Db.DbEngine.AppendSelected` | src/db.c:352-387 | both branches together append the selected rows |
| `Db.DbEngine.SelectProjected` | src/db.c:329-403 | the answer is the JSON text of the selected rows in the requested columns, their number, and whether the index was used |
| `Db.DbEngine.Init` | src/db.c:165-227 | loading gives the table that the file holds, or the reason why it does not load; afterwards array, counter, tree and file agree |
| `Db.InsertedJson` | src/db.c:301-307 | the answer to an insert is the new row in all columns |
| `Replies.SelectReads` | src/db.c:329-403 | the reply to every select, read as JSON, is a list of objects: one for each position that the condition asks for, in ascending order, its members named by the asked columns in their order with the values of that row |
| `Replies.InsertReads` | src/db.c:239-317 | every insert: which names and ids are refused without effect, and otherwise the row that is appended and that the reply, read as JSON, shows |
| `Replies.RowText` | src/db.c:89-145 | the reply to an insert byte by byte |
| `Replies.OneMoreRow` | src/db.c:363-387 | one more row adds a comma, if there are rows before it, and its object |
| `DbSteps.CheckDecides` | src/db.c:252-273 | the checks under the write lock, with the duplicate test through the index, decide as the table does |
| `DbSteps.JobStep` | src/db.c:266-299 | each micro-step of an accepted insert brings the engine to the next stage and loses nothing |
| `DbSteps.ScanOn` | src/db.c:363-387 | each step of a scan under the read lock has collected the scan of the rows so far |
| `DbSteps.LookFinds` | src/db.c:352-362 | the indexed lookup under the read lock finds the selected row |
| `DbSteps.WriteEnds` | src/db.c:315-316 | when a writer leaves, its insert is complete and the engine is that of the table after it |
| `DbSteps.LockKept` | src/db.c:248-250 | at most one writer, and no reader beside it |
| `DbSteps.EventKept` | src/db.c:239-403 | every step of every thread keeps the invariant |
| `DbSteps.RunKept` | src/db.c:239-403 | so it holds in every reachable state |
| `DbSteps.Linearizable` | src/db.c:239-403 | every select that returned found exactly the rows after a prefix of the completed inserts between its call and its return; every insert was decided on the table before it; without a writer inside, array, counter, index and file agree |
| `DbSteps.RealTime` | src/db.c:239-403 | from a call to its return: the answer is that of a point at which all inserts complete at the call are in, and no insert that is not complete at the return |
| `DbSteps.SelectIsScan` | src/db.c:329-403 | what a select found, also by id, is a plain scan of that table, as long as the counter was below INT_MAX |
| `DbSteps.NoDeadlock` | src/db.c:248-250 | while some operation is running, some thread can move |
| `SqlSteps.EventKeeps` | src/server.c:165-182 | every event of a thread that runs an SQL text is one of the engine, and keeps text, operation and log together |
| `SqlSteps.TableIsNaive` | src/db.c:239-317 | the rows after some completed inserts are those of the interpreter after their texts |
| `SqlSteps.TextsLinearize` | src/server.c:151-183 | in every run of texts on any number of threads, each finished text has the reply of the naive interpreter in the order of completed inserts, between its call and its return, except to a question for an id stored twice; without a writer inside the engine holds the interpreter's rows |
| `SqlSteps.TextRealTime` | src/server.c:151-183 | the same from the asking of a text to its reply: the interpreter runs on at least the inserts that were complete when it was asked and at most those complete at the end |
| `SqlSteps.TextsAnsweredExactly` | src/server.c:151-183 | while ids are unique every finished text has the interpreter's reply |
| `Sql.Parse` | src/sql.c:383-404 | every statement that the parser accepts is well formed: positive id, values up to INT_MAX, names shorter than 128 bytes without quotes, no column twice |
| `Sql.RoundTrip` | src/sql.c:206-404 | every rendering of every well-formed statement, in any letter case, with any legal white space and an optional semicolon, parses back to that statement |
| `Sql.PrintParse` | src/sql.c:383-404 | the canonical text of a statement parses to it |
| `Sql.Normalized` | src/sql.c:383-404 | printing what was parsed and parsing it again gives the same statement |
| `Sql.ReadInsert` | src/sql.c:255-314 | both forms of INSERT, also where the parser tries VALUES first and goes back |
| `Sql.ReadSelect` | src/sql.c:316-381 | SELECT with its column list and its three forms of WHERE |
| `Sql.ReadColumns` | src/sql.c:153-194 | the list of columns is read in order to its end, without repetition |
| `Text.SkipSpaceAt` | src/sql.c:16-22 | the cursor stops at the first byte that is not white space |
| `SqlParser.ReadWordAt` | src/sql.c:24-44 | the word, the new position and the rejection of a word that does not fit |
| `SqlParser.ExpectKeywordAt` | src/sql.c:46-55 | accepts exactly the keyword in any letter case |
| `Text.ExpectSymbolAt` | src/sql.c:57-67 | accepts exactly the symbol |
| `SqlParser.ParseIntAt` | src/sql.c:69-87 | accepts exactly the integers from 0 to INT_MAX, with their value |
| `SqlParser.ParseStringAt` | src/sql.c:89-114 | accepts exactly the closed literals that fit, with their text |
| `SqlParser.ParseColumnAt` | src/sql.c:116-140 | accepts exactly the three column names |
| `SqlParser.ColumnAlreadySelected` | src/sql.c:142-151 | finds a column in the list exactly when it is there |
| `SqlParser.ParseColumnListAt` | src/sql.c:166-193 | the loop reads the list that the grammar gives, or rejects with it |
| `SqlParser.ParseSelectColumnsAt` | src/sql.c:153-194 | the star or the list of columns |
| `SqlParser.AtStatementEndAt` | src/sql.c:196-204 | accepts white space with at most one semicolon |
| `SqlParser.ParseValuesWithIdAt` | src/sql.c:206-253 | agrees with the grammar on acceptance and result |
| `SqlParser.ParseNameAgeValuesAt` | src/sql.c:283-313 | agrees with the grammar on acceptance and result |
| `SqlParser.ParseInsertAt` | src/sql.c:255-314 | agrees with the grammar, including the way back after a failed VALUES |
| `SqlParser.ParseFilterAt` | src/sql.c:344-380 | agrees with the grammar on the three forms |
| `SqlParser.ParseSelectAt` | src/sql.c:316-381 | agrees with the grammar on acceptance and result |
| `SqlParser.SqlParse` | src/sql.c:383-404 | the cursor parser accepts exactly the texts that the grammar accepts, with the same statement |
| `SqlGrammar.AcceptedIff` | src/sql.c:383-404 | the parser gives a statement for a text if and only if the text is a rendering of that statement |
| `SqlGrammar.RejectedIff` | src/sql.c:383-404 | it rejects a text exactly when the text renders no well-formed statement |
| `SqlTexts.SpelledIff` | src/sql.c:383-404 | word by word and without the parser's tokens: a text parses to a statement if and only if its values are in range and the text is its keywords and columns in any letter case, its numerals and literals, white space where words need it, and at most one semicolon |
| `SqlTexts.NumeralIff` | src/sql.c:69-87 | the numbers that the parser reads are those with leading zeros, a plus, or a minus before zero |
| `SqlTexts.RecasedPrint` | src/sql.c:46-55 | every recasing of the words of every printed statement parses to that statement |
| `SqlGrammar.TookInsert` | src/sql.c:255-314 | an accepted INSERT consists of the tokens of its statement, written with white space between words |
| `SqlGrammar.TookSelect` | src/sql.c:316-381 | so does an accepted SELECT |
| `SqlGrammar.TookColumns` | src/sql.c:166-193 | the list of columns that was read is the text that was passed over |
| `SqlGrammar.TookFilter` | src/sql.c:344-380 | so is the filter, or the end of the statement |
| `SqlGrammar.TookInt` | src/sql.c:69-87 | an accepted number is white space, a sign at most, and digits of its value |
| `SqlNames.ParsedPlain` | src/sql.c:383-404 | the names of a parsed statement hold no NUL |
| `RequestReader.FindBefore` | src/http.c:119 | more bytes do not move the first end of the headers |
| `RequestReader.RequestLineBefore` | src/http.c:127 | if both words of the request line are there, later bytes do not change them |
| `RequestReader.RequestLineOpen` | src/http.c:127 | if they are not, later bytes can supply them |
| `RequestReader.LengthBefore` | src/http.c:43-88 | what the search for Content-Length finds in the headers, and how it reads on into later bytes |
| `RequestReader.UnsignedBefore` | src/http.c:71-78 | a value that is not just white space is read the same whatever follows the headers |
| `RequestReader.UnsignedOpen` | src/http.c:71-78 | a value of white space alone takes its digits from what follows |
| `RequestReader.SteadyIff` | src/http.c:43-88 | bytes after the headers never change what the headers say if and only if both words of the request line and a value of Content-Length, if the field is there, stand in them |
| `RequestReader.Confluence` | src/http.c:101-171 | for steady headers every way of cutting the stream into pieces has the same outcome: the same method, path and body, or the same rejection |
| `RequestReader.PiecesMatter` | src/http.c:101-171 | after every head that is not steady some stream has two outcomes |
| `RequestText.UnsteadyHead` | src/http.c:127 | the head of a request line without a path is found and is not steady |
| `RequestReader.Connection.Recv` | src/http.c:102 | delivers a part of the stream, is interrupted, or reports the end |
| `RequestReader.ReadHeaders` | src/http.c:101-120 | what was read and what is still to come make up the stream; the loop ends with the headers, a full buffer or the end of the stream |
| `RequestReader.ReadBody` | src/http.c:149-166 | the buffer holds the first total bytes of the stream if and only if it is that long |
| `RequestReader.ReadRequest` | src/http.c:90-172 | the outcome is the one of the stream, for steady headers it depends on nothing else, and an accepted body is within its limit |
| `RequestReader.AcceptedFits` | src/http.c:137-171 | for every stream and every way of cutting it, an accepted body is within its limit, and so is the whole request |
| `RequestText.HeadEnds` | src/http.c:119 | in a request of non-empty lines the headers end after the last line and nowhere before |
| `RequestText.LineScanned` | src/http.c:127 | verb and path are taken off any request line whose words fit their buffers |
| `RequestText.LongLineScanned` | src/http.c:127 | a path is cut after 127 bytes, and what is left of a verb after 7 bytes is taken for the path |
| `RequestText.FieldFound` | src/http.c:53-85 | the search passes over any other fields to the first Content-Length, in any letter case |
| `RequestText.LengthFieldIff` | src/http.c:66 | the field is known by the 15 bytes of its name in any letter case |
| `RequestText.NumberRead` | src/http.c:71-82 | a number is read up to its last digit, cut at the largest unsigned long and wrapped around when negative |
| `RequestText.HeadRead` | src/http.c:127-142 | the headers of such a request are steady, and the reader takes from them the verb, the path and the value of the length field |
| `RequestText.RequestOutcome` | src/http.c:90-172 | a request with any words on its first line, any fields around a Content-Length, any number in it and any bytes behind: headers too large, body too large, request too large, ended early, or accepted with exactly its body, each exactly when its limit says so and however the stream is cut |
| `RequestText.InvalidLengthOutcome` | src/http.c:71-80 | a length that does not start with a number is rejected |
| `RequestText.CutOutcome` | src/http.c:101-125 | a stream that ends within the headers: too large or closed |
| `RequestText.NoLengthOutcome` | src/http.c:43-88 | a request without the field has an empty body |
| `RequestText.RequestArrives` | src/http.c:90-172 | a request with any words on its first line, any other fields, a Content-Length and a body that fits is accepted with that verb, path and body, however it is cut into pieces and whatever follows |
| `SqlBody.ExtractWrapped` | src/http.c:264-342 | a text that was escaped and wrapped comes back unchanged if and only if it is shorter than the buffer and its control bytes are LF, CR or TAB; otherwise the body is rejected |
| `SqlBody.DecodeEscaped` | src/http.c:295-340 | the same for the string value alone, up to its closing quote |
| `SqlBody.ExtractBare` | src/http.c:233-262 | a bare text is taken without the white space around it, if it fits |
| `SqlBody.ExtractedPlain` | src/http.c:344-357 | the statement holds no NUL and fits the buffer |
| `BodyTexts.ExtractIff` | src/http.c:344-357 | a statement is taken from a body if and only if the body opens an object whose first key "sql" has it as a string value, white space allowed around the colon, or is the bare statement with white space around it, and it fits |
| `BodyTexts.JsonIff` | src/http.c:264-342 | the same for the object alone, whatever stands before the key and after the value |
| `BodyTexts.DecodeUnits` | src/http.c:295-341 | a value in any of its ways of writing, also with an escaped slash, is read back if it fits |
| `BodyTexts.DecodedUnits` | src/http.c:295-341 | whatever is read was written in one of these ways, up to a closing quote |
| `BodyTexts.ExtractObject` | src/http.c:264-342 | white space before and after the brace, before the colon and before the quote, and any text after the closing quote, change nothing |
| `BodyTexts.ExtractEscaped` | src/http.c:264-342 | so an escaped text comes out of such an object unchanged if and only if it is shorter than the buffer and its control bytes are LF, CR or TAB |
| `BodyTexts.EscapeIsUnits` | src/util.c:134-192 | the escaper writes its text in these ways |
| `SqlBody.CopyRawSql` | src/http.c:233-262 | the buffer holds the trimmed text and its terminator, or the text is empty or too long |
| `SqlBody.DecodeAt` | src/http.c:295-341 | the loop writes the decoded value, or rejects where the decoder does |
| `SqlBody.ExtractJsonSql` | src/http.c:264-342 | key, colon and quote are found as the specification says, then the value |
| `SqlBody.ExtractSql` | src/http.c:344-357 | the buffer holds exactly what the specification extracts |
| `Server.ProjectionFor` | src/server.c:98-115 | the projection selects the columns of the statement in their order, or all |
| `Server.ExecuteStatement` | src/server.c:74-118 | each statement reaches the engine call that answers it, with its table and its file |
| `Server.HandleSql` | src/server.c:165-182 | a text that does not parse changes nothing; any other gets the answer to its statement |
| `Server.HandleQuery` | src/server.c:151-183 | the same from the request body on |
| `Server.StatementArrives` | src/server.c:151-183 | a client that escapes and wraps the printed statement gets the answer to that statement, if the text fits and can be carried |
| `Server.CounterIsLargest` | src/db.c:292-294 | the counter is one more than the largest id below INT_MAX |
| `Server.NaiveTextIs` | src/server.c:98-115 | the columns of the engine write the same text as the interpreter's own columns |
| `Server.NaiveFindIs` | src/server.c:89-96 | the filter of the engine finds the rows that the interpreter's own test finds |
| `Server.SameRows` | src/server.c:165-182 | after every text the engine holds the rows of the naive interpreter |
| `Server.SameReply` | src/server.c:165-182 | its reply is the interpreter's if and only if the text is not a WHERE id = n for an id that is stored twice |
| `Server.History` | src/server.c:151-183 | over every history of texts the rows are the interpreter's, and all replies are if and only if no text asked for an id stored twice at that moment |
| `Server.HistoryBelowIntMax` | src/server.c:151-183 | so they agree in everything while the counter is below INT_MAX, and ids stay unique |
| `Server.AmbiguousHistory` | src/db.c:352-362 | four texts from the empty table whose last reply differs from the interpreter's |
| `Server.NeverAmbiguous` | src/db.c:252-294 | no text of such a history asks for an id stored twice |
| `Client.HandleClient` | src/server.c:185-211 | a connection is read, routed and answered as the routing function says, and the rows change only when a POST to /query, in any letter case of the verb, was accepted |
| `Client.Routes` | src/server.c:197-208 | the routes word by word, verbs in any letter case and paths exactly |
| `Client.OnlyQueriesWrite` | src/server.c:185-211 | the rows change only when a POST to /query was accepted |
| `Client.TextArrives` | src/server.c:151-183 | a text that a client escapes into an object, with any white space, has its own reply and effect if and only if the extractor can carry it |
| `Client.StatementAnswered` | src/server.c:151-183 | a printed statement that is sent so is answered as that statement |
| `Client.HealthAnswered` | src/server.c:197-199 | a GET for /health is answered however it arrives, and changes nothing |
| `Client.QueryAnswered` | src/server.c:185-211 | any SQL text that a client escapes, wraps, with any white space, and posts, with any other fields and in any pieces, has its own reply and its own effect on the rows if it fits and can be carried, and is rejected without effect otherwise |

## Left out

- Failed allocation: `calloc`, `malloc` and `realloc` succeed. When one fails in the middle of an insert the tree of the original does not keep its map.
- Failed or partial writes of the data file, lock calls that fail, and crashes in the middle of an insert: the original has no recovery code for them.
- `SIZE_MAX` checks: sizes are unbounded here.
- DataFile.Reload: loading an id of INT_MAX computes INT_MAX + 1 in the original, which C leaves undefined; the model gives it the outcome `OutOfRange`, and `Db.DbEngine.Init` requires that a file does not lead there.
- Numbers in a data file outside the range of int: the conversion of `sscanf` is undefined for them; the model gives the outcome `OutOfRange`, or `Invalid` below it.
- Data files without a final newline: they load, but the next insert would continue the last line; `Db.DbEngine.Durable` is promised for complete files.
- BodyTexts.ExtractIff: the original takes the first place where the key occurs as a substring, also inside another string, and so does the model; a JSON parser would not.
- Sockets, signals, logging, timing, the command line and the shell scripts: only `recv` is modelled, as an oracle that delivers any pieces.
- The response header, status codes and the texts of error messages: each is settled by reading one branch.
- PoolRuns.WholeRun: mutex and condition variables are transition rules, not the pthread library; what happens after a use of the freed pool is undefined, so the run ends at the fault; and handlers return.
- DbSteps.Linearizable: the lock is a transition rule without a policy about who waits first, so nothing is said about starvation; the steps work on values, so aliasing inside the engine is covered by `Db.DbEngine` alone.
- TreeDestroy.NodeDestroy: reads and calls of `free` are a trace that grows; the memory itself stays.
- `snprintf` into name buffers is cutting to 127 bytes, and `strtol` has unbounded range: a value above INT_MAX is rejected either way.
- `db_destroy`, `thread_pool_init` failure paths and the other destructors: they only release resources.
