# A verified model of vsqlite++

vsqlite++ wraps SQLite for C++. This project models the stateful layers that the wrapper adds itself and
proves properties of them with Dafny: the statement cache together with the commands and the connection that
use it, the connection pool, transaction and savepoint scopes, the printers of JSON paths and quoted names,
row iteration and the column index, and the 64-bit codec for durations and integers.

SQLite is a small abstract machine. A prepared statement has a text, an owning handle, bindings and a cursor;
compiling, binding and stepping are function parameters (`SqliteStatements.System`), so every result holds for
any SQL dialect and any database content. Transactions are a stack of saved contents (`TransactionStack.Db`),
and a flag on each statement says whether SQLite is able to carry it out.

Each stateful part comes twice. A function on values says what an operation does, and a class with the
program's own fields does it in place; a method's `ensures` gives the new state by the function of the old one.
A control block of the pool also has the ghost set of the pointers into it: its counter is proved to be their
number, and the transition system of the pool carries the same counters. What is promised about whole runs is
proved about the functions.

| files | part |
|---|---|
| `StatementCache`, `Commands`, `SchemaKeywords`, `SqliteStatements` | the cache as list and index, the connection, the command |
| `CommandLaws`, `CommandRuns`, `CommandTransparency`, `LruHistory` | what commands answer, and whole runs of one connection: conservation, transparency, LRU order |
| `ConnectionPool`, `PoolProtocol`, `PoolRuns`, `PoolHolders`, `PoolProgress` | the pool's critical sections and leases; all interleavings of its threads; how long pointers last; who can still be served |
| `TransactionStack`, `ScopePrograms`, `StrayPrograms`, `TransactionPrograms` | the SQL stack, the two RAII objects, arbitrary nested programs over them, and what misuse does |
| `Quoting`, `JsonPath`, `SchemaNames` | printers, readers for what they print, round trips |
| `RowCursor`, `ColumnCache`, `ValueCodec` | rows, column names, stored durations and integers |
| `Prelude`, `Arithmetic` | shared facts about sequences, counting and division |

Assumptions. Public methods of the cache are atomic and are not interleaved with a reconfiguration, because
`config_` is read outside the lock. Compiling a text always gives the same result (a fixed schema). The pool
outlives its leases, and its factory returns a connection not handed out before, returns nothing, or throws.
Character classes are those of the C locale, and texts are sequences of characters.

## Where the code differs from its own documentation or from what one would expect

- `include/sqlite/statement_cache.hpp:61` says that disabling keeps existing entries; `reset` finalizes all of
  them whatever the new configuration is (`StatementCache.StatementCache.Reset`).
- `include/sqlite/result.hpp:107-112` says that `reset` goes back to the beginning; it only clears the end flag,
  and the next row is the first one exactly if nothing was read since the start or the last end of the rows
  (`RowCursor.ResetRestartsIff`, `RowCursor.ResetMidwayContinues`).
- `include/sqlite/command.hpp:115-119` says that the position of the next argument starts again once a call has
  executed; after an exception it stays behind the last argument, so that the next call binds further on
  (`CommandLaws.CallLaw`, `CommandLaws.CallRefusedLaw`).
- A comment in front of CREATE, DROP, ALTER, ATTACH or DETACH hides the keyword from the scanner, so such a
  statement neither empties the cache nor bypasses it (`SchemaKeywords.CommentHidesKeyword`).
- The quoting code is not prefix-free; when one quoted name begins another is stated exactly
  (`Quoting.NotPrefixFree`, `Quoting.PrefixIff`). Names followed by anything but a quote still decode uniquely.
- A factory that returns a null pointer loses its slot for good. Exactly then the creation count exceeds the
  connections there are, and a pool that has lost all slots blocks every caller (`PoolRuns.CreatedAccountedIff`,
  `PoolRuns.CreatedBeyondHighWater`, `PoolRuns.FailuresLose`, `PoolRuns.AllLostForever`).
- Waiting threads are served only by threads that run: if nothing is free and every thread waits, as when the only
  thread asks again while it holds the only lease, they wait for ever although no slot is lost
  (`PoolProgress.CanServeIff`, `PoolProgress.OwnLeaseBlocks`).
- `rollback` and `release` on a savepoint object that was released reach another savepoint of the same name
  (`StrayPrograms.UnguardedUse`, `StrayPrograms.StrayRollback`, `StrayPrograms.StrayRelease`).
- Rolling back or releasing an outer savepoint object that its name reaches, while an inner one is active, ends the
  program at the end of the inner scope, unless the two have the same name or a savepoint below the outer one has
  the inner name (`StrayPrograms.StrayOuter`). A commit or rollback of the transaction that succeeds in the scope of
  an active savepoint object takes its savepoint, too, and the destructor ends the program
  (`StrayPrograms.FinishInScope`).
- Reading a stored integer as `bool` looks at its low 32 bits only (`ValueCodec.GetBoolIff`).
- Storing a duration a second time can lose more. With a tick of `num / den` microseconds in lowest terms it
  loses nothing more if and only if `(|ticks| % den) * num < den * ((num + den - 1) / den)`
  (`ValueCodec.StoredAgainIff`, `ValueCodec.StoredAgainCanLose`).

## Model

| member | source | states |
|---|---|---|
| StatementCache.StatementCache.Acquire | src/sqlite/statement_cache.cpp:42-63 | list and index stay in step, and the result and the new state are those of the simple one-sequence cache |
| StatementCache.StatementCache.Release | src/sqlite/statement_cache.cpp:65-84 | the same for giving a statement back: refusal when off or already cached, eviction of the last entry, new entry in front |
| StatementCache.StatementCache.EvictBack | src/sqlite/statement_cache.cpp:76-81 | eviction only ever touches a list with an entry, and removes its last entry from list and index |
| StatementCache.StatementCache.Reset | src/sqlite/statement_cache.cpp:95-104 | every cached statement is finalized once, in list order, both structures end empty under the new configuration |
| StatementCache.StatementCache.Clear | src/sqlite/statement_cache.cpp:86-93 | the same, keeping the configuration |
| StatementCache.IndexFinds | src/sqlite/statement_cache.cpp:47-51 | the index finds exactly the node that a search of the list finds |
| StatementCache.Unlink | src/sqlite/statement_cache.cpp:51-54 | erasing a node and its index entry keeps every other index entry pointing at its own node |
| StatementCache.Link | src/sqlite/statement_cache.cpp:82-83 | so does a new front node |
| StatementCache.Cache.AcquireKeeps | src/sqlite/statement_cache.cpp:42-63 | the cache stays within capacity, without duplicate texts, empty while off; what was handed out is no longer in it |
| StatementCache.Cache.ReleaseKeeps | src/sqlite/statement_cache.cpp:65-84 | the same after a release |
| StatementCache.Cache.Conserves | src/sqlite/statement_cache.cpp:42-103 | no cache operation loses a statement or finalizes one twice |
| StatementCache.Cache.LookupLaw | src/sqlite/statement_cache.cpp:42-63 | a cache that is enabled and has a capacity gives the entry of that text to its own handle, rewound and unbound, and finalizes it for another; disabled, without capacity or without the text it finds nothing and stays as it was |
| StatementCache.Cache.ReleaseLaw | src/sqlite/statement_cache.cpp:65-84 | disabled, without capacity or with the text present the cache stays and the statement is finalized; otherwise it becomes the first entry, at the cost of the last exactly if the cache was full |
| StatementCache.Cache.ReconfigureLaw | src/sqlite/statement_cache.cpp:86-104 | the new configuration takes effect on an empty cache; every cached statement is finalized, in list order, and no other |
| SchemaKeywords.FirstTokenUpper | src/sqlite/command.cpp:55-65 | the scanning loop yields the token that TokenLaw describes |
| SchemaKeywords.TokenLaw | src/sqlite/command.cpp:44-65 | the token runs from the first character that is no blank to the first white space, semicolon or parenthesis, with small letters made capital and all else kept |
| SchemaKeywords.SchemaChangingIff | src/sqlite/command.cpp:44-80 | a text counts as schema changing if and only if, after blanks, it begins with one of the five words, each letter in either case, and then ends or goes on with white space, a semicolon or a parenthesis |
| SchemaKeywords.CommentHidesKeyword | src/sqlite/command.cpp:55-80 | a text with a leading comment never counts as schema changing |
| Commands.Command.Prepare | src/sqlite/command.cpp:119-137 | what construction does to the session, and how it ends, hit or miss, schema changing or not |
| Commands.Command.Finalize | src/sqlite/command.cpp:96-107 | the statement goes to SQLite or to the cache, and the command is left without one |
| Commands.Command.Bind | src/sqlite/command.cpp:165-191 | access errors first, then the binding or SQLite's error |
| Commands.Command.BindNext | src/sqlite/command.cpp:266-299 | the position advances even if the binding fails |
| Commands.Command.Step | src/sqlite/command.cpp:143-157 | a row, the end, misuse or another error |
| Commands.Command.Clear | src/sqlite/command.cpp:109-113 | the cursor and the position restart, the bindings stay |
| Commands.Command.Call | include/sqlite/command.hpp:120-129 | rewind, bind in order up to the first failure, step; the position restarts only if nothing failed |
| CommandLaws.StepLaw | src/sqlite/command.cpp:143-157 | true exactly for SQLITE_ROW, false exactly for SQLITE_DONE, and the two exceptions exactly for misuse and other codes |
| CommandLaws.BindNextLaw | src/sqlite/command.cpp:266-299 | the value goes to the index behind the last one, and the position advances whether or not SQLite accepts it |
| CommandLaws.ClosedLaw | src/sqlite/connection.cpp:316-330 | a closed connection finds no cached statement and finalizes what is given back to it |
| CommandLaws.SchemaChangeFinalizes | src/sqlite/command.cpp:96-107 | the statement of a schema-changing text is finalized at the end of its command and never cached |
| CommandLaws.NotReadyLaw | src/sqlite/command.cpp:260-264 | without an open connection or a statement nothing is bound or stepped, and a closed connection is reported first |
| CommandLaws.ClearLaw | src/sqlite/command.cpp:109-117 | clearing and rewinding keep what is bound; only clearing starts again at the first parameter |
| CommandLaws.BindAllLaw | src/sqlite/command.cpp:165-299 | arguments are bound one index after another up to the first that SQLite refuses, and the position counts that one |
| CommandLaws.CallLaw | include/sqlite/command.hpp:120-129 | SQLite steps the rewound statement with each argument at its index and everything else bound as before; the position starts again exactly if the step answers with a row or the end |
| CommandLaws.CallRefusedLaw | include/sqlite/command.hpp:120-129 | an argument that SQLite refuses ends the call with its code, nothing is stepped and the position stays behind it |
| CommandLaws.CallPlainLaw | src/sqlite/command.cpp:159-163 | without arguments the call is a step that neither rewinds nor binds, and starts again at the first parameter unless it throws |
| Commands.Connection.AcquireCachedStatement | src/sqlite/connection.cpp:316-320 | a closed connection finds nothing, an open one asks its cache with its own handle |
| Commands.Connection.ReleaseCachedStatement | src/sqlite/connection.cpp:322-330 | a closed connection finalizes, an open one gives the statement to its cache |
| Commands.Connection.ConfigureStatementCache | src/sqlite/connection.cpp:308-310 | reconfiguring empties the cache |
| Commands.Connection.Close | src/sqlite/connection.cpp:270-277 | the cache is emptied first; the handle is given up only if SQLite has no statement of it left |
| CommandRuns.PrepareKeeps | src/sqlite/command.cpp:119-137 | how a construction ends depends on the text alone, and a statement from the cache is indistinguishable from a fresh one and held by nobody else |
| CommandRuns.FinalizeKeeps | src/sqlite/command.cpp:96-107 | afterwards nobody holds the statement, and no other command's statement was touched |
| CommandRuns.ApplyKeeps | src/sqlite/command.cpp:83-163 | every operation keeps: live statements are the cached and the held ones without overlap, each of the open handle and with its own text |
| CommandRuns.Conservation | src/sqlite/command.cpp:83-107 | after any run each statement ever prepared is in exactly one place: one command, one cache entry, or the finalization log once |
| CommandRuns.OwnerMismatchUnreachable | src/sqlite/statement_cache.cpp:57-61 | in every reachable state the owner check succeeds and no cached text is schema changing |
| CommandRuns.SchemaChangeEmptiesCache | src/sqlite/command.cpp:121-124 | the cache is empty right after a schema-changing construction, whether it succeeds or not |
| CommandRuns.OffHoldsNothing | src/sqlite/statement_cache.cpp:65-69 | after any run a cache that is disabled or has no capacity holds nothing |
| CommandRuns.OffConstructs | src/sqlite/statement_cache.cpp:42-45 | with such a cache every construction compiles its text anew |
| CommandRuns.OffDestroys | src/sqlite/statement_cache.cpp:65-69 | and every destruction finalizes the statement |
| CommandRuns.ConfigureTakesEffect | src/sqlite/statement_cache.cpp:95-104 | after reconfiguring the cache is empty under the new configuration, after clearing under the old one |
| CommandRuns.CloseIff | src/sqlite/connection.cpp:270-277 | closing succeeds if and only if no live command holds a statement, and then none is left |
| CommandTransparency.DoSeen | src/sqlite/command.cpp:109-191 | binding, stepping, calling, clearing and rewinding show what a machine without cache shows |
| CommandTransparency.ApplySeen | src/sqlite/command.cpp:83-163 | so does every operation, including reconfiguration and closing |
| CommandTransparency.RunSeen | src/sqlite/command.cpp:83-163 | so does every run, whatever cache management is mixed in |
| CommandTransparency.Transparency | src/sqlite/statement_cache.cpp:42-84 | two runs of one program under any two configurations, one of them off if you like, have the same outcomes, texts, bindings, cursors and database |
| LruHistory.RecentOrder | src/sqlite/statement_cache.cpp:76-83 | in the reference order the texts in front of a text are exactly those kept after its last use |
| LruHistory.LiveTexts | src/sqlite/command.cpp:96-137 | one construction, use and destruction changes the listed texts as the reference says, cut to the capacity |
| LruHistory.CacheFollowsHistory | src/sqlite/statement_cache.cpp:42-84 | after any history the list is the first `capacity` distinct texts kept since the last emptying, most recent first |
| LruHistory.HitIff | src/sqlite/statement_cache.cpp:46-62 | a use hits if and only if fewer than `capacity` other texts were kept after the last use of its own, with no emptying in between |
| LruHistory.SmallerIsPrefix | src/sqlite/statement_cache.cpp:76-83 | a smaller cache's list is a prefix of a larger one's |
| ConnectionPool.ConnectionPool.Create | src/sqlite/connection_pool.cpp:60-68 | refused exactly for capacity zero or a missing factory |
| ConnectionPool.ConnectionPool.WaitForSlot | src/sqlite/connection_pool.cpp:84-99 | the wait loop takes the decision that the first state with something free calls for, and otherwise is still waiting |
| ConnectionPool.ConnectionPool.Acquire | src/sqlite/connection_pool.cpp:80-113 | waits while nothing is idle and the capacity is used up; the first state without that decides: its last idle connection is leased, or else a slot is claimed and the created connection leased, an empty lease made if the factory returned nothing, or the exception thrown after the slot went back and one waiter was notified |
| ConnectionPool.ConnectionPool.RollBackCreation | src/sqlite/connection_pool.cpp:104-109 | a failed creation gives its slot back and notifies one waiter |
| ConnectionPool.ConnectionPool.Release | src/sqlite/connection_pool.cpp:115-119 | the connection becomes the last idle one and one waiter is notified |
| ConnectionPool.SharedState.Add | src/sqlite/connection_pool.cpp:21-24 | a new pointer into the control block makes the count one more, and the count stays the number of pointers |
| ConnectionPool.SharedState.Drop | src/sqlite/connection_pool.cpp:8-17 | the count stays the number of pointers; the end of the last one, and of no other, returns the connection |
| ConnectionPool.Alias.Reset | src/sqlite/connection_pool.cpp:56-58 | the end of a shared pointer returns the connection exactly if nothing else points into the control block |
| ConnectionPool.Lease.constructor | src/sqlite/connection_pool.cpp:19-26 | a lease has the only two pointers into a fresh control block, or is empty without a pool or a connection |
| ConnectionPool.Lease.Release | src/sqlite/connection_pool.cpp:43-46 | the connection goes idle now exactly if no pointer but the two of the lease is left, and nothing of the lease is left in the control block |
| ConnectionPool.Lease.MoveAssign | src/sqlite/connection_pool.cpp:30-37 | self-assignment does nothing; otherwise the old hold is given up as by release and the other lease's pointers become this one's, whether or not they share a control block |
| ConnectionPool.Lease.Shared | src/sqlite/connection_pool.cpp:56-58 | the pointer is one more into the same control block, and is counted |
| PoolProtocol.BalanceKept | src/sqlite/connection_pool.cpp:80-119 | every event keeps the creation count balanced and no more free capacity than woken threads while anyone sleeps |
| PoolProtocol.ExclusiveKept | src/sqlite/connection_pool.cpp:80-119 | every event keeps each connection in exactly one place |
| PoolProtocol.CountedKept | src/sqlite/connection_pool.cpp:8-58 | after every event each reference count is the number of lease fields and shared pointers into the control block, and exactly the control blocks with a pointer are alive |
| PoolProtocol.LeasesKept | src/sqlite/connection_pool.cpp:19-46 | every event keeps at most one lease for each control block, with both pointers into it until it is reset |
| PoolProtocol.LoggedKept | src/sqlite/connection_pool.cpp:12-16 | every control block ever built is alive or was destroyed exactly once |
| PoolRuns.NoSleeperForgotten | src/sqlite/connection_pool.cpp:80-119 | in every reachable state free capacity is at most the number of woken threads while one sleeps; a sleeper with nobody woken means that no slot is idle or free |
| PoolRuns.Conservation | src/sqlite/connection_pool.cpp:80-119 | in every reachable state created = idle + leased + in creation, handover or return + lost, at most the capacity, and no connection is in two places |
| PoolRuns.RefsArePointers | src/sqlite/connection_pool.cpp:8-58 | in every reachable state a control block is alive if and only if something points into it, and its count is the number of those pointers |
| PoolRuns.LastDropReturns | src/sqlite/connection_pool.cpp:8-58 | a leased connection leaves its group at the event that drops the last pointer of a lease or of `shared()`, never earlier, and once |
| PoolRuns.LeaseDestroyed | src/sqlite/connection_pool.cpp:39-46 | destroying a lease returns its connection if and only if no other pointer into its control block exists |
| PoolRuns.ReturnedOnce | src/sqlite/connection_pool.cpp:8-58 | in every reachable state each lease group was returned once if no lease or pointer refers to it, and otherwise not at all, its connection not being idle |
| PoolRuns.ReturnMakesIdle | src/sqlite/connection_pool.cpp:115-119 | the return adds it to the idle ones, where it was not before, and wakes a sleeper if there is one |
| PoolHolders.EnterLaw | src/sqlite/connection_pool.cpp:84-99 | a thread takes the last idle connection, or else claims a slot, or else sleeps |
| PoolHolders.BuildLaw | src/sqlite/connection_pool.cpp:19-26 | a connection handed over ends in a lease with the only two pointers into a new control block that keeps it |
| PoolHolders.ShareLaw | src/sqlite/connection_pool.cpp:56-58 | the shared pointer points where the lease's connection pointer points, and is counted |
| PoolHolders.MoveLaw | src/sqlite/connection_pool.cpp:28-37 | a move hands both pointers over, leaves an empty lease and changes no count |
| PoolHolders.NotifyLaw | src/sqlite/connection_pool.cpp:104-119 | a failed creation and a return let one waiting thread go on and no other |
| PoolHolders.HeldStaysLeased | src/sqlite/connection_pool.cpp:8-58 | over any run, while a lease or shared pointer is neither reset nor moved from, its connection stays out of the pool |
| PoolHolders.SharedKeepsLeased | src/sqlite/connection_pool.cpp:56-58 | a pointer obtained from `shared()` at any point of any run keeps the connection out of the pool until that pointer is reset, whatever becomes of the lease |
| PoolRuns.CreatorCounted | src/sqlite/connection_pool.cpp:101-109 | the decrement in the exception handler never finds a creation count of zero |
| PoolRuns.CreatedIsHighWater | src/sqlite/connection_pool.cpp:85-113 | if the factory never returns nothing, the creation count never exceeds the most connections leased or in a thread's hands at once, and equals it if the factory never throws either |
| PoolRuns.CreatedBeyondHighWater | src/sqlite/connection_pool.cpp:92-112 | with a factory that returns nothing, runs for every capacity in which that many are counted as created and never more than one is in use |
| PoolRuns.CreatedAccountedIff | src/sqlite/connection_pool.cpp:92-112 | after any run every connection counted as created is idle, leased or in a thread's hands if and only if no factory call returned nothing |
| PoolRuns.AllLostForever | src/sqlite/connection_pool.cpp:87-98 | once all slots are lost every caller waits, in every continuation |
| PoolRuns.FailuresLose | src/sqlite/connection_pool.cpp:92-112 | for every capacity, a run that loses every slot |
| PoolProgress.CanServeIff | src/sqlite/connection_pool.cpp:80-119 | from any reachable state there is a continuation in which an attempt need not wait if and only if something is free now, or a slot is not lost and some thread is neither waiting nor about to look again |
| PoolProgress.DropAll | src/sqlite/connection_pool.cpp:8-58 | one thread can end a lease group whatever leases and shared pointers hold it, and so bring its connection back |
| PoolProgress.OwnLeaseBlocks | src/sqlite/connection_pool.cpp:86-98 | a thread that asks for a second connection of a pool of one waits for ever, with no slot lost |
| TransactionStack.Transaction.Start | src/sqlite/transaction.cpp:74-91 | active if and only if BEGIN succeeded or it was before |
| TransactionStack.Transaction.Finish | src/sqlite/transaction.cpp:93-109 | still active when the statement fails; the ending flag is down again in either case |
| TransactionStack.Transaction.Destroy | src/sqlite/transaction.cpp:61-72 | rolls back what is active and swallows a failure |
| TransactionStack.TxLaw | src/sqlite/transaction.cpp:61-109 | which statements succeed on which connection, and the flags and database they leave |
| TransactionStack.SavepointScope.Open | src/sqlite/savepoint.cpp:40-43 | no object if SAVEPOINT fails |
| TransactionStack.SavepointScope.ReleaseIt | src/sqlite/savepoint.cpp:50-53 | inactive exactly after a successful release |
| TransactionStack.SavepointScope.RollBack | src/sqlite/savepoint.cpp:55-57 | executes on whatever frame the name finds |
| TransactionStack.SavepointScope.Destroy | src/sqlite/savepoint.cpp:45-48 | releases if active; a failure there cannot be thrown and ends the program |
| ScopePrograms.StmtContained | src/sqlite/savepoint.cpp:40-57 | for any nested program, with transaction statements anywhere, left anywhere and using any object around a statement, released or not, from however deep inside: no savepoint is left over, and each released object has taken at least one |
| ScopePrograms.StmtDurable | src/sqlite/savepoint.cpp:40-57 | what would survive a rollback of everything is the last commit, or the last write or outermost release made outside a transaction |
| ScopePrograms.EndLaw | src/sqlite/savepoint.cpp:45-48 | a scope ends as its body did unless the destructor's release is refused or finds no savepoint, which ends the program |
| ScopePrograms.UnableLaw | src/sqlite/savepoint.cpp:40-57 | a statement that SQLite does not carry out throws and changes neither the database nor an object |
| ScopePrograms.StmtBalanced | src/sqlite/savepoint.cpp:40-57 | under LIFO use, names repeated or not and outer objects used once the inner ones are released: frames below the objects are untouched, each object's own frame is there exactly while it is active, and objects were released from the innermost outwards |
| ScopePrograms.StmtKeepsTransaction | src/sqlite/savepoint.cpp:40-57 | under LIFO use no transaction is begun or ended as long as savepoints remain |
| ScopePrograms.ScopeRestoresStack | src/sqlite/savepoint.cpp:40-53 | every way out of a scope leaves the savepoint stack no deeper, and under LIFO use as it was on entry, less the frames of outer objects released inside |
| ScopePrograms.OwnRollback | src/sqlite/savepoint.cpp:55-57 | the rollback of the innermost active object, however far out, restores the content at its own SAVEPOINT and keeps all frames |
| ScopePrograms.OwnRelease | src/sqlite/savepoint.cpp:50-53 | its release keeps the content and takes its own frame alone |
| ScopePrograms.RolledBackScope | src/sqlite/savepoint.cpp:40-57 | a scope that ends with its own rollback leaves the database as it found it |
| ScopePrograms.ReleasedScope | src/sqlite/savepoint.cpp:45-53 | under LIFO use a scope left normally keeps its writes and pops its own frame, or has left it to its own release |
| StrayPrograms.NameReaches | src/sqlite/savepoint.cpp:50-57 | a name reaches the savepoint of the innermost active object that bears it, or else one below all objects |
| StrayPrograms.UnguardedUse | src/sqlite/savepoint.cpp:50-57 | an object's statements, however far out it is, reach its own frame if and only if it is active and no active object further in has its name; those of a released one reach another object's or an outer savepoint of that name, or fail |
| StrayPrograms.StrayRollback | src/sqlite/savepoint.cpp:50-57 | a program in which a released inner scope undoes the writes of an outer one of the same name |
| StrayPrograms.StrayRelease | src/sqlite/savepoint.cpp:45-53 | a second release of an inner scope makes the destructor of an outer one of the same name end the program if and only if no savepoint further out has the name |
| StrayPrograms.StrayOuter | src/sqlite/savepoint.cpp:45-57 | rolling back or releasing an outer active object that its name reaches, however far out, while an inner one is active makes the inner destructor end the program if and only if the names differ and no savepoint below the outer one has the inner name |
| StrayPrograms.FinishInScope | src/sqlite/transaction.cpp:93-109 | a commit or rollback of the transaction inside a savepoint scope ends the program at the end of the scope if and only if it succeeds |
| StrayPrograms.UniqueNeverStrays | src/sqlite/savepoint.cpp:40-57 | programs that give nested scopes different names, use an object only after those further in were released and end a transaction only outside of savepoints are LIFO, whatever fails and wherever they are left |
| TransactionPrograms.TxLone | src/sqlite/transaction.cpp:56-109 | throughout any program, with transaction statements inside savepoint scopes too, the object knows whether a transaction is open and is never left ending |
| TransactionPrograms.Atomicity | src/sqlite/transaction.cpp:61-109 | at the end of the object's life only what was last committed, or written or released outside a transaction, survives, and if the rollback works the database is exactly that; on a connection inside a transaction or savepoint nothing changes |
| TransactionPrograms.AllOrNothing | src/sqlite/transaction.cpp:56-103 | begin, any body without transaction statements, commit: the result is the body's if it ran through and the commit succeeded, else the start |
| Quoting.Quote | src/sqlite/connection.cpp:143-155 | the append loop doubles the quotes and adds the outer ones |
| Quoting.ReadQuotedIff | src/sqlite/view.cpp:40-52 | printing and reading are inverse: a text begins with an identifier exactly when it begins with its quoted form not followed by a quote |
| Quoting.NotPrefixFree | src/sqlite/connection.cpp:143-155 | every quoted name begins that of the same name followed by a quote and anything |
| Quoting.PrefixIff | src/sqlite/connection.cpp:143-155 | it does so exactly when the names are equal or the longer goes on with a quote |
| JsonPath.PathBuilder.Key | src/sqlite/json_fts.cpp:166-174 | appends one step, quoted if needed |
| JsonPath.PathBuilder.Index | src/sqlite/json_fts.cpp:176-181 | appends one decimal index |
| JsonPath.BareIff | src/sqlite/json_fts.cpp:54-60 | a key is printed bare if and only if it is not empty and consists of letters, digits and underscores |
| JsonPath.DecimalCanonical | src/sqlite/json_fts.cpp:176-181 | an index is printed in base ten without leading zeros |
| JsonPath.DecimalRoundTrip | src/sqlite/json_fts.cpp:176-181 | the printed index has digits only and has the value of the index |
| JsonPath.StepRoundTrip | src/sqlite/json_fts.cpp:54-74 | one printed step is read back whatever step follows, for empty keys and keys with quotes, dots or brackets too |
| JsonPath.PathRoundTrip | src/sqlite/json_fts.cpp:164-181 | reading a path's text recovers the steps it was built from |
| JsonPath.PathsInjective | src/sqlite/json_fts.cpp:164-181 | different step sequences have different texts |
| SchemaNames.NameRoundTrip | src/sqlite/view.cpp:54-59 | prefix and alias are read back as the same pair, whatever follows that is neither quote nor dot |
| SchemaNames.CreateRoundTrip | src/sqlite/view.cpp:67-89 | the statement is refused exactly for empty names, and otherwise determines kind, names and query |
| SchemaNames.DropRoundTrip | src/sqlite/view.cpp:91-109 | the same for dropping |
| SchemaNames.AliasRoundTrip | src/sqlite/connection.cpp:284-300 | attach and detach refuse exactly the empty name, and otherwise the statement determines the name |
| SchemaNames.NamesBypassCache | src/sqlite/connection.cpp:284-300 | every statement printed to create, drop, attach or detach is recognised as schema changing |
| RowCursor.CursorLaw | src/sqlite/query.cpp:45-67 | for any number of results of one query, made, read, reset and interleaved in any way, the k-th row delivered is row k modulo the number of rows, counted from where the statement stood |
| RowCursor.OnePass | src/sqlite/result.cpp:62-68 | one result read alone delivers every row once in order, and after the end nothing more however often it is asked |
| RowCursor.ResetRestartsIff | src/sqlite/result.cpp:50-68 | after any use of a new query a reset makes the first row come next if and only if no row was delivered since the start or since a call that found the end; otherwise reading goes on |
| RowCursor.ResetMidwayContinues | src/sqlite/result.cpp:50-68 | read, reset, read on three rows delivers the first and the second |
| RowCursor.Result.NextRow | src/sqlite/result.cpp:62-68 | steps unless ended, and ends with the last step |
| RowCursor.Result.Emit | src/sqlite/query.cpp:45-55 | steps the statement at once |
| RowCursor.Iterator.Advance | src/sqlite/query.cpp:105-119 | moves to the next row, or lets go of the result at the end; without a result it stays at the end |
| RowCursor.Iterator.Equals | src/sqlite/query.cpp:140-145 | two iterators are equal if both are at the end, or both are before it and on the same result, and not otherwise |
| RowCursor.Range.Begin | src/sqlite/query.cpp:151-160 | the first call starts, every later one and any on a range without a result is at the end |
| RowCursor.Range.Loop | src/sqlite/query.cpp:69-160 | a loop delivers each remaining row once in order, terminates and leaves the statement at its start; a second loop delivers nothing |
| ColumnCache.Cache.Prime | src/sqlite/query.cpp:89-103 | the index gets every column name with its least column, and is never rebuilt |
| ColumnCache.Cache.IndexOf | src/sqlite/query.cpp:166-172 | the least column of that name, and the exception if and only if there is none |
| ValueCodec.EncodeLaw | include/sqlite/command.hpp:288-295 | binding is defined exactly while the product stays in 64 bits, and stores the whole microseconds of the duration, cut toward zero |
| ValueCodec.DecodeLaw | include/sqlite/result.hpp:269-275 | reading gives the whole ticks of the stored microseconds, cut toward zero |
| ValueCodec.DecodeDefined | include/sqlite/result.hpp:269-275 | reading does not overflow when binding did not |
| ValueCodec.DurationRoundTrip | include/sqlite/command.hpp:288-295 | sign kept, magnitude not increased, loss below `1 + den / num` ticks, exact if and only if the duration is a whole number of microseconds |
| ValueCodec.StoredMonotone | include/sqlite/command.hpp:288-295 | longer durations read back no shorter |
| ValueCodec.WholeMicroseconds | include/sqlite/result.hpp:269-275 | for nanoseconds and the like storing is truncation toward zero to whole microseconds, and idempotent |
| ValueCodec.StoredAgainIff | include/sqlite/result.hpp:269-275 | storing twice is storing once if and only if the ticks beyond a multiple of `den` are too few to store anything, an inequality on the ticks, for every period in lowest terms |
| ValueCodec.StoredParts | include/sqlite/command.hpp:288-295 | whole multiples of `den` ticks are stored exactly and the rest as it would be alone |
| ValueCodec.StoredAgainCanLose | include/sqlite/result.hpp:269-275 | a duration for which it is not |
| ValueCodec.WrapLaw | include/sqlite/result.hpp:276-279 | a cast gives the value of the type that differs by a multiple of its modulus |
| ValueCodec.IntegerRoundTrip | include/sqlite/command.hpp:296-299 | integers of any type of at most 64 bits survive the casts both ways |
| ValueCodec.GetBoolIff | include/sqlite/result.hpp:280-281 | a stored integer reads as true if and only if its low 32 bits are not all zero |

## Left out

- SQLite itself: parsing, execution, locking, its automatic rollbacks and error texts. Savepoint names are compared as given; SQLite folds their case.
- Commands.Command.Prepare: models the call from the constructor, the only one there is; its branch for a command that already holds a statement cannot be reached.
- Commands.Command.Bind: one binding operation for all value types; text and blob lengths above the range of `int` and named parameters are not modelled.
- ConnectionPool.ConnectionPool.WaitForSlot: the wait is a list of the states found at each wakeup, so a caller that is never served shows as one still waiting; the interleavings themselves are in PoolProtocol.
- ConnectionPool.ConnectionPool.Acquire: the state that a failed creation finds on taking the lock again is given as well; that its creation count is not zero, which the method asks, is PoolRuns.CreatorCounted.
- PoolProtocol.CountedKept: counts strong references only, as the program has no weak ones; a lease that a caller builds through the public constructor from a connection the pool did not hand out is not modelled, nor is running out of memory.
- ScopePrograms.StmtBalanced: says nothing of the frames after a use that is not LIFO; what holds then too is StmtContained, and single uses are in StrayPrograms.
- RowCursor.CursorLaw: `clear` and `operator()` of the query, which rewind the statement, are Commands.Command.Clear and Commands.Command.Call.
- TransactionPrograms.Atomicity: one transaction object at a time; several driving the same connection are not modelled. The kinds of BEGIN differ only in locking.
- TransactionStack.SavepointScope.Destroy: what a program does after `std::terminate` is not modelled.
- ValueCodec.DurationRoundTrip: integer tick counts; durations with floating-point counts are not modelled. Where the product with the numerator leaves 64 bits C++ gives no result and neither does the model.
- RowCursor.Range.Loop: a result whose query was destroyed, and stepping errors in the middle of a loop, are not modelled.
- JsonPath.PathRoundTrip: says nothing about whether SQLite's own JSON reader accepts doubled quotes, nor about the SQL literal a path is pasted into.
- Typed column readers other than integers and durations: single conversions by SQLite.
- `backup.cpp`, `session.cpp`, `serialization.cpp`, `snapshot.cpp`, `threading.cpp`, `function.hpp`: forwarding to foreign calls, finite mappings and compile-time dispatch.
- Path validation and open flags in `connection.cpp`: file system calls.
- FTS registration and ranking, examples and build scripts.
