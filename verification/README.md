# Redge in Dafny

Redge serves Redis commands, a document API and a key-value HTTP API from ordinary SQL tables, either
through a transactional database (`internal/store/sqlstore`) or through Cloudflare D1, which has no
transactions (`internal/store/d1store`). This project models the parts of it whose correctness depends on
more than one step and proves what they promise, for all inputs, all runs and all interleavings.

SQL tables are maps keyed by their primary keys, clocks are explicit inputs, SHA-256 is an injective
constructor, ristretto is a map that may drop anything at any time, and scores and token counts are real
numbers. Verify everything with `dafny verify dfyconfig.toml`.

| file | what it is about |
|---|---|
| `D1Protocol.dfy`, `D1Results.dfy` | concurrent clients on D1: a read, then one guarded statement; serialisation, counters, `SET NX` |
| `D1Orders.dfy`, `D1Unchecked.dfy`, `D1Sequential.dfy`, `D1Exact.dfy` | the orders of overlapping calls, the races of the D1 writers that check no version, the legality of runs without a race, and the exact condition for linearizability |
| `TimedMap.dfy`, `SqlStore.dfy` | key rows and member rows with lazy expiry, refining a timed map |
| `CommandLaws.dfy`, `D1Laws.dfy` | what the timed map is worth to a client: laws between commands, over runs; D1 calls that do not race reply as it does |
| `ZSets.dfy` | sorted-set ranks, pops and score ranges |
| `CacheRouter.dfy`, `Staleness.dfy` | the in-process cache: invisible when commands are atomic, boundedly stale when steps interleave |
| `Sessions.dfy`, `SessionLaws.dfy`, `Resp.dfy` | MULTI / EXEC as a state machine; authentication, database numbers and transactions over whole sessions; the RESP2 reader and printers |
| `Like.dfy`, `Paging.dfy`, `FilteredPaging.dfy` | glob and search patterns, SCAN, document pages, pages through an index |
| `DocIndex.dfy`, `DocAgreement.dfy`, `DocLaws.dfy` | document index maintenance, what filtered queries return, and what filters, searches and writes mean in terms of the documents |
| `TokenBucket.dfy` | the per-client rate limiter |
| `StoreTypes.dfy`, `Decimal.dfy`, `Ordering.dfy` | what the stores share; decimal text of 64-bit integers; ORDER BY as a function |

Code that changes things step by step is a class or a method (`SqlStore.Store`, `CacheRouter.Memory` and
`Router`, `Sessions.Session` and `Router`, `Resp.Reader`, `TokenBucket.RateLimiter`, `DocIndex.Collection`),
each proved against a function or relation about which the lemmas then speak. Concurrent behaviour is a
state machine whose runs are arbitrary sequences of single steps. The functions that the methods are proved
against are themselves held to laws that do not name them: what is read after what was written, over whole
runs (`CommandLaws`, `SessionLaws`, `D1Laws`, `DocLaws`).

Some promises turn out to hold only under a condition. Each of these has the exact condition and a run
outside it:

- the D1 writers that check no version break the guard of the others: a plain `SET` on a missing key, `DEL`,
  `EXPIRE` and `PERSIST` can each bring a version number back with other contents, and the lazy deletion of
  an expired row deletes whatever row is there by then. Each has a race with increments after which no order
  of the calls, not even one that rearranges calls that overlap, explains both the replies and the row
  (`D1Unchecked`). `D1Exact.ProtectedIsExact` and `D1Exact.OutlastsIsExact` say exactly which calls and which
  rows leave every run linearizable; calls of every kind that run one after another always are
  (`D1Sequential.SequentialIsLegal`);
- the SQL store's GET runs its lazy deletion outside a transaction, and can take a counter that was started
  again in between (`SqlStore.LazyGetLosesUpdate`); its EXPIRE loses only a count of the version
  (`SqlStore.ExpireAroundSet`);
- the SQL store's expiry cleanup leaves member rows behind, and the next `ZADD` takes them in
  (`SqlStore.CleanupResurrects`; ownership survives if and only if no deleted key had members);
- SCAN uses "0" both as the end marker and as a key, and stops early when the key "0" ends a page
  (`Paging.ScanLosesKeyAfterZero`; `Paging.ScanMissesNothing` and `Paging.StaticScan` say exactly when);
- a row read just before its expiry can be cached for the whole default time to live
  (`Staleness.ExpiredRowServed`; `Staleness.OutlivesRowIff` says exactly when an entry outlives its row), and
  a GET that straddles a write and its invalidation brings the old value back
  (`Staleness.StraddlingServesStale`; `Staleness.StaleOnlyByStraddling` says that nothing else does);
- a document write that starts to index a new field leaves older documents out of the index
  (`DocAgreement.NewFieldHidesOlder`; `DocAgreement.PutKeepsComplete` says exactly when), one that adds a
  search field leaves their search texts behind (`DocAgreement.NewSearchFieldHidesOlder`;
  `DocAgreement.PutKeepsSearchable` says exactly when), and a page
  through the index can end the listing early when it meets an expired document
  (`DocAgreement.ExpiredEndsPaging`; `DocAgreement.WherePageExact` says exactly when);
- a client's first call is admitted even when the burst is below one (`TokenBucket.FirstCall`).

## Model

| member | source | states |
|---|---|---|
| D1Protocol.StepKeeps | internal/store/d1store/store.go:254-325 | any single statement of any client keeps: equal versions of the key mean equal rows, the row is what the completed calls add up to, the version counts the successful writes |
| D1Protocol.RunKeeps | internal/store/d1store/store.go:254-474 | the same over every interleaving |
| D1Protocol.Linearizable | internal/store/d1store/store.go:254-325 | in every interleaving of GET, INCRBY, SET NX, SET XX and (on a present key) SET, the completed calls in completion order, which respects real time, are a legal sequential history of timed commands ending in the stored row, its expiry included, so a SET returns exactly the value that stood before its write; a conflict is reported only if another call wrote in between, and no call finds the key expired |
| D1Results.NoLostUpdate | internal/store/d1store/store.go:423-474 | the stored integer is the start value plus the deltas of exactly the successful INCRBYs modulo 2^64, the version rises by one for each, each returned the running total, failures left no trace, including races to insert a missing key |
| D1Results.RunningTotals | internal/store/d1store/store.go:423-474 | in a legal history every successful increment returned the total at its place |
| D1Results.TotalIsWrappedSum | internal/store/d1store/store.go:442-442 | adding the deltas one by one with 64-bit wrap-around is wrapping their sum once |
| D1Results.OneWinner | internal/store/d1store/store.go:254-294 | among clients racing with SET NX on an absent key at most one reports written, one has as soon as any has finished, and the row holds its value |
| D1Unchecked.UpsertLosesUpdate | internal/store/d1store/store.go:311-325 | from any state without the key, whatever is stored and with whatever options, a run in which a plain SET and three increments all report success and no order of the four explains replies and row |
| D1Unchecked.DeleteLosesUpdate | internal/store/d1store/store.go:356-371 | a run in which a key deleted and counted anew has its version 1 taken for the old one; no order of the three calls explains replies and row unless the counter restarts at the deleted value or at the sum |
| D1Unchecked.TouchLosesUpdate | internal/store/d1store/store.go:388-411 | for all values, a run in which EXPIRE, or PERSIST on a row with an expiry, sets the version back, and no order of it and the three increments explains replies and row |
| D1Unchecked.LazyDeletionLosesUpdate | internal/store/d1store/store.go:1071-1089 | on any expired row a GET and an increment suffice: the increment reports success and its counter is gone, which neither order of the two explains, from whatever contents at the start |
| D1Sequential.UndisturbedIsAtomic | internal/store/d1store/store.go:254-474 | a client that reads the row and writes before anybody else does exactly what the atomic timed command does |
| D1Sequential.SequentialIsLegal | internal/store/d1store/store.go:254-474 | calls of every kind, at any clock readings and on any rows, that run one after another leave a legal history and the row it adds up to, so an illegal history takes a race |
| D1Exact.ProtectedIsExact | internal/store/d1store/store.go:254-474 | a call may be mixed with the protected ones with every run linearizable, replies and row, if and only if it is itself protected: GET, INCRBY, and SET unless it may upsert or sets an expiry inside the run |
| D1Exact.OutlastsIsExact | internal/store/d1store/store.go:1071-1089 | protected calls on a present key leave every run linearizable if and only if its row does not expire during the run |
| D1Laws.SetThenGet | internal/store/d1store/store.go:254-310 | statement by statement: a SET without NX on a live string leaves the new value, which expires ttl later, or as the old one with KEEPTTL, or never, and replies with the old value; a GET at any later time replies with the new value until then |
| D1Laws.AtomicIsAct | internal/store/d1store/store.go:254-474 | each D1 command leaves what the timed map's command leaves and replies the same |
| D1Laws.OneByOneIsTimedMap | internal/store/d1store/store.go:254-474 | calls that run one after another on D1, lazy deletion included, reply exactly as the timed map that the SQL store refines, and leave what it holds |
| Decimal.IntRoundTrip | internal/store/sqlstore/store.go:437-472 | the decimal text of a 64-bit integer parses back to it |
| Decimal.TextIsDecimal | internal/store/sqlstore/store.go:456-456 | the text is decimal, with a minus sign for negative numbers |
| Decimal.FormatIntInjective | internal/command/router.go:923-925 | two database numbers never print alike |
| SqlStore.Store.GetLiveRow | internal/store/sqlstore/store.go:984-1003 | returns the row unless it is past its expiry, in which case the rows of the key are gone from both tables |
| SqlStore.PurgeKeeps | internal/store/sqlstore/store.go:997-1001 | the lazy deletion changes nothing that is there, no other key, and leaves member rows owned |
| SqlStore.Store.ReadRow | internal/store/sqlstore/store.go:202-222 | GET, TYPE and TTL, which gives the time left, reply as the timed map does; live rows stay |
| SqlStore.Store.Set | internal/store/sqlstore/store.go:245-297 | SET with NX, XX, KEEPTTL and TTL acts and replies as on the timed map, wrong types included; only its own key's live row may change |
| SqlStore.Store.MSet | internal/store/sqlstore/store.go:299-350 | all pairs or none, as on the timed map |
| SqlStore.Store.GetDel | internal/store/sqlstore/store.go:352-371 | returns and removes a string, as on the timed map |
| SqlStore.Store.Delete | internal/store/sqlstore/store.go:373-387 | the rows of all named keys are gone from both tables; the count is of key rows that were there, expired ones included |
| SqlStore.Store.Exists | internal/store/sqlstore/store.go:389-399 | counts the distinct named keys that are there |
| SqlStore.Store.Expire | internal/store/sqlstore/store.go:401-412 | sets the expiry of a key that is there, as on the timed map |
| SqlStore.Store.Persist | internal/store/sqlstore/store.go:414-424 | clears the expiry of a key that has one, as on the timed map |
| SqlStore.Store.IncrBy | internal/store/sqlstore/store.go:437-472 | increments with 64-bit wrap-around, creates a missing key, refuses other types and texts, as on the timed map |
| SqlStore.Store.ZAdd | internal/store/sqlstore/store.go:474-507 | adds or moves a member and replies 1 only for a new one, as on the timed map; a key row created over unowned member rows takes them in |
| SqlStore.Store.ZIncrBy | internal/store/sqlstore/store.go:659-693 | moves a member by an amount, as on the timed map |
| SqlStore.Store.DeleteMembers | internal/store/sqlstore/store.go:522-559 | ZREM, ZREMRANGEBYSCORE and ZPOP remove exactly the members the timed map removes, and bump the version only if there were any |
| SqlStore.Store.QueryMembers | internal/store/sqlstore/store.go:561-657 | ZCARD, ZSCORE, ZCOUNT, ZRANGE and ZRANGEBYSCORE reply as on the timed map |
| SqlStore.Store.CleanupThroughDelete | internal/store/d1store/store.go:828-853 | the D1 cleanup changes nothing that is there, keeps member rows owned, and returns the number of key rows it deleted |
| SqlStore.Store.CleanupExpired | internal/store/sqlstore/store.go:782-799 | the SQL cleanup changes nothing that is there, and keeps every member row owned if and only if none of the key rows it deletes had members |
| SqlStore.CleanupResurrects | internal/store/sqlstore/store.go:782-799 | the concrete run: an expired sorted set is cleaned up, one member is added, and ZCARD says two |
| SqlStore.Store.RunAll | internal/store/sqlstore/store.go:202-745 | over every run with time moving forward, tables with lazy deletion reply exactly as the timed map, and member rows stay owned |
| SqlStore.PurgesChangeNoReply | internal/store/sqlstore/store.go:984-1003 | two runs from the same owned tables, with and without the deletions of expired keys at any points, give the same replies to everything else and the same contents at any later time |
| SqlStore.LazyGetLosesUpdate | internal/store/sqlstore/store.go:980-1001 | for any expired row, an increment between the SELECT and the DELETEs of a GET reports success and is gone, while in either order of the two commands as a whole the counter stays |
| SqlStore.ExpireAroundSet | internal/store/sqlstore/store.go:401-412 | a SET between the SELECT and the UPDATE of an EXPIRE leaves value and expiry as if the EXPIRE had come second, and one version fewer than either order of the two commands |
| CommandLaws.Untouched | internal/store/sqlstore/store.go:202-745 | a key that no operation of a run may change holds what it held, until that expires |
| CommandLaws.SetThenRead | internal/store/sqlstore/store.go:245-297 | a SET that goes through replies with the old value; any time later, whatever happened to other keys, GET, TYPE and TTL give the new value, its type and its time left, until ttl, or the old expiry with KEEPTTL, or for ever |
| CommandLaws.SetRefused | internal/store/sqlstore/store.go:245-297 | a SET that NX, XX or a sorted set refuses says which and changes nothing |
| CommandLaws.GetDelThenGet | internal/store/sqlstore/store.go:352-371 | GETDEL replies as GET would, and a string is gone after it |
| CommandLaws.ExpireThenRead | internal/store/sqlstore/store.go:401-412 | after EXPIRE ttl, TTL counts down from ttl, and the key with its contents is there until ttl has passed and not after |
| CommandLaws.PersistThenRead | internal/store/sqlstore/store.go:414-424 | after PERSIST the key with its contents is there for good |
| CommandLaws.NothingToTouch | internal/store/sqlstore/store.go:401-424 | EXPIRE and PERSIST with nothing to touch say so and change nothing |
| CommandLaws.DelThenType | internal/store/sqlstore/store.go:373-387 | after DEL there is nothing |
| CommandLaws.MSetThenGet | internal/store/sqlstore/store.go:299-350 | MSET with a sorted set under one of its keys changes no key; otherwise each key is read back with the last value given for it, until its time to live is over |
| CommandLaws.MSetIsSets | internal/store/sqlstore/store.go:299-350 | with whatever options, an MSET that goes through is its SETs in order, and it is refused if and only if one of them would be |
| CommandLaws.CounterRuns | internal/store/sqlstore/store.go:437-472 | in any run in which only increments change a key and its expiry does not pass, each increment replies the running total modulo 2^64, each GET the total so far, and the key ends with the text of the wrapped sum, the expiry it had and a version that counts the increments |
| CommandLaws.NoCounter | internal/store/sqlstore/store.go:445-453 | INCRBY on a text that is no integer says so and changes nothing |
| CommandLaws.ZAddThenRead | internal/store/sqlstore/store.go:474-507 | after ZADD, ZSCORE gives the new score and everybody else's old one, ZCARD has grown by the reply, which is 1 for a new member, and type and time left are as they should be |
| CommandLaws.ZIncrByThenRead | internal/store/sqlstore/store.go:659-693 | ZINCRBY replies the old score, or zero, plus the amount, and that is what ZSCORE gives later |
| CommandLaws.ZAddThenByScore | internal/store/sqlstore/store.go:590-620 | a member just added is listed by score if and only if the bounds enclose its score |
| CommandLaws.ZRemThenRead | internal/store/sqlstore/store.go:522-542 | after ZREM exactly the named members have no score, and ZCARD has fallen by the reply |
| CommandLaws.ZRemRangeThenCount | internal/store/sqlstore/store.go:544-559 | ZREMRANGEBYSCORE replies what ZCOUNT would have, ZCARD falls by that, and ZCOUNT then finds nobody |
| CommandLaws.ZPopThenRange | internal/store/sqlstore/store.go:703-745 | ZPOPMIN n replies with the first n of the ranking, one if n is not positive, ZPOPMAX with the last n backwards, and ZRANGE 0 -1 later lists exactly the others |
| CommandLaws.RangesTell | internal/store/sqlstore/store.go:561-620 | ZRANGE and ZRANGEBYSCORE reply with the slices of the members, for all arguments |
| CommandLaws.WrongTypeChangesNothing | internal/store/sqlstore/store.go:202-745 | a sorted-set command on a string, and GET, GETDEL and INCRBY on a sorted set, say so and change nothing |
| ZSets.ZRangeIsSlice | internal/store/sqlstore/store.go:561-588 | for all start and stop, ZRANGE returns in rank order exactly the members whose rank lies between them, negative ones counted from the end |
| ZSets.RankingOrder | internal/store/sqlstore/store.go:561-588 | the ranking has lower scores first, and equal scores in byte order of the members |
| Ordering.LexIsByteOrder | internal/store/sqlstore/store.go:747-780 | the order of keys, ids and members is byte order: the first difference decides, or the end of the shorter |
| ZSets.ZPopMinProperties | internal/store/sqlstore/store.go:703-745 | ZPOPMIN takes the head of the ranking, leaves its tail, and the cardinality falls by what was popped |
| ZSets.ZPopMaxProperties | internal/store/sqlstore/store.go:703-745 | ZPOPMAX takes the tail of the ranking backwards and leaves its head |
| ZSets.ZPopMinAdds | internal/store/sqlstore/store.go:703-745 | popping n and then k is popping n + k |
| ZSets.ZPopMaxIsTail | internal/store/sqlstore/store.go:703-745 | ZPOPMAX k is the reverse of ZRANGE -k -1 |
| ZSets.ScoreRangesAgree | internal/store/sqlstore/store.go:544-657 | ZCOUNT, the unlimited ZRANGEBYSCORE and ZREMRANGEBYSCORE agree on the number of members, and exactly the others stay |
| ZSets.BoundsAreComparisons | internal/store/sqlstore/store.go:1325-1345 | a member is listed by an unlimited ZRANGEBYSCORE, and removed by ZREMRANGEBYSCORE, if and only if a <= s <= b, a < s <= b, a <= s < b or a < s < b for the four kinds of bounds, with open ends for -inf and +inf |
| ZSets.LimitIsSlice | internal/store/sqlstore/store.go:590-620 | with LIMIT, the listing is the stretch of the unlimited one that offset and limit name |
| ZSets.ReverseRange | internal/store/sqlstore/store.go:590-620 | the reverse form is the reversal |
| ZSets.LimitWindows | internal/store/sqlstore/store.go:590-620 | consecutive LIMIT windows concatenate to the window over both |
| ZSets.SplitAtScore | internal/store/sqlstore/store.go:1325-1345 | splitting at any score cuts the ranking in two, so the two counts add up to ZCARD |
| CacheRouter.CacheKeyInjective | internal/command/router.go:923-925 | two keys or two databases never share a cache entry |
| CacheRouter.Memory.constructor | internal/cache/memory.go:27-60 | an empty cache, with five seconds for a missing default time to live |
| CacheRouter.Memory.Get | internal/cache/memory.go:62-76 | an entry is served only before its deadline, and never by a disabled cache |
| CacheRouter.Memory.Set | internal/cache/memory.go:78-99 | an admitted entry lives for its time to live cut to the default, which also stands in for none; the counter of stored or of dropped entries goes up accordingly |
| CacheRouter.Memory.Del | internal/cache/memory.go:101-108 | the entry is gone |
| CacheRouter.AgreementLasts | internal/command/router.go:346-352 | entries that agree with their rows now agree at any later time: they die no later than their rows |
| CacheRouter.InvalidationKeepsAgreement | internal/command/router.go:374-612 | a store write followed by deleting the entries of every key it may have changed keeps cache and store in agreement |
| CacheRouter.InsertKeepsAgreement | internal/command/router.go:346-352 | caching the row just read keeps agreement |
| CacheRouter.Router.Get | internal/command/router.go:332-353 | hit or miss, GET replies and leaves the tables exactly as the store alone would |
| CacheRouter.Router.Execute | internal/command/router.go:374-660 | every other command on a key acts as on the timed map and keeps agreement, whether or not it succeeds |
| CacheRouter.Router.ZAddMany | internal/command/router.go:594-612 | ZADD with several members stores those before the first bad one, and keeps agreement although it then skips the invalidation |
| CacheRouter.ZAddAllAdds | internal/command/router.go:594-612 | a ZADD of several members puts each where its last score puts it, leaves everybody else, and replies by how many the set has grown |
| CacheRouter.ZAddAllEnds | internal/command/router.go:594-612 | a score that does not parse ends it, with the members before it stored and none after |
| CacheRouter.Router.MSet | internal/command/router.go:430-445 | MSET is all or nothing on the timed map and keeps agreement |
| CacheRouter.Router.Del | internal/command/router.go:492-504 | DEL removes the keys and keeps agreement |
| CacheRouter.Router.DelCache | internal/storeapi/server.go:1198-1205 | the entries of all named keys are gone, and nothing else is new |
| CacheRouter.Router.Cleanup | internal/store/sqlstore/store.go:782-799 | rows deleted behind the cache's back leave agreement intact |
| CacheRouter.Router.RunAll | internal/command/router.go:332-612 | over every run of commands, cleanups and evictions every GET replies as the store alone would at that moment, and without SQL cleanups every reply is the timed map's |
| Staleness.EntryHasOrigin | internal/command/router.go:332-353 | in every interleaving each cache entry was inserted by a GET that read it from the store, and has not changed since |
| Staleness.BoundedStaleness | internal/command/router.go:332-353 | every hit serves bytes that were the key's live value when some GET read them, less than the default time to live plus that GET's delay ago; a row measured before its expiry is not served past it by more than the insert took |
| Staleness.OutlivesRowIff | internal/command/router.go:346-352 | an entry can be served past the expiry of its row if and only if its GET measured the row at or past it, or inserted later than the measured and cut time to live left room for |
| Staleness.StaleOnlyByStraddling | internal/command/router.go:374-428 | after the last writer's delete, a hit serves what that writer stored unless its entry comes from a GET that read before the write and inserted after the delete |
| Staleness.ExpiredRowServed | internal/cache/memory.go:78-99 | for every default time to live, a run with no writer that serves a row one tick less than that past its expiry |
| Staleness.StraddlingServesStale | internal/command/router.go:332-353 | for every default time to live, a run that serves an overwritten value until one tick before it has passed |
| Sessions.Router.HandleCommand | internal/command/router.go:42-55 | the router's dispatch on a mutable session is the session function Handle |
| Sessions.Router.ExecuteCommand | internal/command/router.go:57-134 | execute, with EXEC's loop over the queue, is the session function Execute, and always returns |
| Sessions.HandleKeeps | internal/command/router.go:42-134 | one command keeps: the queue is empty outside MULTI, holds no MULTI, EXEC, DISCARD, QUIT or empty command, and a client in MULTI is authenticated or needs no password |
| Sessions.SessionsKeepInv | internal/command/router.go:17-134 | every session reached from a fresh one keeps it |
| Sessions.QueueAll | internal/command/router.go:50-53 | inside MULTI commands are queued in order and do nothing else |
| Sessions.MultiExecIsSending | internal/command/router.go:109-134 | MULTI c1 .. cn EXEC leaves session, store and cache as sending c1 .. cn does, and replies with the same n replies |
| Sessions.MultiDiscardIsNothing | internal/command/router.go:109-122 | MULTI c1 .. cn DISCARD changes nothing |
| SessionLaws.NothingWithoutLogin | internal/command/router.go:42-55 | with a password set, until it is sent the session stays fresh, the world is untouched, and everything but AUTH, PING and QUIT is refused with NOAUTH |
| SessionLaws.FirstLogin | internal/command/router.go:42-72 | the first AUTH with the password opens the session, and what follows goes as in an open session |
| SessionLaws.AuthedIffLogin | internal/command/router.go:60-73 | a session is authenticated if and only if a password is set and one of its commands was AUTH password or AUTH default password |
| SessionLaws.SessionEffect | internal/command/router.go:42-134 | over any commands, transactions opened, executed, discarded or nested, the world is the effect of the commands that took effect, each on data with the number of the last accepted SELECT, or 0, and the session holds that number, the last name and the open queue |
| SessionLaws.LoginEffect | internal/command/router.go:42-134 | with a password set, the effect is that of what comes after the first login, and of nothing before it |
| SessionLaws.RepliesNow | internal/command/router.go:73-97 | outside a transaction a command on data replies as on that world and database, PING and ECHO give back their argument, and CLIENT GETNAME the last name |
| Resp.Reader.Read | internal/resp/resp.go:19-91 | the reader consumes exactly the value the grammar finds at the front of its input, or fails as it does |
| Resp.Reader.ReadInt | internal/resp/resp.go:93-99 | an integer line |
| Resp.ArrayToStrings | internal/resp/resp.go:111-123 | the arguments of a command, or a refusal as soon as one item is no string |
| Resp.TakenAsStrings | internal/resp/resp.go:111-123 | a command is taken if and only if all items are bulk strings or status lines, and as their texts in order |
| Resp.PrintArray | internal/resp/resp.go:135-142 | header and items in order |
| Resp.RoundTrip | internal/resp/resp.go:125-142 | every nested value within the byte limit that is printed is read back, with the bytes behind it untouched |
| Resp.CommandRoundTrip | internal/resp/resp.go:19-123 | a printed command of arbitrary bytes is read back as its arguments |
| Resp.PipelineRoundTrip | internal/resp/resp.go:19-123 | a pipeline of printed commands and any tail is read back as exactly those commands and that tail |
| Resp.CommandWithinLimit | internal/resp/resp.go:25-46 | every command accepted in array form has at most maxBytes argument bytes in total |
| Resp.InlineRoundTrip | internal/resp/resp.go:79-90 | a line of words with any white space after each is read as a command of those words, with the bytes behind it untouched |
| Resp.NullIsEmpty | internal/resp/resp.go:25-54 | a length below zero is read as an empty bulk string or array |
| Like.RedisPatternToLike | internal/store/sqlstore/store.go:1347-1363 | the builder loop computes the character-wise translation |
| Like.EscapesWellPlaced | internal/store/sqlstore/store.go:1347-1363 | no escape in the translation dangles or stands before a character that needs none |
| Like.GlobPreserved | internal/store/sqlstore/store.go:1347-1363 | for every pattern and key, LIKE on the translation matches if and only if the glob does |
| Like.StarMatchesAll | internal/store/sqlstore/store.go:764-766 | leaving the clause out for "*" loses nothing |
| Like.SequentialIsOnePass | internal/store/sqlstore/store.go:1311-1316 | the three replacements in sequence are one escaping pass |
| Like.SearchIsContainment | internal/store/sqlstore/store.go:968-970 | a search matches if and only if the text contains the term |
| Paging.Scan | internal/store/sqlstore/store.go:747-780 | one SCAN page and its next cursor |
| Paging.ScanSnapshotIsGlob | internal/store/sqlstore/store.go:758-766 | SCAN sees exactly the keys of its database that are there, as the other commands have it, and that the glob matches |
| Paging.ScanPageSize | internal/store/sqlstore/store.go:747-780 | a page has the keys asked for, ten by default and a thousand at most, or all that are left, and then the cursor is "0" |
| Paging.ScanNeverRepeats | internal/store/sqlstore/store.go:747-780 | with anything inserted, deleted or expired between pages, returned keys strictly ascend and each was there on its page |
| Paging.ScanMissesNothing | internal/store/sqlstore/store.go:747-780 | with anything changing between pages, a key that is live and matches on every page is returned before the cursor comes back to "0" if and only if the scan does not end at a full page whose last key is "0" with the key beyond it |
| Paging.StaticScan | internal/store/sqlstore/store.go:747-780 | on an unchanged keyspace a scan returns the whole listing if and only if the key "0" does not end a full page that others follow; it takes floor(m / count) + 1 pages when "0" ends none |
| Paging.ScanLosesKeyAfterZero | internal/store/sqlstore/store.go:771-779 | SCAN 0 COUNT 1 over "0" and "1" ends after "0" |
| Paging.DocQueryResult | internal/store/sqlstore/store.go:1155-1170 | the page, its cursor and whether there is more, from one row more than the limit |
| Paging.QueryPageProperties | internal/store/sqlstore/store.go:949-976 | a page ascends, and a matching document not on it lies beyond its cursor |
| Paging.DocPageSize | internal/store/sqlstore/store.go:1266-1274 | a page has the documents asked for, twenty by default and a hundred at most, or all that are left, and says if and only if there are more |
| Paging.DocPagingComplete | internal/store/sqlstore/store.go:949-976 | following the cursor lists ids in strictly ascending order and misses no document that is live and matches on every page |
| FilteredPaging.FilteredPageExact | internal/store/sqlstore/store.go:1075-1112 | taking limit + 1 indexed ids and filtering afterwards is the right page if and only if nothing was dropped or nothing wanted lies beyond |
| DocIndex.UniqueValidFields | internal/store/sqlstore/store.go:1235-1264 | the trimmed valid names, each once, in ascending order |
| DocIndex.Difference | internal/store/sqlstore/store.go:1297-1309 | the names that are new, each once |
| DocIndex.BuildDocIndexes | internal/store/sqlstore/store.go:1177-1222 | exactly one row for each configured field that normalises, with distinct primary keys, and the search text; refused if and only if the document does not parse |
| DocIndex.Collection.InsertIndex | internal/store/sqlstore/store.go:911-918 | index rows are only ever inserted where no row has their primary key |
| DocIndex.Collection.MergeConfig | internal/store/sqlstore/store.go:1046-1073 | the configuration grows by the new valid names, never hitting a primary key |
| DocIndex.Collection.ConfigureIndexes | internal/store/sqlstore/store.go:807-852 | from any state, all or nothing: the new configuration, fresh search texts, and exactly the index rows that live documents call for |
| DocIndex.Collection.GetLiveDocRow | internal/store/sqlstore/store.go:1005-1024 | an expired document is gone together with its index rows |
| DocIndex.Collection.PutDoc | internal/store/sqlstore/store.go:858-923 | all or nothing: conflict, refusal, or the new row with its version and expiry, its index rows replaced and no other document's touched |
| DocIndex.Collection.DeleteDoc | internal/store/sqlstore/store.go:936-947 | the document and its index rows are gone |
| DocIndex.Collection.QueryDocs | internal/store/sqlstore/store.go:949-976 | without a filter the page of the live matching documents; with one, the two refusals or the page through the index |
| DocIndex.Collection.QueryDocsByIndex | internal/store/sqlstore/store.go:1075-1112 | limit + 1 ids from the index, then those that are live and match, in id order |
| DocAgreement.IndexAlwaysSound | internal/store/sqlstore/store.go:807-947 | at every point of every run each index row names a stored document whose configured field normalises to the indexed text |
| DocAgreement.ConfigureMakesExact | internal/store/sqlstore/store.go:807-852 | after ConfigureIndexes, whatever was there before, a row is there if and only if a live document calls for it |
| DocAgreement.PutKeepsComplete | internal/store/sqlstore/store.go:858-923 | a write keeps a complete index complete if and only if no other live document has a scalar at a field it newly starts to index |
| DocAgreement.StepKeepsComplete | internal/store/sqlstore/store.go:807-947 | deletion, expiry, reconfiguration and writes without such a gap keep the index complete |
| DocAgreement.PutKeepsSearchable | internal/store/sqlstore/store.go:858-923 | a write keeps all search texts up to date if and only if the search fields it adds change no other live document's |
| DocAgreement.StepKeepsSearchable | internal/store/sqlstore/store.go:807-947 | deletion, expiry, reconfiguration and writes that change nobody else's keep search texts up to date |
| DocAgreement.SearchIsExact | internal/store/sqlstore/store.go:963-970 | with search texts up to date, a search finds exactly the live documents of which the text of the configured search fields contains the term |
| DocAgreement.CompleteSinceConfigure | internal/store/sqlstore/store.go:807-947 | from any ConfigureIndexes on, until a write leaves a gap, each live document has all its rows |
| DocAgreement.CompleteWithoutNewFields | internal/store/sqlstore/store.go:807-947 | after a ConfigureIndexes, writes that name only configured fields, deletions and expiry leave the index complete, which the calls alone decide |
| DocAgreement.RunAll | internal/store/sqlstore/store.go:807-947 | calling the operations of a collection in any order goes through a behaviour of the kind the theorems are about |
| DocAgreement.NewFieldHidesOlder | internal/store/sqlstore/store.go:1046-1073 | the concrete gap: a filtered query finds only the newer of two documents with the value |
| DocAgreement.NewSearchFieldHidesOlder | internal/store/sqlstore/store.go:1046-1073 | the concrete case: after a write that adds a search field, an older document with the same text has none |
| DocAgreement.WherePageExact | internal/store/sqlstore/store.go:1075-1112 | given the index invariant, a filtered page is the page of the wanted documents if and only if all looked-at ids are wanted or no wanted one lies beyond |
| DocAgreement.WherePageIsScan | internal/store/sqlstore/store.go:1075-1112 | without a search term and expired documents, every filtered page equals the page of a scan |
| DocAgreement.WherePagingComplete | internal/store/sqlstore/store.go:1075-1112 | following the cursor through such pages lists ids in ascending order and misses nothing that is wanted throughout |
| DocAgreement.ExpiredEndsPaging | internal/store/sqlstore/store.go:1092-1111 | a run of writes and one query in which an expired document ends the listing and a live one is lost |
| DocLaws.FilterFindsValues | internal/store/sqlstore/store.go:1177-1222 | with the index sound and complete, a filter finds a live document if and only if its field is that text, that number, or the true, false or null so written; never an array or an object |
| DocLaws.WantedHaveValue | internal/store/sqlstore/store.go:1075-1112 | the documents that filtered pages list are the live ones with that value |
| DocLaws.FilterOperators | internal/store/sqlstore/store.go:951-954 | eq is the only operator, in any case |
| DocLaws.SearchFindsFields | internal/store/sqlstore/store.go:964-970 | with search texts up to date, a search for a word finds a live document if and only if one of the configured search fields holds a text that contains it |
| DocLaws.TakenNames | internal/store/sqlstore/store.go:1235-1264 | the names that a configuration takes are those given with any blanks around them that have 1 to 128 letters, digits, underscores and dashes |
| DocLaws.VersionsCountWrites | internal/store/sqlstore/store.go:858-923 | over every run that neither deletes a document nor gives it an expiry, it holds what was last written, its version counts the writes that went through, and each write is told its version, that the document is there already, or that it sent none |
| DocLaws.WrittenLasts | internal/store/sqlstore/store.go:877-884 | a write with a time to live is there that long; one without keeps the expiry it finds, and a new document has none |
| TokenBucket.RateLimiter.Allow | internal/docapi/server.go:677-697 | the verdict and the buckets are those of the history of calls in lock order |
| TokenBucket.BucketIsLeastRoom | internal/docapi/server.go:677-697 | the tokens in a bucket are the least room that any earlier call of the client leaves, and some call attains it |
| TokenBucket.AdmittedIffWithinBound | internal/docapi/server.go:677-697 | a call after the first is admitted if and only if it stays within burst + rate * (t - s) for every earlier call at s, timestamps in any order |
| TokenBucket.FirstCall | internal/docapi/server.go:681-685 | a first call is always admitted, which is within the bound if and only if the burst is at least one |
| TokenBucket.AdmissionBound | internal/docapi/server.go:677-697 | from a call at s to an admitted call at t at most burst + rate * (t - s) calls are admitted |
| TokenBucket.PoliteClientNeverRefused | internal/storeapi/server.go:1304-1324 | with a burst of at least one, a client spacing its calls 1 / rate apart is never refused |

## Left out

- HTTP routing, CORS, IP allowlists, TLS, configuration, migrations, logging, status and admin pages: plumbing.
- The WebSocket hub: it publishes outside its lock, which a sequential model would not show.
- GORM, the SQL engines, the D1 HTTP client and ristretto are not modelled beyond maps with primary keys, atomic transactions, statements that take effect once and report truthfully, and a lossy cache with deadlines; in particular ristretto's buffering of writes.
- Errors of the database connection: a store call either does its work or refuses for a reason of its own.
- D1 sorted sets, D1 document operations and D1 paging: the same logic as the SQL store without transactions; D1's zpop names a column its schema does not have.
- The D1 encoding of values as base64 text is taken to be the identity, and version numbers do not overflow.
- D1Protocol.Linearizable: on a key with writers outside its condition (EXPIRE, PERSIST, DEL, a SET that may upsert, rows that expire during the run) no serialisation is claimed; D1Exact has a race for each of them that no order explains.
- DocLaws.SearchFindsFields: a term with a space in it can match across the end of one field and the start of the next, as the joined search text lets it; what such a term finds is stated by DocAgreement.SearchIsExact.
- The columns created_at and updated_at of the SQL store, and MGET, STRLEN, DBSIZE, INFO and MEMORY, which only read.
- SqlStore.Store.RunAll: DEL replies with a count of table rows that the timed map does not know, so there only the effect is compared; the count is stated by SqlStore.Store.Delete.
- SqlStore.Store.RunAll: a command takes one clock reading; the source may read the clock twice within one call.
- SqlStore.Store.DeleteMembers: ZREM takes the set of the named members; the list of their digests, built in a loop, is not kept.
- Operations of the SQL store are atomic here; some of them (ZREM, ZREMRANGEBYSCORE, EXPIRE, PERSIST, the lazy deletion of a GET) are two or three statements without a transaction around them. SqlStore.LazyGetLosesUpdate and SqlStore.ExpireAroundSet state what that means for the lazy deletion and for EXPIRE; PERSIST, ZREM and ZREMRANGEBYSCORE write their version in the same way and are not taken apart.
- Floating point: NaN and infinite member scores, formatting and parsing of scores; int64 overflow of rank arithmetic and of durations.
- Paging.ScanMissesNothing: the key "" is excluded, since SCAN starts above it.
- Text comparison is binary in ORDER BY and equality; LIKE compares characters by a parameter, so both case-sensitive and case-insensitive engines are covered.
- Sessions.Router.ExecuteCommand: the commands on data are a parameter, here any function of the shared world, the database number and the arguments; the argument checks of single commands are not modelled. Command names are upper-cased on ASCII letters.
- Resp.Reader.Read: the source allocates room for as many items as an array header announces before it reads any, so a huge header (such as one announcing 2^63 - 1 items) is a panic there and an ordinary failure here; what is left unread after an error is not stated, since the connection is dropped; strings of white space other than ASCII in inline commands are not split; null and empty bulk strings read alike, as in the source.
- DocIndex.Collection.QueryDocs: documents in a result are given by their ids. Numbers are given by their shortest decimal text; field names are trimmed of ASCII white space.
- The document operations are modelled on the rows of one (db, collection), to which every one of their statements is restricted.
- CacheRouter.Memory.constructor: the limits on keys and bytes, which only make ristretto drop entries, and a ristretto that cannot be built, which disables the cache.
- TokenBucket.RateLimiter.Allow: tokens are real numbers, and buckets are never dropped, as in the source.
