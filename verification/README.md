# Mini-Key-Value-Store, modelled and proved in Dafny

The system is a sharded, memory-bounded key-value cache with deadlines, exact LRU order within a
shard and compare-and-swap tokens, behind a line protocol. This project models the cache, the
protocol, the session loops, the client that reads the answers, the life of a connection and the
way the benchmark shares out its keys. It proves what each of them promises, for every input, every
run and every interleaving. `dafny verify dfyconfig.toml` checks all of it.

## How it is built

**One shard, twice.** `Cache.Step` says what an operation does to a list of entries, most recent
first. `ShardImpl.MutableShard` is the shard as it runs: a map and a doubly linked list (`Lru.List`)
over the same heap nodes, with `memoryBytes` and `ttlCount` as running totals, lazy expiry, the
sweep gated by `ttlCount`, and eviction around a protected key. Each of its methods is proved to
compute `Cache.Step`, so what is proved of `Cache.Step` holds of the linked structure. In the same
way `StoreImpl.MutableStore` computes `Store.Apply`, `ParserImpl.Parser` computes `Protocol.Parse`,
`ServerImpl.MutableServer` computes `Session.Run`, and `ClientImpl.MiniKvClient` computes
`Client.DecodeGet`.

**Theorems over runs.** `Effects` reduces the six operations to five effects on the list. On top of
that:

* `Sweeper`: sweeps at any points of any run are invisible; lazy expiry refines a cache that expires
  eagerly.
* `Interleaving`: every interleaving of lock, clock, counter and unlock steps is linearizable, in
  real-time order, with tokens 1, 2, 3 and so on.
* `History`: a read hits exactly when an unbounded map says it should, unless the key was evicted.
* `Ideal`: every operation answers as that map says; pressure, expired entries and other keys have no
  say.
* `Aba`: a token that still matches proves that its entry was never touched.
* `Concurrent`: the last two hold under every schedule of threads.
* `Recency` and `Pressure`: lists are ordered by last touch; victims are the shortest least recent
  run that makes room; failed writes change nothing.
* `Conservation`: everything inserted is present, deleted, evicted, swept or lapsed.
* `Increments`: `incr` is exact unsigned 64-bit addition on decimal text.

**The wire.** `Framing` proves exactly when requests survive printing and parsing, also back to
back. `SessionLaws` proves that the authentication gate is silent and closed, and that every session,
on any bytes, is a run of the store. `Client.EndToEnd` goes from the client's `set` through parser,
session and store back to the client's `get`. `Grammar` says exactly which bytes are which command,
`Spelling` and `Unicode` exactly which words are verbs and what counts as white space. `Commands` says
what each command means to a client, in bytes: its answer, in terms of what a read in its place would
have shown, and what the next read shows. `Bookkeeping` does the same for the counters.

The round trips do not hold for all keys that `validKey` accepts. It looks for ASCII spaces only,
while `strings.Fields` splits on Unicode white space too. A key such as `a`, U+00A0, `7` is therefore
cut in two on the wire: its `set` is stored under `a` with a TTL of 7 seconds, and its `get` is
refused. `Framing.SplitKeyIsMisread` and `Client.SplitKeyFails` show this, and the round trips are
stated as equivalences: they hold if and only if the key holds no white space.

**Around it.** `Lifecycle` covers every interleaving of connection handlers, `Workload` the
benchmark's slices and keys.

Time is a natural number, and zero stands for "no deadline". Every operation carries the clock
reading it makes. Runs that need an ordered clock say so with `Store.Clocked`: each shard reads a
clock that does not go back, while the readings of different shards may interleave freely.

## Model

| member | source | states |
|---|---|---|
| `Lru.List.PushFront` | internal/store/lru.go:17-27 | the node becomes the first of the chain, which stays acyclic with mirrored links and correct ends |
| `Lru.List.Remove` | internal/store/lru.go:29-42 | exactly the given node leaves the chain and keeps no links |
| `Lru.List.MoveToFront` | internal/store/lru.go:44-50 | the node comes first and the order of the others does not change |
| `Lru.List.Back` | internal/store/lru.go:52-54 | the last node of the chain, or null when it is empty |
| `ShardImpl.Counter.Add` | internal/store/shard.go:91 | the shared counter goes up by one and the new value is the token |
| `ShardImpl.MutableShard.constructor` | internal/store/shard.go:39-48 | a new shard is valid and empty |
| `ShardImpl.MutableShard.DeleteLocked` | internal/store/shard.go:334-341 | one entry leaves the map, the list and both totals; the order of the rest stays |
| `ShardImpl.MutableShard.RemoveExpiredLocked` | internal/store/shard.go:296-307 | in whatever order the map is visited, exactly the expired entries go and are counted as expirations |
| `ShardImpl.MutableShard.EvictionCandidate` | internal/store/shard.go:312-322 | the least recent entry whose key is not protected |
| `ShardImpl.MutableShard.EvictUntilFitsLocked` | internal/store/shard.go:309-332 | keeps the longest most recent run of other entries that fits, spares the protected key, counts the victims; fails only if the write cannot fit alone |
| `ShardImpl.MutableShard.ProjectedBytes` | internal/store/shard.go:59-72 | the total that the write would lead to equals the sum over the other entries plus its size |
| `ShardImpl.MutableShard.MakeRoom` | internal/store/shard.go:72-88 | after a passed size check the pressure logic of `set` always makes room; its late error return is unreachable |
| `ShardImpl.MutableShard.EntryHasNode` | internal/store/shard.go:168-171 | a key with an entry is in the map, so the late not-found returns of `cas` and `incr` are dead |
| `ShardImpl.MutableShard.EvictAround` | internal/store/shard.go:174-179 | eviction around a held node always makes room and leaves that node in the map, although it is not fetched again |
| `ShardImpl.MutableShard.MakeRoomFor` | internal/store/shard.go:164-180 | through sweep and eviction the node that `cas` or `incr` holds stays the one in the map, and room is made |
| `ShardImpl.MutableShard.NoDeadlinesNoSweep` | internal/store/shard.go:74 | with `ttlCount` at zero a sweep would change nothing, so gating it on `ttlCount` loses nothing |
| `ShardImpl.MutableShard.Lookup` | internal/store/shard.go:60-66 | finds the live entry of a key and drops it if its deadline has passed |
| `ShardImpl.MutableShard.Commit` | internal/store/shard.go:90-119 | reuses or inserts the node at the front, stamps it with the next token, and keeps both totals exact |
| `ShardImpl.MutableShard.PutLocked` | internal/store/shard.go:68-120 | size check, room, stamp and placement of `set` together equal the specified write, or fail and change nothing |
| `ShardImpl.MutableShard.Overwrite` | internal/store/shard.go:183-194 | writing through the held node stamps it with the next token, moves it to the front and keeps map, list and bytes exact |
| `ShardImpl.MutableShard.WriteHeld` | internal/store/shard.go:244-268 | size check, room and the write through the held node equal the specified write, or fail and change nothing |
| `ShardImpl.MutableShard.ReplaceHeld` | internal/store/shard.go:160-195 | the same for `cas`, with the number of deadlines kept exact |
| `ShardImpl.MutableShard.Set` | internal/store/shard.go:50-121 | new recency list, counters, token and reply are those of the specification |
| `ShardImpl.MutableShard.Get` | internal/store/shard.go:123-137 | the same for `get`, with lazy expiry and the move to the front |
| `ShardImpl.MutableShard.Cas` | internal/store/shard.go:139-196 | the same for `cas`, with its four errors, writing through the node it looked up |
| `ShardImpl.MutableShard.Delete` | internal/store/shard.go:198-212 | the same for `delete`; an expired entry goes but is reported absent |
| `ShardImpl.MutableShard.Incr` | internal/store/shard.go:214-270 | the same for `incr`, with its five errors, writing through the node it looked up |
| `ShardImpl.MutableShard.CleanupExpired` | internal/store/shard.go:272-288 | the same for the sweep; it returns how many entries are gone, and `expirations` grows by that number |
| `ShardImpl.MutableShard.Execute` | internal/store/shard.go:50-288 | one step of the shard, keeping map and list on the same nodes and `memoryBytes` and `ttlCount` exact |
| `ShardImpl.MutableShard.Len` | internal/store/store.go:151 | the size of the map is the length of the list |
| `Eviction.VictimIsLast` | internal/store/shard.go:312-326 | taking the candidate out removes the last of the unprotected entries |
| `Eviction.ClearedThenWrite` | internal/store/shard.go:72-119 | sweep, eviction and write in sequence equal the closed form of a write |
| `Effects.StepIsEffect` | internal/store/shard.go:50-288 | every operation is one of five effects, and its reply tells which |
| `ShardLaws.StepKeepsInv` | internal/store/shard.go:68-88 | keys stay unique and the memory of the shard within its budget, after every operation |
| `ShardLaws.StepMembers` | internal/store/shard.go:90-118 | an entry after an operation was there before or is the one just written, in front and with the new token |
| `ShardLaws.SweepCounts` | internal/store/shard.go:272-288 | a sweep reports exactly the number of overdue entries, which is the number it removes and the number it adds to `expirations` |
| `ShardLaws.TokenFree` | internal/store/shard.go:91 | the value of the token influences neither reply nor anything but the stamp |
| `ShardLaws.WriteLive` | internal/store/shard.go:72-88 | the live survivors and the evictions of a write are the same whether or not expired entries were still around |
| `ShardLaws.PerformLiveLaw` | internal/store/shard.go:50-288 | what an operation does to live entries and evictions is a function of the live entries |
| `Pressure.KeepersAreLongestRun` | internal/store/shard.go:311-327 | what is kept fits beside the write, and one more entry would not |
| `Pressure.VictimsAreShortestRun` | internal/store/shard.go:309-332 | the victims are the shortest least recent run whose removal makes room, and `evictions` counts exactly them |
| `Pressure.VictimsAreTheMissing` | internal/store/shard.go:309-332 | a live entry of another key disappears if and only if it is a victim |
| `Pressure.ExpiredGoFirst` | internal/store/shard.go:74-88 | no live entry is evicted while an expired one remains in the shard |
| `Pressure.FailureChangesNothing` | README.md:252-254 | a failed operation leaves live contents, live order and counters alone |
| `Pressure.FailureLeavesStore` | README.md:252-254 | the same for every shard of the store and for the token counter |
| `Sweeper.StepAgrees` | internal/store/shard.go:123-270 | shards that differ only in expired entries answer alike and go on agreeing |
| `Sweeper.SweepsAreInvisible` | internal/store/shard.go:272-307 | for every run: replies, tokens, live contents, live order and evictions are those of the run without its sweeps |
| `Sweeper.AnySweepSchedule` | internal/store/store.go:113-119 | two runs that differ only in where they sweep have the same replies and the same live contents |
| `Sweeper.EagerRun` | internal/store/shard.go:272-288 | sweeping before every operation is one of those schedules |
| `Sweeper.LazyRefinesEager` | internal/store/shard.go:131-134 | lazy, pressure-time and background expiry all refine a cache that expires eagerly |
| `Recency.StepKeepsOrder` | internal/store/shard.go:99-135 | an operation keeps its list strictly ordered by last touch |
| `Recency.ListsAreOrdered` | internal/store/shard.go:11-19 | in every reachable state each list is strictly ordered by last successful touch |
| `Recency.VictimsAreLeastRecent` | internal/store/shard.go:309-332 | every survivor other than the written key was touched later than every victim |
| `Conservation.StepBalances` | internal/store/shard.go:50-288 | one operation: what it inserts and removes accounts for the change |
| `Conservation.NothingIsLost` | internal/store/shard.go:284-330 | over any run inserted = present + evicted + swept + deleted + lapsed |
| `History.OwnKey` | internal/store/shard.go:50-270 | an operation records its own key truthfully and drops it unasked only if it has expired |
| `History.OtherKey` | internal/store/shard.go:296-332 | an operation on another key takes an entry only by eviction or expiry, and brings nothing back |
| `History.RunJustifies` | internal/store/shard.go:50-341 | in every reachable state a cached entry is the latest write, and a missing one was deleted, evicted or has expired |
| `History.ReadsAgreeWithLatest` | internal/store/shard.go:123-137 | a read hits if and only if its key was written, not deleted, not evicted since and not expired; a hit has the latest value and token |
| `Ideal.StepIsIdeal` | internal/store/shard.go:50-270 | the reply of an operation is a function of its key's live entry and the limits, errors in the source's order |
| `Ideal.RepliesAreIdeal` | internal/store/shard.go:50-270 | in every run every reply is the one that the unbounded map gives, except for keys evicted since their last write |
| `Ideal.VisibleUntilDeadline` | internal/store/store.go:202-211 | through any later events that do not write or delete its key, a stored value is visible if and only if it was not evicted and its deadline, if it has one, is not reached |
| `Aba.TokenWasThere` | internal/store/shard.go:139-158 | a token given out earlier and found after an event was on the same entry before it |
| `Aba.TokenWasThereThroughout` | internal/store/store.go:51-54 | the same at every point of every run |
| `Aba.StaleTokensNeverMatch` | README.md:375-378 | if `cas` succeeds with a token that was read, its entry was not written, deleted, evicted or expired in between |
| `Increments.AddDeltaIsExact` | internal/store/shard.go:227-239 | exactly when text is no number, does not fit 64 bits, or overflows, and otherwise the sum |
| `Increments.LeadingZerosCount` | internal/store/shard.go:231-239 | any number of zeros in front of a number does not change the sum |
| `Increments.IncrementStoresSum` | internal/store/shard.go:239-269 | a success stores decimal text of the sum, keeps the deadline and reports the sum |
| `Increments.AnswerLaw` | internal/store/shard.go:227-247 | the reply depends on the live text alone, not on memory pressure |
| `Increments.TwoIncrementsAreOne` | internal/store/shard.go:231-269 | two successful increments equal one by their sum, also from text with leading zeros |
| `Decimal.ScanDecimal` | internal/store/store.go:222-232 | true if and only if the bytes are one or more digits |
| `Decimal.FormatThenValue` | internal/store/shard.go:240 | formatted numbers are decimal and parse back to themselves |
| `Decimal.ValueOfConcat` | internal/store/shard.go:231 | digits count by their decimal place: the value of two strings in a row is that of the first, shifted, plus that of the second |
| `Decimal.LeadingZeros` | internal/protocol/protocol.go:230 | leading zeros do not change a number |
| `Decimal.FormatIsCanonical` | internal/store/shard.go:240 | numbers print without leading zeros |
| `Decimal.FormatInjective` | internal/benchmark/runner.go:179-181 | different numbers have different texts |
| `Hash.ShardIndexOf` | internal/store/store.go:169-180 | the index is the FNV-1a hash modulo the number of shards as a 32-bit integer, for every number where that is not zero |
| `Hash.HashOf` | internal/store/store.go:174-178 | the loop computes the recursive FNV-1a fold |
| `Hash.FoldIsFnv1a` | internal/store/store.go:170-178 | start from 2166136261; for each byte exclusive or, then multiply by 16777619 modulo 2^32 |
| `Hash.XorIsBitwise` | internal/store/store.go:176 | a bit of the exclusive or is set if and only if it is set in exactly one operand |
| `Store.ApplyKeepsInv` | internal/store/store.go:89-119 | every operation keeps each key in the shard its hash names, unique, within budget, and all tokens distinct |
| `Store.RunKeepsInv` | internal/store/store.go:47-58 | the same over every run |
| `Store.CounterCountsWrites` | internal/store/store.go:51-54 | the counter is the number of successful writes |
| `Store.WriteIsStamped` | internal/store/shard.go:91-118 | a successful write is in front of its shard with the next token |
| `Store.TokensInOrder` | internal/store/store.go:51-54 | in every run the successful writes are stamped 1, 2, 3, and so on |
| `Store.RunsCompose` | internal/store/store.go:89-119 | running two sequences of events one after the other is running their concatenation |
| `Store.SweepBalances` | internal/store/shard.go:272-288 | a sweep takes as many items out of the store as it reports, all of them as expirations |
| `Interleaving.DoKeepsInv` | internal/store/shard.go:50-52 | every lock, clock, counter or unlock step keeps a serial run that explains all shards and replies |
| `Interleaving.Linearizable` | internal/store/store.go:47-58 | every interleaving answers as one serial run does, uses as many tokens, and ends in its state |
| `Interleaving.OnlyLocksBlock` | internal/store/shard.go:50-52 | an operation can start if and only if its shard is unlocked, and once started it can always go on to its end |
| `Interleaving.RealTimeOrder` | internal/store/shard.go:50-52 | in every schedule an operation that locks after another has unlocked takes a later place in that serial run |
| `Interleaving.UnlockAnswers` | internal/store/shard.go:50-52 | unlocking records the outcome at the operation's place, which is not before the operation began |
| `Concurrent.RepliesAreIdeal` | internal/store/shard.go:50-270 | under every schedule every operation of every thread answers as the unbounded map says at its place in the serial order |
| `Concurrent.UsedTokensAreGone` | internal/store/shard.go:187 | once a `cas` has used a token up, no run of events makes its key carry it again |
| `Concurrent.StaleTokensNeverMatch` | README.md:375-378 | under every schedule, if some thread read a token and some thread's `cas` with it succeeded, the read came first and the key held exactly what was read at every point in between |
| `StoreImpl.Normalize` | internal/store/store.go:182-200 | the result is usable, and every usable setting is kept |
| `StoreImpl.DefaultsAre` | internal/store/store.go:60-68 | what is not configured is 1 MiB per value, 64 MiB in all, 64 bytes of overhead and 16 shards |
| `StoreImpl.SplitIsEven` | internal/store/store.go:72-75 | each shard gets the configured limits and an equal share of the memory, rounded down, but at least one byte |
| `StoreImpl.FitsItsShard` | internal/store/store.go:72-75 | an item fits its shard if and only if as many items of its size as there are shards fit the configured memory, or it has at most one byte |
| `StoreImpl.MutableStore.constructor` | internal/store/store.go:70-82 | a new store is valid and empty, has the normalised number of shards, splits the memory evenly among them, and shares one counter |
| `StoreImpl.MutableStore.MakeShards` | internal/store/store.go:77-80 | the shards are empty and own disjoint parts of the heap |
| `StoreImpl.MutableStore.ShardFor` | internal/store/store.go:162-164 | the shard that the hash of the key names |
| `StoreImpl.MutableStore.ExecuteAt` | internal/store/store.go:89-111 | an operation changes its own shard as specified and leaves the others alone |
| `StoreImpl.MutableStore.ExecuteOn` | internal/store/store.go:89-119 | the same as one step of the specified store |
| `StoreImpl.MutableStore.Execute` | internal/store/store.go:89-111 | one step of the whole store as specified |
| `StoreImpl.MutableStore.CleanupExpired` | internal/store/store.go:113-119 | the result is that of one sweep per shard; the total is how many items are gone, and how much the expirations have grown |
| `StoreImpl.MutableStore.MemoryBytes` | internal/store/store.go:121-127 | the sum over all entries of key, value and overhead bytes, and at most the larger of budget and number of shards |
| `StoreImpl.MutableStore.Stats` | internal/store/store.go:144-160 | items, bytes, byte budget, evictions and expirations are the totals over all shards, with the items of each shard |
| `StoreImpl.MemoryIsBounded` | internal/store/store.go:121-127 | in every run, even if each shard is sampled at another moment of it, the total is at most the larger of budget and number of shards |
| `Wire.FieldsOfJoin` | internal/protocol/protocol.go:63 | a printed line splits into what was printed if and only if no printed word is empty or holds white space, Unicode white space included |
| `Wire.FieldsAreWords` | internal/protocol/protocol.go:63 | no field of any line holds white space, of one byte or of several |
| `Unicode.SpaceIsUnicode` | internal/protocol/protocol.go:63 | in front of any bytes a character is taken for white space if and only if its code point is one of Unicode's, in its whole length |
| `Unicode.NoSpaceInside` | internal/protocol/protocol.go:63 | no white space starts inside a character |
| `Wire.ReadSliceOf` | internal/protocol/protocol.go:202-208 | a line that fits the buffer is read back exactly, whatever follows |
| `Wire.FormatIsToken` | internal/protocol/protocol.go:221-235 | printed 64-bit numbers are accepted tokens of at most 20 bytes |
| `Protocol.ParseConsumes` | internal/protocol/protocol.go:50-185 | reading a command consumes something, so session loops end |
| `ParserImpl.Reader.ReadSlice` | internal/protocol/protocol.go:202-208 | the shortest stretch that ends in a line feed, if that is within 4096 bytes; a full buffer and the end of the stream exactly when it is not |
| `ParserImpl.Reader.ReadFull` | internal/protocol/protocol.go:102-105 | exactly n bytes, or failure if fewer are left |
| `ParserImpl.Reader.ReadValue` | internal/protocol/protocol.go:102-108 | the declared number of bytes if CRLF follows them |
| `ParserImpl.ScanKey` | internal/protocol/protocol.go:237-247 | true if and only if the key has 1 to 250 bytes, none of them up to 32 or 127 |
| `ParserImpl.KeysFromFields` | internal/protocol/protocol.go:187-197 | all fields if there are any and every one is a valid key |
| `ParserImpl.ScanUintToken` | internal/protocol/protocol.go:221-235 | the decimal value of a token of digits below 2^64, and nothing else |
| `ParserImpl.ScanByteCount` | internal/protocol/protocol.go:210-219 | the decimal value of a token of digits below 2^63, and nothing else |
| `ParserImpl.Parser.ReadSet` | internal/protocol/protocol.go:84-109 | the `set` line with or without TTL, and its value block |
| `ParserImpl.Parser.ReadCas` | internal/protocol/protocol.go:141-181 | the `cas` line with or without TTL, and its value block |
| `ParserImpl.Parser.ReadCommand` | internal/protocol/protocol.go:50-185 | the parsed command and what is left of the stream, the end, or a protocol error |
| `Spelling.VerbTexts` | internal/protocol/protocol.go:68-182 | the ten verbs, letter by letter |
| `Spelling.VerbOfIsSpelling` | internal/protocol/protocol.go:68 | a word is read as a verb if and only if it spells it, in either case of each letter, with U+0130 for an i |
| `Spelling.AnyCase` | internal/protocol/protocol.go:68 | any mixture of upper and lower case is recognised |
| `Spelling.UnknownVerb` | internal/protocol/protocol.go:182-184 | an ASCII word that is no such spelling is no verb |
| `Grammar.ParseIsExact` | internal/protocol/protocol.go:50-185 | a stream is parsed as a command if and only if it begins with a line of at most 4096 bytes that spells it, and its payload; what is left follows |
| `Grammar.EndIsExact` | internal/protocol/protocol.go:53-55 | the end is reported if and only if there is no line feed and the buffer is not full |
| `Grammar.ArgumentsAreExact` | internal/protocol/protocol.go:68-184 | the words after the verb and the bytes after the line are a command if and only if they spell it |
| `Grammar.ArityIsChecked` | internal/protocol/protocol.go:70-145 | a verb with too many or too few arguments is refused |
| `Grammar.LineNeedsCarriageReturn` | internal/protocol/protocol.go:58-60 | a line without a carriage return is refused |
| `Grammar.BlockIsTaken` | internal/protocol/protocol.go:102-108 | a value block is taken if and only if it is complete and CRLF follows it |
| `Grammar.RespelledRoundTrip` | internal/protocol/protocol.go:50-185 | a printed command is parsed back however its verb is spelled |
| `Framing.SingleKeyLinesFit` | internal/protocol/protocol.go:12 | lines of single-key commands have at most 322 bytes and always fit the buffer |
| `Framing.RequestRoundTrip` | internal/protocol/protocol.go:50-185 | a printed command parses back and leaves exactly the rest if and only if its keys and token hold no white space and its line fits; a longer line is an error |
| `Framing.ParsedIsClean` | internal/protocol/protocol.go:63-185 | no key or token that comes out of the parser holds white space |
| `Framing.SplitKeyIsMisread` | internal/protocol/protocol.go:63-109 | the key `a`, U+00A0, `7` is valid, but its `set` is understood as a `set` of `a` with a TTL of 7, and its `get` is a protocol error |
| `Framing.PipelineRoundTrip` | internal/protocol/protocol.go:50-185 | such commands printed back to back parse back to the same list, also with CRLF inside values, and what follows is parsed as usual |
| `Framing.PipelineIsExact` | internal/protocol/protocol.go:50-185 | a printed list parses back to itself if and only if every command in it is free of white space in its names and every line fits |
| `ServerImpl.MutableServer.constructor` | internal/server/server.go:60-66 | a new server is valid, with an empty store, all counters at zero, and the limits that the configuration splits into |
| `ServerImpl.MutableServer.Fetch` | internal/server/server.go:477-510 | the blocks of the keys that hit, in request order, then END |
| `ServerImpl.MutableServer.Execute` | internal/server/server.go:434-552 | answer and new state of every command as specified |
| `ServerImpl.MutableServer.HandleAuthGate` | internal/server/server.go:415-428 | only the right AUTH passes, every refusal is terminal, and the store is not touched |
| `ServerImpl.MutableServer.CountCommand` | internal/server/server.go:388-409 | the command is counted under its verb |
| `ServerImpl.MutableServer.HandleReadError` | internal/server/server.go:374-386 | the end of the stream is silent; bad bytes are counted and answered |
| `ServerImpl.MutableServer.ServeCommand` | internal/server/server.go:342-368 | the branches of `Serve` behind the gate make the specified turn |
| `ServerImpl.MutableServer.ServeRound` | internal/server/server.go:314-368 | one round of `Serve` reads what the parser says and makes the specified turn; the path for a refusal that is not terminal is dead |
| `ServerImpl.MutableServer.Serve` | internal/server/server.go:306-370 | output, counters and store are those of the specified session on every byte stream; with a token configured and another first command the store is unchanged and was asked nothing |
| `ServerImpl.MutableServer.ServeConnCommand` | internal/server/server.go:273-299 | the same branches of `serveConn` |
| `ServerImpl.MutableServer.ServeConnRound` | internal/server/server.go:250-299 | the same for one round of `serveConn`, with its own handling of read errors |
| `ServerImpl.MutableServer.ServeConn` | internal/server/server.go:239-301 | the same two statements for the other loop, so both have the same outcome on every byte stream |
| `SessionLaws.EveryReplyHasAnAnswer` | internal/server/server.go:462-548 | the store never reports an error that the server does not know |
| `SessionLaws.AnswersTellReplies` | internal/server/server.go:511-530 | different replies to `set` or `cas` are printed differently |
| `SessionLaws.IncrAnswersTellReplies` | internal/server/server.go:531-548 | the same for `incr`, with every total |
| `SessionLaws.GateHolds` | internal/server/server.go:255-265 | without the right first command the session ends and the store is asked nothing |
| `SessionLaws.GateOpens` | internal/server/server.go:255-300 | after the right AUTH line, whatever follows without another AUTH is answered as by the server without a token |
| `SessionLaws.PastTheGate` | internal/server/server.go:273-300 | an authenticated session without AUTH has the same outcome whatever the token |
| `SessionLaws.LockedOut` | internal/protocol/protocol.go:74-78 | with a token that is no valid key or holds white space no bytes at all reach the store |
| `SessionLaws.GateIsSilent` | internal/server/server.go:415-428 | the output of a gated session does not depend on the store |
| `SessionLaws.SessionIsARun` | internal/server/server.go:239-301 | on any bytes a session takes the store along one of its runs, reading the clock in order |
| `SessionLaws.SessionIsClocked` | internal/server/server.go:239-301 | if the clock never goes back, that run is a clocked one |
| `SessionLaws.SessionKeepsInv` | internal/server/server.go:239-301 | every session on any bytes keeps the store invariant |
| `SessionLaws.PipelinedSession` | internal/server/server.go:246-300 | pipelined commands, free of white space in their names, are answered one after the other, and the session reads on behind them |
| `Client.ResponseRoundTrip` | internal/benchmark/clients.go:121-150 | a printed value block decodes to its value, whatever bytes it holds, if and only if the key holds no white space, and is a broken answer otherwise |
| `Client.DecodeIsExact` | internal/benchmark/clients.go:121-150 | the client takes an answer for a value of its key if and only if it is a line VALUE, key and size, that many bytes, CRLF and END |
| `Client.DecodedIsWord` | internal/benchmark/clients.go:130-133 | no bytes at all decode to a value of a key that holds white space |
| `Client.GetDecodes` | internal/benchmark/clients.go:108-150 | a `get` finds a value if and only if the store has a hit and the key holds no white space; for such keys a miss decodes as missing |
| `Client.AnswerLine` | internal/benchmark/clients.go:98-105 | the client reads STORED if and only if the value was stored |
| `Client.SetIsAnswered` | internal/benchmark/clients.go:82-106 | the client reads STORED if and only if the value and its item fit the limits by themselves, however full the store is |
| `Client.StoredIsRead` | internal/store/shard.go:123-137 | the read after a successful `set` finds its value until the deadline and a miss from then on |
| `Client.EndToEnd` | internal/server/server.go:441-471 | after a `set` that the client saw accepted, its next `get` finds a value if and only if the key holds no white space, and then exactly the bytes sent |
| `Client.SplitKeyFails` | internal/benchmark/clients.go:82-150 | with the key `a`, U+00A0, `7` the client reads STORED and its next `get` is a broken answer |
| `Commands.DeleteThenGet` | internal/server/server.go:472-476 | in bytes: DELETED if and only if a `get` in its place would have found a value, else NOT_FOUND; the next `get` is a miss |
| `Commands.IncrThenGet` | internal/server/server.go:531-548 | in bytes: the answer follows from the value a `get` in its place would have shown; after a success the next `get` shows the sum, otherwise what it would have shown anyway |
| `Commands.SetThenGet` | internal/server/server.go:456-471 | in bytes: STORED if and only if value and item fit; then the next `get` shows the value until the TTL in seconds is over, otherwise what it would have shown anyway |
| `Commands.LongTtlIsRefused` | internal/server/server.go:457-459 | a TTL of more than 2^63-1 nanoseconds is refused and changes nothing |
| `Commands.LongCasTtlIsRefused` | internal/server/server.go:512-514 | the same for `cas` |
| `Commands.ConfiguredSet` | internal/server/server.go:456-471 | under a configuration STORED if and only if the value has at most the configured size and the item fits an equal share of the configured memory |
| `Commands.CasThenGet` | internal/server/server.go:511-530 | in bytes: STORED if and only if the version is the one a `gets` in its place would have shown and value and item fit; the next `get` as for `set` |
| `Commands.GetsRoundTrip` | internal/server/server.go:494-510 | the answer to `gets` decodes to value and version, in the order key, size, version |
| `Commands.GetsShows` | internal/server/server.go:494-510 | a `gets` shows value and version of the live entry, or its absence |
| `Commands.MgetIsGets` | internal/server/server.go:477-493 | `mget` answers what single `get`s of its keys would have answered one after the other, with one END, and leaves the store as they would |
| `Commands.VersionsAreAdded` | internal/server/server.go:494-510 | `gets` answers the same blocks with versions added |
| `Bookkeeping.PingIsAnswered` | internal/server/server.go:437-438 | `ping` is answered PONG and changes nothing but its own count |
| `Bookkeeping.AuthAgainIsExact` | internal/server/server.go:273-289 | AUTH on an authenticated session: not configured or wrong ends it, wrong is counted, right goes on |
| `Bookkeeping.RefusalIsExact` | internal/server/server.go:415-425 | a first command that does not open the gate: its answer and what is counted |
| `Bookkeeping.BadBytesAreCounted` | internal/server/server.go:383-385 | bytes that are no command end a session and count as one client error |
| `Bookkeeping.CommandsAreCounted` | internal/server/server.go:388-409 | each command of any session is counted once under its verb, and no other counter moves |
| `Bookkeeping.FiguresAreTrue` | internal/server/server.go:122-145 | each figure of `stats` is its own total, and together with deleted and lapsed items they account for every item inserted |
| `Bookkeeping.StatsIsAnswered` | internal/server/server.go:439-440 | `stats` answers with the text of those figures and END, and changes nothing but its own count |
| `ClientImpl.MiniKvClient.ReadLine` | internal/benchmark/clients.go:308-317 | a line of any length, if it ends in CRLF |
| `ClientImpl.MiniKvClient.ReadGet` | internal/benchmark/clients.go:121-150 | value, miss or failure as specified, and what is left of the stream |
| `ClientImpl.MiniKvClient.Get` | internal/benchmark/clients.go:108-119 | sends the printed `get` and decodes its answer |
| `ClientImpl.MiniKvClient.Set` | internal/benchmark/clients.go:82-106 | sends the printed `set` and succeeds if and only if the answer is STORED |
| `Lifecycle.StepCounts` | internal/server/server.go:151-203 | a step changes a counter exactly when its handler enters or leaves the counter's region |
| `Lifecycle.MoveKeepsInv` | internal/server/server.go:151-172 | every shared counter stays the number of handlers in its region |
| `Lifecycle.RegionsNest` | internal/server/server.go:151-203 | under every schedule active <= registered <= awaited <= slots held <= cap |
| `Lifecycle.ConnectionsBalance` | internal/server/server.go:152-158 | opened = rejected + completed + still in flight, at every moment |
| `Lifecycle.Quiescence` | internal/server/server.go:151-172 | when no handler is at work nothing is held, and opened = rejected + completed |
| `Lifecycle.ReleasesAreBacked` | internal/server/server.go:186-203 | a deferred release never blocks and never takes a counter below zero |
| `Lifecycle.RefusedOnlyWhenFull` | internal/server/server.go:174-184 | a connection is refused if and only if as many handlers as the cap hold a slot |
| `Lifecycle.BusySchedulesEnd` | internal/server/server.go:151-172 | no handler waits for another: n handlers make at most 10n moves in any order |
| `Workload.SlicesSpan` | internal/benchmark/runner.go:149-158 | the first slice starts at zero and the last one ends at the total |
| `Workload.SlicesPartition` | internal/benchmark/runner.go:149-158 | every index in range belongs to exactly one worker, and no other index to any |
| `Workload.SharesAreEven` | internal/benchmark/runner.go:149-158 | the widths of two slices differ by at most one |
| `Workload.KeyText` | internal/benchmark/runner.go:179-181 | prefix, run and index with colons between them |
| `Workload.KeysAreDistinct` | internal/benchmark/runner.go:179-181 | different runs or indices have different keys, whatever the prefix |
| `Workload.KeysAreVisitedOnce` | internal/benchmark/runner.go:105-106 | no key comes twice, in one run or in two |
| `Workload.Advance` | internal/benchmark/runner.go:105-131 | a move of a worker visits its next key, or ends it with its cell filled, or with none if the key fails |
| `Workload.RunWorkers` | internal/benchmark/runner.go:97-134 | in whatever order the workers make their moves, each cell ends up with its slice in order, or empty if one of its keys fails |
| `Workload.Merge` | internal/benchmark/runner.go:136-146 | the slices concatenated, or an error if a worker had one |
| `Workload.RunPhase` | internal/benchmark/runner.go:92-147 | every key of the run exactly once and in order for any number of workers in any interleaving, or an error if and only if some key fails |

## Left out

- ServerImpl.MutableServer.ServeConn: idle deadlines, network errors and timeouts, and flushing are not modelled; a connection is a byte stream that ends.
- Lifecycle.RegionsNest: shutdown and forced closing of connections are not modelled, because they depend on deadlines and scheduling.
- ShardImpl.MutableShard.Execute: `Set`, `Get`, `Cas`, `Delete`, `Incr` and the sweep are modelled one by one and then dispatched over an operation value; the mutex is modelled by `Interleaving`, where a shard body is atomic under its lock except for the clock reading and the counter.
- ShardImpl.MutableShard.MakeRoomFor: `cas` and `incr` each carry a copy of the pressure logic around the node they hold; the model has it once for both, with their late error returns as branches that are proved dead. `set` has its own.
- ServerImpl.MutableServer.constructor: asks that the number of shards is no multiple of 2^32, because the source divides by that number as a 32-bit integer and panics on every keyed command otherwise.
- ShardImpl.Counter.Add: the counter does not wrap around at 2^64.
- StoreImpl.MutableStore.Execute: the five public methods of the store are one method over an operation value.
- Workload.RunPhase: latencies are left out, and a client call is a parameter that says whether a key works.
- Workload.Advance: the same.
- Spelling.VerbOfIsSpelling: of the letters outside ASCII only U+0130, whose lower case is `i`, is folded; the others cannot turn a word into a verb.
- ParserImpl.Reader.ReadFull: the allocation of a buffer for a huge declared byte count always succeeds.
- Error messages: protocol errors are one value, since the server answers all of them alike.
- The comparison of tokens is equality; its timing is not modelled.
- ServerImpl.MutableServer.Execute: the text of `stats` before its END is a parameter that depends on the store totals and the command and error counters; uptime and connection counts are not in it.
- ServerImpl.MutableServer.HandleReadError: the branch for network timeouts is left out.
- Aliasing of value slices between callers and the store: byte strings are values.
- Clock readings are one per operation and are not read lazily; durations are integers and do not overflow.
- TCP and TLS listeners, signal handling, the operations HTTP handlers and the doctor command.
- The Redis and Memcached clients, whose servers are not in the repository.
- Latency summaries and percentiles, which are floating-point rank arithmetic.
- The configuration file: `internal/config` reads key-value lines and checks one range per setting; the model starts from a configuration value and normalises it as the store does.
