# ElectricSearch, modelled and proved in Dafny

ElectricSearch is a search index: an inverted index of sorted posting lists over a stored forward
index, a boolean query language with a bit filter, a wire codec for queries and documents, and a
sharded, replicated front end that uses etcd for membership and a lock. This project models these
parts and proves, for every input and every run, what they promise, and where they promise too much,
exactly when they keep the promise.

`dafny verify dfyconfig.toml` checks the whole project.

## The parts

**Index** (`SkipList`, `HashMap`, `Merge`, `ReverseIndex`, `IndexState`, `IndexRuns`, `Indexer`, `Types`,
`Trimming`). A posting list is a strictly sorted sequence. `Merge.Intersect` and `Merge.Union` are the k-way
merge and the de-duplicating union with their cursor arrays; `ReverseIndex` evaluates query trees with the bit
filter at the leaves. `IndexState` holds the forward index and the table of postings as one value and proves
that they mirror each other; `IndexRuns` carries this over whole runs of adds, replacing adds, deletes and
restarts, with IntIds drawn from the ID generator. The class `Indexer` is the same on mutable state. The
specification of a search is a naive look at every live document (`IndexState.IsAnswer`).

**Cluster** (`Cluster`, `Replicas`, `FanIn`, `Rpc`). Documents are routed by a hash, written to every replica
of a group, read from one replica of each and merged through channels. `Cluster` proves that this refines one
index as long as the replicas asked have kept up, and says which writes they may not miss; `FanIn` models the
channels of searching and counting as interleaved steps, and `Rpc.SearchOverTheWire` puts codec, routing,
replicas, fan-in and index together.

**Wire codec** (`Varint`, `Wire`, `Canonical`, `UnknownFields`, `Messages`, `RoundTrip`, `Layout`,
`Unmarshalling`, `Marshalling`, `Backward`, `Video`). The generated code repeats itself for each message; here
the record layer is written once and each message is a schema and an effect per record. `Read`, `Parse`,
`Decode` and `Marshal` are the specification; the methods are the loops: reading with shifts and ors into 64
bits, skipping, sizing, and filling a buffer from its end backwards. `Layout` states the format of each
message as literal bytes.

**Lock and membership** (`GroupLock`, `Membership`, `Overlap`, `GroupNames`). The lock and the counter it
guards are a state machine over single etcd calls, with lost replies, failures, crashes and leases that run
out. `Membership` is the sequence of registrations, heartbeats, closings and crashes, with etcd keys as byte
strings, and `Overlap` is two of them at once.

**ID generator and printer** (`SnowflakeRuns`, `SnowflakePack`, `Snowflake`, `QueryPrinter`).

## What does not hold as one would expect

The code is modelled as it is; where a natural claim fails, a lemma gives the failing inputs and the
exact condition.

- The intersection starts its maximum at 0 with a nil set, so it panics exactly when at least two
  non-empty lists are given and the first begins with key 0 (`Merge.Intersect`). IntIds are positive
  while the clock is past the epoch, so an index never meets this (`IndexRuns.ClockedRunAllowed`).
- `AddDoc` stores under the trimmed id but posts the untrimmed one: a document whose id has spaces
  around it is counted, and never found (`IndexState.UntrimmedNeverFound`; every other document is
  found exactly when it matches, `IndexState.FetchIsAnswer`; `IndexState.UntrimmedId` is such an id). In
  a cluster it is also routed by the untrimmed id: the cluster answers like one index after every run
  exactly if trimming moves no id to another group (`Replicas.AlwaysRefinesIff`, with
  `Cluster.MisroutedDiffers` for every id that moves), and after a single run exactly if the requests
  as routed leave every findable document in one group (`Replicas.RunRefinesIff`).
- Moving the bit filter from the root to the leaves is right exactly for tables in which the postings of
  every IntId carry the same bits (`ReverseIndex.PushdownIff`, with a query and flags for every table
  that fails in `ReverseIndex.PushdownFails`); the index always has such a table
  (`IndexState.FilterCanMove`).
- A posting key joins field and word with a byte 1 that is not escaped, so keywords can share a key, and a
  search for one finds documents with the other; `Types.SharedKeyIff` says which.
- The ID generator resets neither number nor timestamp after it has waited for the next millisecond;
  an even worker id never repeats an ID nevertheless, an odd one repeats one exactly when the call
  after the wait reads the millisecond that ended it (`Snowflake.DistinctIff`); every odd worker does
  so after 4097 calls in a millisecond (`Snowflake.OddWorkerRepeats`). The ID of an even worker's
  waiting call is that of the next worker's first call in the millisecond after
  (`Snowflake.EvenWorkerCollides`); `Snowflake.AcrossWorkers` says exactly when two workers collide.
  All this is for a clock that never goes back; one that does makes every worker repeat IDs
  (`Snowflake.BackwardRepeats`, and exactly when, `Snowflake.SameIdIff`).
  The comment at util/snowflake.go:11 says 2^12-1=4096; the code issues 4096 numbers a millisecond.
- Releasing the lock deletes its key unconditionally. As long as no lease runs out under a client in
  the section, that is always the client's own key (`GroupLock.HolderUndisturbed`); otherwise two
  clients can be in the section and an update is lost (`GroupLock.ExpiryBreaksLock`,
  `GroupLock.ExpiryLosesUpdate`). An expiry endangers exclusion, and the counter, exactly when it is of
  that kind (`GroupLock.ExclusionIffTimely`, `GroupLock.CountingIffTimely`).
- A write to the cluster that fails on some replicas is only logged, and nothing repeats it: a replica
  has everything exactly as long as every write to its group takes effect on it
  (`Cluster.Sentinel.AddDoc`, `Cluster.Sentinel.DeleteDoc`), and one that missed a write can give
  another answer than one index would (`Cluster.MissedWriteDiffers`). The replicas asked answer every
  query like one index exactly when each document of that index that a query can find is on exactly
  one of them and they have no others (`Replicas.AnswerAlikeIff`). A count as large as the group says
  that no replica missed the write (`Cluster.AllReport`).
- A group's endpoints, and the counter itself, are looked up by a prefix without a closing slash. The
  group counter is right exactly if no name begins another, begins total-shards or begins with it
  (`Membership.AlwaysRightIff`; `Membership.PrefixMiscounts`, `Membership.ShortNameMiscounts` and
  `Membership.CounterNameMiscounts` for every name that does). The names group-0 to group-(n-1) are of
  that kind up to n = 10 (`GroupNames.CounterRightUpToTen`). The cluster modules take a lookup to
  return a group's own replicas, which `Membership.LookupExact` shows under the same condition.
- For such names the counter stays right exactly as long as every call does no harm
  (`Membership.AccurateIffHarmless`, `Membership.AccurateRunIffHarmless`): while the group has another
  endpoint anything goes, otherwise a registration must be of a new endpoint, a heartbeat and a closing
  of a registered one, and no worker may crash. Witnesses are registering twice
  (`Membership.ReRegisterMiscounts`), a late heartbeat (`Membership.LateHeartbeatMiscounts`) and the
  closing that demo/internal/main/index_worker.go:31 makes when registration has failed, which takes
  away another group's count or panics (`Membership.CloseAfterFailedRegister`,
  `Membership.FailedRegisterBreaksClose`).
- A call puts or deletes first and looks up later. Two calls that both do the first before either does the
  second, each harmless by itself, leave the counter right exactly if they are of different groups or
  their group has another endpoint, or both register again (`Overlap.TogetherRightIff`): the first two
  workers of a group can both find it counted already.
- The printer replaces the last byte of a node with several children by a parenthesis even when no
  child has printed anything: output is balanced exactly when that never happens
  (`QueryPrinter.BalancedIff`).
- A packed list whose last number is cut off by its length takes bytes from the field behind it
  (`Wire.NumbersWithin`, with `Canonical.PackedOverrun` and `RoundTrip.RequestOverrun` at an input),
  although the section "Packed Repeated Fields" of the Protocol Buffers encoding guide makes the length
  the end of the list.
- The iterator of the segmented map is created with as many empty rows as there are segments in front
  of the real ones; it visits every key once all the same (`HashMap.Drain`).
- internal/kvdb/kv_db.go:23 says that a batch read has no order; the search relies on the order that
  internal/kvdb/badger_db.go:108 promises, and so does the model.

## Model

| member | source | states |
|---|---|---|
| HashMap.ConcurrentHashMap.Get | util/concurrent_hash_map.go:34-39 | the segmented map reads like one plain map, for any hash and segment count; a stored nil reads as absent |
| HashMap.ConcurrentHashMap.Set | util/concurrent_hash_map.go:41-46 | writing changes exactly one binding of the plain map, and keeps the segments disjoint |
| HashMap.ConcurrentHashMap.NewIterator | util/concurrent_hash_map.go:65-82 | the keys still to come are all keys of the map, each once |
| HashMap.Iterator.Next | util/concurrent_hash_map.go:84-106 | yields the first remaining key with its value, skipping empty rows, and nil for ever after the last |
| HashMap.Drain | util/concurrent_hash_map.go:65-106 | calling Next until it returns nil yields the bindings of the map, every key exactly once |
| Merge.Intersect | internal/reverse_index/skiplist_reverse_index.go:74-121 | for any number of sorted lists: panics exactly on a zero key met first, is nil if any of at least two lists is nil or empty, and otherwise is the sorted list of exactly the common keys with the first list's values |
| Merge.MoveNext | internal/reverse_index/skiplist_reverse_index.go:102-118 | moves every cursor behind the maximum, or reports that a list is exhausted |
| Merge.MaxNodes | internal/reverse_index/skiplist_reverse_index.go:92-100 | the largest current key and the set of lists that stand on it, or a panic on a zero key |
| Merge.RemainingDrops | internal/reverse_index/skiplist_reverse_index.go:88-119 | moving some cursor lowers the number of elements still ahead, so the merge ends |
| Merge.Union | internal/reverse_index/skiplist_reverse_index.go:123-147 | sorted, with exactly the keys of all lists, each with the value of the first list that has it |
| ReverseIndex.FilterByBits | internal/reverse_index/skiplist_reverse_index.go:149-163 | holds exactly when, bit by bit, all on-bits are set, no off-bit is, and each non-zero or-flag shares a bit |
| ReverseIndex.FlagsMean | internal/reverse_index/skiplist_reverse_index.go:149-163 | the same in machine terms: what and-ing each flag with the bits gives |
| ReverseIndex.SkipListReverseIndex.Add | internal/reverse_index/skiplist_reverse_index.go:38-59 | the new table is the old one with one posting for each keyword |
| ReverseIndex.AtAddPostings | internal/reverse_index/skiplist_reverse_index.go:38-59 | after posting a document, its IntId is bound to its id and bits under exactly its keywords' keys, and nothing else changes |
| ReverseIndex.SkipListReverseIndex.Delete | internal/reverse_index/skiplist_reverse_index.go:61-72 | the new table lacks that posting; the list itself stays, even when empty |
| ReverseIndex.AtDeletePostings | internal/reverse_index/skiplist_reverse_index.go:61-72 | after deletion the IntId is gone from exactly those keywords' keys, and nothing else changes |
| ReverseIndex.SkipListReverseIndex.search | internal/reverse_index/skiplist_reverse_index.go:165-195 | the result list binds exactly what the set semantics of the query says, for every nested query and all flags, without a panic if keys are positive |
| ReverseIndex.SkipListReverseIndex.Search | internal/reverse_index/skiplist_reverse_index.go:197-208 | the ids of that result in IntId order |
| ReverseIndex.DenoteFromTable | internal/reverse_index/skiplist_reverse_index.go:165-195 | a query binds an IntId only to what some keyword's posting binds it to |
| ReverseIndex.FilterPushdown | internal/reverse_index/skiplist_reverse_index.go:165-195 | filtering at every leaf is filtering once at the root, for all trees and flags, if postings of one IntId agree in their bits |
| ReverseIndex.PushdownFails | internal/reverse_index/skiplist_reverse_index.go:165-195 | for any two postings of an IntId with different bits, a query and flags for which filtering at the leaves loses the IntId and filtering at the root does not |
| ReverseIndex.PushdownIff | internal/reverse_index/skiplist_reverse_index.go:165-195 | the filter can be moved for all queries, flags and IntIds exactly when the postings of every IntId agree in their bits |
| IndexState.DeleteKeeps | service/indexer.go:88-114 | deleting keeps forward and inverted index in step |
| IndexState.AddKeeps | service/indexer.go:65-86 | adding or replacing under an unused positive IntId keeps them in step: an IntId is posted under a key exactly when a stored document has both, with that document's id and bits |
| IndexState.ReplacedIsGone | service/indexer.go:65-86 | a replaced document's IntId is in no posting list any more, and its id is not found by a keyword the new version lacks |
| IndexState.RebuildMirrors | service/indexer.go:47-62 | loading stored documents, in any order, yields postings that mirror them |
| IndexState.ReloadChangesNothing | service/indexer.go:47-62 | loading on top of postings that already mirror the store changes no posting |
| IndexState.RestartKeeps | service/indexer.go:23-62 | an index rebuilt from a store is in step with it |
| IndexState.DenoteIsMatches | internal/reverse_index/skiplist_reverse_index.go:165-195 | evaluating a query on the postings binds a stored document's IntId exactly when the document itself satisfies query and flags |
| IndexState.FilterCanMove | internal/reverse_index/skiplist_reverse_index.go:165-195 | it can in every index whose two halves are in step |
| IndexState.FetchIsAnswer | service/indexer.go:117-150 | fetching the documents of the hits gives exactly the answer: live documents that satisfy query and flags, each once, in ascending IntId order |
| IndexState.UntrimmedNeverFound | service/indexer.go:65-86 | a document with a keyword that satisfies the flags, added under an id with spaces around it, is stored, satisfies the query and is among the hits, and still no search returns it |
| IndexState.AnswerUnique | service/indexer.go:117-150 | there is only one such answer |
| IndexRuns.RunKeeps | service/indexer.go:47-114 | every run of adds, replacing adds, deletes and restarts keeps the two indexes in step |
| IndexRuns.RunForward | service/indexer.go:65-114 | after any run the store holds, under each trimmed id, the last document added and not deleted since |
| IndexRuns.SearchIsExact | service/indexer.go:117-150 | after any run a search returns exactly the live documents that satisfy query and flags, each once, in ascending IntId order |
| IndexRuns.SameStoreSameHits | service/indexer.go:117-150 | two indexes that mirror the same store find the same, in the same order |
| IndexRuns.RestartChangesNoSearch | service/indexer.go:47-62 | a restart at any point of any run changes the result of no query |
| IndexRuns.LeftoverLists | internal/reverse_index/skiplist_reverse_index.go:61-72 | although the tables may differ: deleted documents leave empty lists behind |
| IndexRuns.ClockedRunAllowed | service/indexer.go:65-86 | with IntIds from the generator and a clock that never goes back, every IntId is fresh and positive however many documents a millisecond sees, if the worker id is even or no millisecond that ended a wait is used again; so every run is one of the above |
| IndexRuns.WaitingDraw | util/snowflake.go:47-65 | the IntId of a call that has to wait is the first of the millisecond that ends the wait, with the worker field made odd |
| IndexRuns.OddDrawRepeats | util/snowflake.go:47-65 | that exception is needed: an odd worker that draws in the millisecond that ended its wait draws the same IntId again |
| Indexer.Indexer.constructor | service/indexer.go:23-40 | over any store, the inverted index starts empty |
| Indexer.Indexer.LoadFromIndexFile | service/indexer.go:47-62 | reposts every stored document in iteration order and counts them |
| Indexer.Indexer.AddDoc | service/indexer.go:65-86 | a blank id changes nothing and counts 0; otherwise the state is that of the model's add, with the generator's next IntId, and counts 1 |
| Indexer.Indexer.DeleteDoc | service/indexer.go:88-114 | the state is that of the model's delete; counts whether the id was stored |
| Indexer.Indexer.Search | service/indexer.go:117-150 | on indexes in step a search never panics and returns exactly the answer |
| Indexer.Indexer.Count | service/indexer.go:152-159 | the number of stored documents |
| Types.And | types/term_query.go:17-33 | the built query holds of a document exactly when some operand is non-empty and all non-empty operands hold; without operands the receiver is returned |
| Types.Or | types/term_query.go:35-51 | the built query holds exactly when some operand holds |
| Types.TrimSpaceIdempotent | service/indexer.go:66 | trimming leaves no Unicode space at either end, and trimming again changes nothing |
| Trimming.TrimExact | service/indexer.go:66 | trimming takes nothing but encoded Unicode spaces from the two ends, and all of them, and there is only one such text |
| Trimming.TestsExact | service/indexer.go:66 | the byte tests find a space at either end exactly where the UTF-8 encoding of a Unicode space stands |
| Types.SharedKeyIff | types/doc.go:3-9 | two keywords have one posting key exactly when they are equal, both without a word, or read the same around a byte 1 in one's word and the other's field |
| Types.CleanFieldsShare | types/doc.go:3-9 | keywords whose fields have no byte 1 share a key only if equal or without a word |
| Cluster.Route | service/distribute.go:334-336 | the group of an id is what is left of its hash by whole multiples of the number of groups |
| Cluster.GroupDocs | service/distribute.go:64-125 | a group's replicas hold exactly the live documents whose id routes to the group |
| Cluster.ClusterRefinesIndex | service/distribute.go:64-214 | after any sequence of adds and deletes whose routing ignores trimming, merging one replica's answer per group gives the documents that one index given the whole sequence returns, each as often, up to IntIds |
| Cluster.MisroutedDiffers | service/distribute.go:64-94 | for any hash, group count and id that trimming would move, two adds make the cluster find a document that one index does not |
| Cluster.MissedWriteDiffers | service/distribute.go:80-87 | for any hash, group count and id without spaces around it, an add that misses the replica asked makes the cluster miss a document that one index finds, with every other replica up to date |
| Cluster.LoadFile | demo/infrastructure/build_index.go:44-48 | a worker that builds from a file keeps exactly the documents the cluster would have routed to its group, in order |
| Cluster.CountsAddUp | service/distribute.go:216-292 | the exact counts of one replica per group add up to one index's count |
| Cluster.Sentinel.AddDoc | service/distribute.go:64-94 | whichever replicas of the id's group are listed, reached and answer: a replica has served all its requests afterwards exactly when it had before and, in that group, takes the write; the total is the number of replies in 32 bits; with none listed nothing changes and the call fails |
| Cluster.Sentinel.DeleteDoc | service/distribute.go:96-125 | the same for deletes; the total is the number of replies from replicas that held the document |
| Cluster.AllReport | service/distribute.go:70-93 | a total as large as the group means that every replica has taken the write and replied, and, below 2^32 replicas, the converse |
| Cluster.Sentinel.SearchAfterWrites | service/distribute.go:64-214 | after any adds and deletes, merging the answers of replicas that have kept up gives the documents one index returns |
| Replicas.AnswerAlikeIff | service/distribute.go:127-214 | merging the answers of any replicas gives one index's answer to every query exactly when each findable document of that index is on exactly one of them and they have no others |
| Replicas.CaughtUpHoldAlike | service/distribute.go:64-125 | replicas that have served everything routed to their groups meet that condition, if routing ignores trimming |
| Replicas.RunRefinesIff | service/distribute.go:64-214 | after any adds and deletes the cluster answers every query like one index exactly when the requests, as routed, leave each findable document in exactly one group and no other |
| Replicas.AlwaysRefinesIff | service/distribute.go:64-214 | it does so after all of them exactly when trimming moves no id to another group |
| FanIn.StepKeepsInv | service/distribute.go:137-213 | in every interleaving each document is in exactly one place, in its group's order, and channels respect their capacity |
| FanIn.NoSendAfterClose | service/distribute.go:201-207 | no producer can send once any channel is closed |
| FanIn.Progress | service/distribute.go:137-213 | until all consumers finish some goroutine can move without waiting for a timeout |
| FanIn.StepUsesWork | service/distribute.go:137-213 | every step uses up work, so every run is finite |
| FanIn.RunsToCompletion | service/distribute.go:137-213 | from every reachable state the search can run to its end without a timeout |
| FanIn.ResultIsMerge | service/distribute.go:137-213 | a search that returns without a timeout has each group's answer in order, and in all exactly the answers, each document as often |
| FanIn.ResultIsPrefix | service/distribute.go:177-184 | with timeouts it has a beginning of each group's answer: nothing invented, duplicated or reordered |
| FanIn.ReturnedIff | service/distribute.go:137-213 | what a search can return is exactly every interleaving of beginnings of the groups' answers, and without a timeout every interleaving of the whole answers |
| FanIn.ClusterSearch | service/distribute.go:127-214 | in every interleaving without a timeout the cluster's search returns what one index would return, up to IntIds and order |
| FanIn.ClusterCount | service/distribute.go:216-292 | in every interleaving without a timeout, adding the received counts in 32 bits gives one index's count up to multiples of 2^32 |
| Rpc.RemoteAnswer | service/index_service.go:168-171 | the wire changes neither query, flags, documents nor their order |
| Rpc.RequestSent | service/distribute.go:164-170 | the request's bytes carry query, on-flag, off-flag and or-flags under the tags 0x0a, 0x10, 0x18 and 0x22 |
| Rpc.SearchOverTheWire | service/distribute.go:127-214 | the same as ClusterSearch, with requests and replies encoded and decoded on the way |
| Bits.OrBit | types/term_query.pb.go:226-227 | or-ing sets exactly the bits that either number has |
| Bits.BitLenBounds | types/term_query.pb.go:206-208 | the bit length of a positive number brackets it between consecutive powers of two |
| Varint.SovIsLength | types/term_query.pb.go:206-208 | the computed size, bit length over seven rounded up, is the exact length of the varint of every value, at most ten bytes for 64 bits |
| Varint.WriteVarint | types/term_query.pb.go:170-180 | the loop writes exactly that many bytes before the offset, the varint, and touches nothing else |
| Varint.ReadEncoding | types/term_query.pb.go:218-232 | every 64-bit value is read back, whatever follows |
| Varint.ReadVarint | types/term_query.pb.go:218-232 | shifting and or-ing into 64 bits yields the base-128 number cut to 64 bits, or end of input, or overflow after ten bytes |
| Wire.ParseAppend | types/term_query.pb.go:212-365 | the records of two parts of a message are the records of the first, then those of the second |
| Wire.NumbersWithin | service/index.pb.go:1048-1091 | a packed list uses exactly its length exactly when its last byte ends a number |
| Canonical.PackedOverrun | service/index.pb.go:1048-1091 | a packed list of one byte that does not end its number takes the next byte, whatever field that begins |
| RoundTrip.RequestOverrun | service/index.pb.go:1048-1091 | so a request is rejected although what follows its or-flags is a valid request |
| Canonical.ParseBack | types/doc.pb.go:454-641 | what a message writes is parsed into the same records in the same order |
| Layout.KeywordLayout | types/doc.pb.go:194-214 | a keyword's bytes: 0x0a field, 0x12 word, each with its length, empty ones left out |
| Layout.QueryLayout | types/term_query.pb.go:122-168 | a query's bytes: 0x0a keyword if present, 0x12 for each of Must, 0x1a for each of Should |
| Layout.DocumentLayout | types/doc.pb.go:231-275 | a document's bytes: 0x0a id, 0x10 IntId, 0x18 bits, 0x22 for each keyword, 0x2a bytes, empty and zero ones left out |
| Layout.RequestLayout | service/index.pb.go:565-611 | a request's bytes: 0x0a query if present, 0x10 on-flag, 0x18 off-flag, 0x22 the packed or-flags |
| Layout.ResponseLayout | service/index.pb.go:628-648 | a response's bytes: 0x0a for each document |
| Layout.KeywordFields | types/doc.pb.go:368-432 | decoding each of those fields alone replaces that string, by an empty one too |
| Layout.QueryFields | types/term_query.pb.go:240-344 | each of those fields alone: the keyword is decoded into the present one, the others append a query, and what fails inside fails |
| Layout.DocumentFields | types/doc.pb.go:482-620 | each of those fields alone: strings and numbers are replaced, by empty ones and zeros too, a keyword is appended |
| Layout.RequestFields | service/index.pb.go:944-1036 | each of those fields alone: the query is decoded into the present one, a flag is replaced, by zero too, and 0x20 with one number appends an or-flag |
| Layout.PackedFlags | service/index.pb.go:1037-1091 | 0x22 with packed numbers appends them all |
| Layout.UnpackedIsPacked | service/index.pb.go:1019-1094 | or-flags sent one by one decode like the same numbers packed |
| Layout.ResponseFields | service/index.pb.go:1144-1178 | 0x0a alone appends a decoded document |
| Layout.BadTag | types/term_query.pb.go:233-243 | an end of a group, field number zero, and a known field with a wire type it does not take are rejected, each with its own error, whatever follows |
| Layout.BadLength | types/term_query.pb.go:260-270 | a length that is negative as a signed number, or passes the end, is rejected, each with its own error |
| Layout.BadNumber | types/term_query.pb.go:218-232 | a number cut off, and one of more than ten bytes |
| Layout.BadWireType | types/term_query.pb.go:432-434 | the two wire types that do not exist |
| UnknownFields.SkipUnknown | types/term_query.pb.go:366-443 | skipping consumes exactly one well-formed field of any wire type, nested groups included, at any depth, its tags and lengths as long as they like |
| UnknownFields.SkipIff | types/term_query.pb.go:366-443 | skipping ends inside the buffer exactly when a well-formed field stands there, and then right behind it |
| UnknownFields.FieldUnknown | types/term_query.pb.go:345-357 | an unknown field leaves no record and takes exactly its bytes |
| UnknownFields.UnknownIff | types/term_query.pb.go:345-357 | under a field number it does not know a message accepts exactly the well-formed fields with a positive number |
| UnknownFields.ParseSpliced | types/term_query.pb.go:345-357 | unknown fields between two parts of a message change no record |
| Messages.DecodeAppend | service/index.pb.go:916-1115 | once some bytes are accepted, decoding them with more behind is decoding the rest into the result, for all five messages |
| Messages.DecodeSpliced | types/doc.pb.go:454-641 | unknown fields, nested groups included, can stand between the parts of any message |
| RoundTrip.MarshalMerges | types/term_query.pb.go:212-365 | decoding an encoded message into any message of its kind merges it: scalars replaced if sent, lists appended, keyword and query merged |
| RoundTrip.QueryMerges | types/term_query.pb.go:122-365 | the same for query trees of any depth |
| RoundTrip.DocumentMerges | types/doc.pb.go:231-275 | the same for documents with their keywords |
| RoundTrip.RequestMerges | service/index.pb.go:565-611 | the same for search requests with packed flags |
| RoundTrip.RoundTrip | types/term_query.pb.go:107-365 | decoding into a fresh message gives the message back, present but empty keywords and the order of all lists included, if the length fits a signed 64-bit number |
| RoundTrip.MarshalInjective | service/index.pb.go:550-648 | different messages of one kind have different encodings |
| Unmarshalling.Skip | types/term_query.pb.go:366-443 | on every byte string the skip loop ends, reads in bounds, and returns a positive length or an error, as SkipFrom says |
| Unmarshalling.ReadNumbers | service/index.pb.go:1071-1091 | the packed loop reads the numbers from the list's start to the first index at or behind its end |
| Unmarshalling.ReadField | types/term_query.pb.go:216-357 | one turn of a decoding loop: the same record or error as Field, in bounds, and the index grows |
| Unmarshalling.QueryField | types/term_query.pb.go:240-344 | decodes into the present keyword, appends to Must and Should |
| Unmarshalling.DocumentField | types/doc.pb.go:482-620 | assigns id, IntId, bits and bytes, appends keywords |
| Unmarshalling.RequestField | service/index.pb.go:944-1094 | decodes into the present query, assigns flags, appends packed and unpacked or-flags |
| Unmarshalling.UnmarshalInto | types/term_query.pb.go:212-365 | on every byte string the decoder ends with the message or error of Decode; nested calls get strictly shorter slices |
| Marshalling.SizeQuery | types/term_query.pb.go:181-204 | Size is the exact length of the encoding, for queries of any depth |
| Marshalling.SizeDocument | types/doc.pb.go:305-332 | the same for documents |
| Marshalling.SizeRequest | service/index.pb.go:709-733 | the same for search requests |
| Marshalling.Size | service/index.pb.go:735-747 | the same for every message |
| Backward.PutQuery | types/term_query.pb.go:122-168 | writes the encoding into the last bytes of the buffer, nested queries in place, and nothing else |
| Backward.PutDocument | types/doc.pb.go:231-275 | the same for documents |
| Backward.PackNumbers | service/index.pb.go:570-581 | the scratch buffer is large enough and holds the packed numbers in order |
| Backward.PutRequest | service/index.pb.go:565-611 | the same for search requests |
| Backward.MarshalToSizedBuffer | service/index.pb.go:628-648 | into any buffer with room, exactly the last Size() bytes are written, with the encoding; the number is returned and everything else stays |
| Backward.Marshal | types/doc.pb.go:216-224 | a fresh buffer of exactly the right size is filled with the encoding |
| Video.Int32Back | demo/infrastructure/video.pb.go:205-224 | the lowest 32 bits of a sign-extended 32-bit number are the number |
| Video.ReadInt32 | demo/infrastructure/video.pb.go:463-481 | putting a 32-bit field together in 32 bits gives the lowest 32 bits of the varint, with the same end and errors |
| Video.VideoRoundTrip | demo/infrastructure/video.pb.go:189-255 | a decoded encoded video is the video, negative counts and times included |
| Video.VideoLayout | demo/infrastructure/video.pb.go:189-255 | a video's bytes, field by field in order, each under its own tag from 0x0a to 0x52, zero and empty ones left out |
| Video.VideoTexts | demo/infrastructure/video.pb.go:347-591 | decoding a string field alone sets the field its tag stands for, and a keyword is appended |
| Video.VideoNumbers | demo/infrastructure/video.pb.go:412-557 | decoding a number alone sets the field its tag stands for, negative ones included |
| GroupLock.StepKeepsInv | etcd/etcd_distributed_lock.go:20-67 | every step of every client keeps the leases distinct, the holder's key its own, reads fresh and the log sequential |
| GroupLock.LockedCounter | service/service_hub.go:124-239 | in every interleaving in which no lease runs out inside a section: at most one client is between acquire and release, every call returned what it would have returned alone, and the counter is completed additions minus completed subtractions |
| GroupLock.HolderUndisturbed | etcd/etcd_distributed_lock.go:56-67 | whoever deletes the key deletes its own; no revoke, release, crash or expiry of another frees the holder's key |
| GroupLock.LockRecoverable | etcd/etcd_distributed_lock.go:25-52 | a key left behind is attached to a live lease whose end frees the lock |
| GroupLock.NextTry | etcd/etcd_distributed_lock.go:30-48 | a waiting client with a try left may get the lock, fail, or get it without knowing, and without one can only give up |
| GroupLock.NothingLeftBehind | etcd/etcd_distributed_lock.go:25-67 | in every run without crashes a lock key belongs to a call still under way, and when none is, the lock is free and no lease lives |
| GroupLock.GivesUp | etcd/etcd_distributed_lock.go:30-52 | a waiting client that is not let in gives up after exactly the tries it has left, and ends its lease, and with it a key it has put itself |
| GroupLock.TenTries | service/service_hub.go:129 | a call that never gets the lock tries ten times and leaves everything as it was |
| GroupLock.LostReplyHolds | etcd/etcd_distributed_lock.go:33-48 | a put whose reply is lost shuts out everybody, its own client included |
| GroupLock.FailureReleases | service/service_hub.go:133-164 | a call that fails in the section leaves the lock free and the counter as it was |
| GroupLock.CrashOrphans | etcd/etcd_distributed_lock.go:56-67 | a crash in the section leaves the key to nobody |
| GroupLock.OrphanBlocks | etcd/etcd_distributed_lock.go:25-48 | and such a key keeps everybody out in every run until its lease runs out |
| GroupLock.CountingWritesNothing | service/service_hub.go:208-239 | counting the groups changes nothing, even under an expired lock |
| GroupLock.CallCompletes | service/service_hub.go:124-206 | a call that finds the lock free can run to its end, with its effect on the counter, and leaves the lock free |
| GroupLock.ExpiryBreaksLock | etcd/etcd_distributed_lock.go:56-67 | wherever a holder's lease runs out while another client waits, two clients can be in the section, and the first release frees the other's lock |
| GroupLock.ExclusionIffTimely | etcd/etcd_distributed_lock.go:20-67 | with two clients or more, the end of a live lease can lead to two clients in the section exactly when a client in the section relies on it |
| GroupLock.CountingIffTimely | service/service_hub.go:124-239 | with two clients or more, the end of a live lease can make a call miscount, or the counter differ from additions minus subtractions, exactly when a client in the section relies on it |
| GroupLock.ExpiryLosesUpdate | service/service_hub.go:139-164 | such an expiry between read and write loses an addition |
| Membership.LookupExact | service/service_hub.go:93-113 | for prefix-free names the prefix lookup returns exactly a group's own endpoints |
| Membership.CounterReadExact | service/service_hub.go:139-140 | for plain names the counter's own prefix read finds the counter and nothing else |
| Membership.AccurateIffHarmless | service/index_service.go:132-195 | a call returns and leaves the counter right exactly when its group has another endpoint or the call adds a new endpoint, beats for or closes a registered one, or is the crash of one not registered |
| Membership.AccurateRunIffHarmless | service/index_service.go:116-195 | the counter is right after every call of a sequence, and none panics, exactly when every call is of that kind |
| Membership.CounterIsGroups | service/index_service.go:116-195 | for prefix-free names, after every sequence of harmless registrations, heartbeats, closings and crashes, the counter is the number of groups with an endpoint, no call has panicked and every lookup is exact |
| Membership.AlwaysRightIff | service/service_hub.go:138-152 | for names without a slash, the counter is right after every harmless sequence of calls exactly when no name begins another, begins the counter's or begins with it |
| Membership.PrefixMiscounts | service/index_service.go:137-140 | whenever one name begins another, two harmless registrations leave the counter wrong |
| Membership.ShortNameMiscounts | service/index_service.go:178-195 | for any name that begins the counter's, registering and closing leaves a group counted that has no endpoint |
| Membership.CounterNameMiscounts | service/service_hub.go:139-156 | for any name that begins with the counter's, the first registration is not counted, because the endpoint is read as the counter |
| GroupNames.CounterRightUpToTen | service/index_service.go:54 | for the names group-0 to group-(n-1) the counter is right in every sequence of harmless calls exactly for n up to 10 |
| GroupNames.PrefixFreeUpToTen | service/index_service.go:54 | the names group-0 to group-(n-1) are prefix-free exactly for n up to 10 |
| GroupNames.DecimalIs | service/index_service.go:54 | the digits in a group's name are those of its number, without a leading zero |
| Membership.ReRegisterMiscounts | service/index_service.go:132-140 | registering a group's only endpoint again makes the counter one too large |
| Membership.LateHeartbeatMiscounts | service/index_service.go:145-150 | a heartbeat after the last close brings an endpoint back uncounted: the counter is one too small |
| Membership.CloseAfterFailedRegister | service/index_service.go:178-195 | a process whose registration has failed and whose group has no endpoint takes another group's count away by closing, and panics exactly when there is no counter |
| Membership.FailedRegisterBreaksClose | demo/internal/main/index_worker.go:30-31 | for any two groups, such a closing makes the only worker of the other group panic when it closes |
| Membership.LockUnseen | service/service_hub.go:124-129 | the lock's own key, under the same root, is left out of a group's lookup exactly when the group's name does not begin the lock's |
| Overlap.TogetherRightIff | service/index_service.go:132-195 | two harmless registrations or closings that both put or delete before either looks up leave the counter right exactly when they are of different groups or the group has another endpoint, or both register again |
| Overlap.BeginsCommute | service/index_service.go:132-195 | which of them puts or deletes first makes no difference |
| Membership.Registry.Register | service/index_service.go:132-143 | put, look up, and add the group if the endpoint is its only one |
| Membership.Registry.Close | service/index_service.go:178-195 | delete, look up, and subtract the group if none is left; panics on an absent counter |
| SnowflakeRuns.RepeatIff | util/snowflake.go:41-66 | two calls of a worker agree exactly when the worker id is odd, the first waits, and the second is the next and reads the millisecond that ended the wait |
| SnowflakeRuns.NumberCounts | util/snowflake.go:47-61 | the sequence number counts the calls of the current millisecond |
| SnowflakeRuns.WaitIffCrowded | util/snowflake.go:50-55 | a wait happens exactly at the calls beyond the 4096th of a millisecond |
| SnowflakePack.PackValue | util/snowflake.go:65 | what shifting and or-ing gives in the clock's range; a number of 4096 spills into the worker field |
| Snowflake.DistinctIff | util/snowflake.go:41-66 | IDs of one worker are distinct exactly when its id is even or no call reuses the millisecond that ended a wait |
| Snowflake.SameIdIff | util/snowflake.go:41-66 | whatever the clock does, two calls of a worker that do not wait agree exactly when they read the same millisecond and have the same number in it |
| Snowflake.BackwardRepeats | util/snowflake.go:46-61 | a clock that goes back to an earlier millisecond makes every worker repeat an ID |
| Snowflake.FirstId | util/snowflake.go:17-24 | a worker's first ID of a millisecond in numbers, from the program's epoch |
| Snowflake.OddWorkerRepeats | util/snowflake.go:41-66 | every odd worker repeats an ID if it is called 4097 times in one millisecond and once in the next |
| Snowflake.Increasing | util/snowflake.go:41-66 | IDs are positive, and strictly increase exactly when no call reuses the millisecond that ended a wait, for even and odd workers |
| Snowflake.UncrowdedIncreases | util/snowflake.go:41-66 | in particular with at most 4096 calls a millisecond |
| Snowflake.AcrossWorkers | util/snowflake.go:41-66 | IDs of different workers are equal exactly when the smaller id is even, the other its successor, the smaller one's call has waited, and the other's is the first of the millisecond that ended the wait, or has waited for it too |
| Snowflake.EvenWorkerCollides | util/snowflake.go:41-66 | every even worker collides with its successor: 4097 calls in one millisecond against one call in the next |
| Snowflake.Worker.GetId | util/snowflake.go:41-66 | the ID and new state of the model; a call that has to wait needs a clock that passes the recorded timestamp at some time, any other call reads the clock once |
| Snowflake.NewWorker | util/snowflake.go:29-39 | rejects exactly the worker ids above ten bits |
| QueryPrinter.ToString | types/term_query.go:53-92 | the string-builder loops print what Print says |
| QueryPrinter.PrintSays | types/term_query.go:53-92 | the output of a plain query can be read as a formula, an ampersand for all and a vertical bar for some, in exactly one way, and it holds of the documents the query matches |
| QueryPrinter.PrintPair | types/term_query.go:53-92 | two printed parts of a Must are joined by an ampersand, of a Should by a vertical bar, in parentheses |
| QueryPrinter.BlankPrintsNothing | types/term_query.go:53-92 | exactly the queries that are empty or end in a blank keyword print nothing |
| QueryPrinter.BalancedIff | types/term_query.go:53-92 | for keywords without parentheses the output is balanced exactly when no printed node has several children that all print nothing |
| QueryPrinter.PrintUnambiguous | types/term_query.go:53-92 | equal output means equal trees up to nodes with one child, if every subtree prints something and keywords avoid the printer's bytes |
| QueryPrinter.SameOutputSameAnswer | types/term_query.go:53-92 | hence equal answers, in every index and under all flags |

## Left out

- Encoding of stored documents (`encoding/gob`) is taken to give the document back, and writes to the store to succeed; Badger and Bolt are a map from ids to documents. A store that fails in the middle of an add is not modelled.
- Concurrent calls on one indexer: an add is not atomic and a search takes no lock, so calls come one at a time. The locks of the posting lists and of the map segments are not part of this model.
- Skip-list internals, the hash function (any function will do) and capacity hints.
- Nil keywords, nil sub-queries inside lists, and a search request without a query, on which the original panics.
- Unmarshalling.UnmarshalInto: gives the error alone when decoding fails; what the original has already written into the message by then is not modelled.
- Unmarshalling.ReadField: one record layer stands for the loops that the code generator repeats in every message; error texts are reduced to their kinds. An index that overflows is recognised by its size rather than by its sign.
- Messages.DecodeAppend: says success and result; where a message lies in its buffer can change the kind of an error, because an overflowing length is noticed before one that is merely too long.
- A byte slice that is nil and one that is empty are the same here.
- The messages DocId, AffectedCount and CountRequest, with at most one scalar each: they would only add easy cases.
- Video.VideoRoundTrip: on values; the loops that size, write and read this message are those of the others, except for the 32-bit fields.
- Backward.MarshalToSizedBuffer: asks for a buffer with room, as the callers provide; the original panics on a smaller one.
- Registration is always asked for with lease 0, because the first call hands back the lease it was given: renewing a lease is never reached, a heartbeat is another put, and only that is modelled.
- Cluster.Sentinel.AddDoc: the replicas are the values of their indexes, not objects, and their number is fixed; writes come one at a time and a call that fails late has already taken effect. Which IntId a replica draws is a parameter.
- Cluster.ClusterRefinesIndex: the number of groups is fixed and positive; with none the original returns nothing, or divides by zero when writing. A group without listed replicas is skipped silently when reading; here each group has one that answers.
- Cluster.CountsAddUp: counts are natural numbers; FanIn.ClusterCount is about the 32 bits of the original.
- FanIn.ResultIsMerge: a failing RPC ends the original's process; here a producer either sends everything or is stopped by the timeout.
- GroupLock.LockedCounter: the retry loop and the calls are steps of a machine and not methods, because their interleaving is the point; so are the goroutines of FanIn. A call that fails has no effect on etcd, except that the reply to a successful lock may be lost; a write that takes effect although it is reported as failed is not modelled.
- GroupLock.StepKeepsInv: the waiting time between tries and the deadlines of the calls are not modelled; a call whose deadline passes is one that fails or crashes.
- Membership.CounterIsGroups: calls run one at a time, and Overlap has two at once but not more, with the lookup and the count that follows it in one step; a put or delete that fails leaves everything as it was, and a lookup that fails after one has succeeded is not modelled.
- The cache of the hub proxy, load balancers, gRPC connections, configuration, logging and the demo handlers.
- Snowflake.Worker.GetId: the clock is a numbered sequence of readings; a call that has to wait is not modelled on a clock that never passes the recorded timestamp, because the original never returns from it. The same holds for Indexer.Indexer.AddDoc.
