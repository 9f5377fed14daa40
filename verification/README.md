# HyperUuid: the version 7 stream and what stands around it, verified

A Dafny model of the Go binding of HyperUuid and of the translated core under it
(`go/internal/core/core.go`, `go/random_aes.go`, `go/core.go`, `go/core_pool.go`), with proofs of
what the project documents under "v7 ordering, precisely", of its SQL Server order, of its random
source, of its version 5 block feeding and of the sharing of instances.

`dafny verify dfyconfig.toml` checks everything.

## What is modelled

| file | what it holds |
|---|---|
| `Stream.dfy` | The stream as plain arithmetic on one 64-bit word, `(millisecond + 1) * 2^20 + step`: one reservation (advance, clamp, split, exhausted or out of stream) and everything that holds over runs of them. A single call is a block of one step, a batch a block of ⌈n/64⌉. |
| `V7.dfy` | The byte layout of a version 7 value (RFC 9562 sections 5.7 and 6.2), one whole call with its error codes, runs of calls, and the order of the 16-byte values they mint. |
| `Calls.dfy` | What one call does, in plain numbers and from the bytes it drew: its code, where its values lie, what they are, and the word it leaves. |
| `Core.dfy` | `Xuuid_new_v7` and `Xuuid_new_v7_batch` on linear memory, branch by branch: the range check, the draws, the compare-and-store loops with others' reservations landing between load and compare, the byte stores, and the backward fill in place. Each is proved equal to the call of `V7.dfy`. |
| `SqlOrder.dfy` | The two in-place conversions, register by register, proved equal to a permutation of 122 bits that is a bijection and an order isomorphism. |
| `Readers.dfy` | The timestamp readers in both layouts. |
| `AesSource.dfy` | The keystream buffer: `fill`, `generate`, `rekey`, with a byte budget, a lifetime and key reads that fail. |
| `V5.dfy` | `Xuuid_new_v5`: the blocks fed to SHA-1, the byte-swapped length, and the version and variant in the digest. |
| `Instances.dfy` | The instance class: linear memory that grows, the scratch, and the calls made on it. |
| `Pool.dfy` | The primary's lock, the pool and one-off instances, as a state machine over the steps of concurrent callers: others may come between a call's reading of the stream word, its storing, and its copying out. |
| `Bits.dfy`, `Bytes.dfy`, `Words.dfy` | Machine words as naturals with recursive bitwise operations, little- and big-endian bytes, and the masks and joins of the translated code as divisions, remainders and sums. |

A 64-bit or 32-bit machine value is a `nat`, and every truncation, mask and wrap that the code relies
on is written out. The clock, the key reads and the bytes of the random source are parameters, so
every theorem holds for all of them.

## Where the code and its documentation differ

- **A key's second.** `go/random_aes.go:24-26` and `go/README.md:153-155` say that buffered
  keystream never outlives its key's second. The lifetime is checked against the newest key only,
  and a refill that crosses the byte budget leaves the end of the old key in the buffer beside the
  start of the new one. `AesSource.AKeyOutlivesItsSecond` is a run of the source in which bytes of a
  key read at time 0 are served at 1.5 s. `AesSource.OutlivesOnlyWhenStraddling` gives the exact
  states in which the promise holds, `AesSource.StraddlesExactlyWhen` the exact draws that lead to
  the others, and `AesSource.BufferedBytesServeInTime` the promise the code does keep.
- **Timestamp out of range.** `go/errors.go:10-12` describes the error as a timestamp that does not
  fit the 48-bit field. The code refuses exactly what is past 253402300799999, as `README.md:86` says
  (`V7.RangeIsTheYear9999`); the model follows the code.

## Model

| member | source | states |
|---|---|---|
| Stream.BlockIsNew | go/internal/core/core.go:902-954 | every block lies wholly past the word it was reserved from, inside 64 bits, and a block that does not advance starts at the very next position |
| Stream.WhereACallLands | go/internal/core/core.go:895-955 | in plain numbers, exactly when a call is out of stream, advances, takes the next step (clamped up to 11000 ms behind, split within 1000 ms and 2^44 - 2) or is exhausted, and the word it leaves |
| Stream.OneMoreRequest | go/internal/core/core.go:943-954 | what one more call at the end of a run adds to its word, its positions, its newest timestamp, its steps consumed, and whether any call of it advanced |
| Stream.PositionsIncrease | README.md:80 | over every run of singles and batches, with any timestamps and seeds, no position is handed out twice and each is later than all before it |
| Stream.RunConcat | go/internal/core/core.go:943-953 | a run made in two parts is the run made whole: the word is all the state there is |
| Stream.DriftIsBounded | go/internal/core/core.go:914-941 | in every reachable state the stream's millisecond M and the newest reserved timestamp S satisfy S <= M <= S + 1000 |
| Stream.TenSecondsStayInStream | README.md:80 | after any run of reservations from a new stream, none at most 10 s behind S is refused into out-of-stream |
| Stream.EmbeddedMillis | README.md:81 | every position of a block for t lies in a millisecond of [t, t + 11000]; exactly t on an advance; a split's later part at most t + 1000 and at most 2^44 - 2 |
| Stream.BatchIsSingles | go/internal/core/core.go:1085-1119 | a batch's block is the same outcome, the same positions and the same word after as that many single reservations at its timestamp, whatever the later ones' seeds; it is refused exactly when one of them would be |
| Stream.BlockSpansTwoMillis | go/internal/core/core.go:1104-1118 | even a block of 2^20 steps crosses at most one millisecond's end |
| Stream.CapacityIsExact | README.md:83 | singles at one timestamp, beginning with an advance: call i is reserved exactly when i is below (2^20 - seed) + 1000 * 2^20 (less near 2^44 - 2), and every later one is exhausted; with a seed below 2^19 the first 2^19 + 1 get the timestamp itself |
| Stream.RunOfSingles | go/internal/core/core.go:921-939 | the exact word after i of those calls, through every split and past exhaustion |
| Stream.AfterExhaustion | README.md:83 | exhaustion leaves the word, and any later timestamp up to 2^44 - 2 then advances to its own millisecond |
| Stream.StepsAreConserved | README.md:84 | between two advances the word grows by exactly the steps consumed, and the positions handed out are consecutive, splits included |
| Stream.StepDifferenceIsConsumption | README.md:84 | over every run, the step difference of any two values in one millisecond is the number of steps consumed from one to the other, wherever calls advanced |
| Stream.SplitDifferenceIsConsumption | README.md:84 | across a split, the rollover-adjusted difference is that number, after a first call free to advance and any that do not |
| Stream.RolloverIsConsumptionAtASplit | README.md:84 | over every run, the rollover-adjusted difference of values in consecutive milliseconds is never below the steps consumed, and equal to it exactly when the end of the one and the start of the other were both taken |
| Stream.LoneStepShowsAtLeast | README.md:84 | a value at step s of its millisecond means all the positions from step 2^19 - 1 up to s were consumed |
| V7.EncodeReads | go/internal/core/core.go:969-1004 | a laid-out value has version 7 and the RFC variant, and millisecond, 26-bit counter and random tail all read back |
| V7.EncodeOrder | go/internal/core/core.go:969-1004 | left-to-right byte order of values is the order of (millisecond, step, low six bits), whatever the random tails |
| V7.AdjacentCounters | README.md:84 | two single calls, one right after the other, that mint in the stream in one millisecond have counters 1 to 127 apart |
| V7.RangeIsTheYear9999 | go/internal/core/core.go:872-874 | a call is out of range exactly when its timestamp is past 253402300799999; 253402300800000 fits 48 bits and is refused |
| V7.BatchSeedFits | go/internal/core/core.go:1061-1073 | the scaled 32-bit draw is below 2^19 and leaves the whole batch inside its millisecond |
| V7.CallPromises | go/internal/core/core.go:1016-1119 | a failed or out-of-stream call leaves the word; a failed one mints nothing; a successful one mints as many as asked, each embedding t to t + 11000, or exactly t out of stream |
| V7.RunAscends | README.md:80 | over every run of whole calls the minted keys increase strictly and lie between the first and the last word |
| V7.StreamIsSorted | README.md:80 | over every run of singles and batches, with any timestamps, draws and failures, the stream's values are strictly increasing as 16-byte strings |
| V7.SortedIsDistinct | README.md:97 | strictly increasing values are pairwise distinct |
| V7.CallsAreRequests | go/internal/core/core.go:872-956 | a run of calls moves the word exactly as the run of the reservations that were reached |
| V7.OneMoreCall | go/internal/core/core.go:943-1004 | what one more call at the end of a run adds to its word and to the values of the stream |
| V7.TenSecondsGuarantee | README.md:80 | after any calls on a new stream, a call within 10 s of S either fails or mints in the stream |
| Calls.Refusals | go/internal/core/core.go:1016-1059 | exactly which calls answer 2, 4 and 1, in that precedence; every refused call mints nothing and leaves the word |
| Calls.SingleLands | go/internal/core/core.go:872-960 | a single call's whole outcome from the word and the eleven drawn bytes: code, word, and the position, low bits and tail of its value |
| Calls.BatchLands | go/internal/core/core.go:1061-1194 | a batch's whole outcome from the word and its drawn bytes, the seed scaled from the last four |
| Calls.BatchConsumesItsSteps | README.md:78 | a batch of n in the stream takes ⌈n/64⌉ steps, 64 values to each, and the last value's step is the word it leaves |
| Core.ReserveOne | go/internal/core/core.go:893-960 | with any reservations of others between load and compare, the loop ends and applies one atomic reservation to the word actually present |
| Core.ReserveMany | go/internal/core/core.go:1074-1138 | the same for a batch's block of steps |
| Core.NewV7 | go/internal/core/core.go:860-1009 | code, word and the sixteen bytes are those of the specified call made at one point among the others' reservations; nothing else in memory changes, and nothing at all on failure but what others reserved |
| Core.LayOutOne | go/internal/core/core.go:961-989 | the byte stores over the random frame, with a step past the millisecond's end carried, are the value's encoding |
| Core.CopyOut | go/internal/core/core.go:990-1004 | the five loads and stores copy the sixteen bytes exactly |
| Core.NewV7Batch | go/internal/core/core.go:1010-1205 | code and word of the specified batch at one point among the others' reservations; on success every item is the specified value; refused arguments write nothing, a failed draw or reservation only the drawn bytes |
| Core.DrawBatch | go/internal/core/core.go:1026-1059 | 6n + 4 bytes drawn in requests of at most 65536, in order and without gaps; it succeeds exactly when every request does |
| Core.DrawExactly | go/internal/core/core.go:1041-1059 | a draw has the source's bytes in order exactly when every request of at most 65536 is answered with zero |
| Core.SeedOfBatch | go/internal/core/core.go:1061-1073 | the seed is the specified scaling of the draw's last four bytes |
| Core.LayOutMany | go/internal/core/core.go:1139-1194 | for every n up to 2^26, every item laid out backwards in place is the value of its step, its index mod 64 and its own six drawn bytes; neither trap is reached |
| Core.OneItemBack | go/internal/core/core.go:1176-1191 | writing item k spoils neither the undrawn bytes before it nor the items after it |
| Core.WriteItem | go/internal/core/core.go:1176-1187 | one eight-byte load and two eight-byte stores write one item |
| Core.BatchWord | go/internal/core/core.go:1101-1117 | the masked and wrapped fields of the word are its step, the steps left and the word k steps on |
| Words.SeedBits | go/internal/core/core.go:886-890 | the shifted-together draw bytes are a 19-bit seed |
| Words.SwappedMillis | go/internal/core/core.go:1164 | the byte-swapped cached timestamp is the six big-endian bytes |
| Words.SecondHalfBytes | go/internal/core/core.go:1185-1186 | the second stored word is variant, last counter byte and the six random bytes moved up |
| SqlOrder.ConversionsAreInverse | go/internal/core/core.go:1210-1340 | the two conversions are mutually inverse bijections between version 7 values and values of the SQL Server layout |
| SqlOrder.ConvertedIsOneToOne | go/uuidgen.go:234-242 | carrying the same 122 bits makes a value and its conversion determine each other |
| SqlOrder.SqlOfConverts | go/uuidgen.go:234-242 | a conversion to SQL order carries all 122 bits in order of significance around the 8 and the variant |
| SqlOrder.RfcOfConverts | go/internal/core/core.go:1226-1266 | a conversion back carries the same 122 bits |
| SqlOrder.SqlOctets | go/uuidgen.go:231-240 | where every octet of the timestamp and of the random bits goes, and that octets 8, 9, 6 and 7 hold the counter around the variant and the 8 |
| SqlOrder.SqlOrderIsRfcOrder | go/uuidgen.go:231-239 | the SqlGuid significance order of converted values is the byte order of the originals, both ways |
| SqlOrder.StreamIsSqlSorted | go/uuidgen.go:231-239 | over every run of calls, values sort in SQL Server in reservation order |
| SqlOrder.ToSqlOrder | go/internal/core/core.go:1271-1340 | the in-place register code converts exactly the version 7 values and leaves all other memory, and a refused value, as it was |
| SqlOrder.ToRfcOrder | go/internal/core/core.go:1210-1270 | the same for the way back |
| Readers.GetTimestamp | go/internal/core/core.go:58-113 | answers 7 and writes the milliseconds exactly for version 7 values of the layout dated up to the end of 9999, else 0 and writes nothing |
| Readers.UnixMillisIn | go/internal/core/core.go:1350-1384 | the six timestamp bytes of the layout as one big-endian number, and 0 for no layout |
| Readers.TimestampExactly | go/internal/core/core.go:64-110 | the checked reader answers for exactly the values whose bytes show the layout's version and variant and a timestamp up to 253402300799999 |
| Readers.CapNeedsOnlyTopBits | go/internal/core/core.go:105-108 | testing the top 40 bits alone accepts exactly the values up to 253402300799999 |
| Readers.MintedReadsBack | README.md:86 | a minted value reads back its millisecond in both layouts, through the checked reader too up to the end of 9999 |
| Readers.SqlReadsTheSame | go/internal/core/core.go:80-95 | a value in SQL order reads in place as it does converted back |
| AesSource.AesSource.Fill | go/random_aes.go:83-108 | a successful draw is one contiguous stretch of keystream from the specified start, independent of the destination's old bytes; the source's next state, the keys read and the clock readings kept are determined; a failure leaves it keyless |
| AesSource.AesSource.Generate | go/random_aes.go:113-126 | generation cut at the budget continues at the next key's first byte; no key generates past 2^20 |
| AesSource.AesSource.Rekey | go/random_aes.go:131-145 | the buffer and key are gone at once, and a new key starts at offset zero |
| AesSource.DrawInPlainNumbers | go/random_aes.go:83-126 | where a draw that succeeds starts, a fresh key exactly when there is none or it was read a second ago or more; what it generates, 512 bytes at least; and how many keys it reads |
| AesSource.OtherDraws | go/random_aes.go:83-91 | an empty draw does nothing; a draw fails with code 29 only and leaves no key |
| AesSource.EveryByteServesInTime | go/random_aes.go:24-26 | over any draws, each byte served is of a key that draw read, or within a second of the newest key's reading, generated bytes included |
| AesSource.KeyByKey | go/random_aes.go:20-23 | the keystreams are cut at 2^20 bytes a key |
| AesSource.DrawsAreContiguous | go/random_aes.go:80-82 | with no expiry and no failed read, each draw starts where the last ended, however the bytes are sliced into draws |
| AesSource.DrawsSpellTheKeystream | go/random_aes.go:80-82 | the outputs of those draws joined are a prefix of the keys' first 2^20 bytes laid end to end |
| AesSource.ServedIncreases | go/random_aes.go:83-145 | over any draws, clocks and failures, what is served later has strictly later (key, offset): no byte is served twice |
| AesSource.NextIncreases | go/random_aes.go:83-145 | the next byte to serve never goes back and no key read is forgotten |
| AesSource.FailureServesNothing | go/random_aes.go:128-130 | over any draws, after a failed one nothing of a key read before it is served again |
| AesSource.BufferedBytesServeInTime | go/random_aes.go:24-26 | over any draws, a byte generated by one and served by a later one is served within a second of the newest key's reading, with no failure and no expiry in between |
| AesSource.OutlivesOnlyWhenStraddling | go/random_aes.go:24-26 | the stronger promise, about each byte's own key, holds exactly when the buffer holds nothing of an earlier key or that key was read no earlier than the newest |
| AesSource.StraddlesExactlyWhen | go/random_aes.go:96-126 | a draw leaves bytes of an earlier key in the buffer exactly when a multiple of the budget lies strictly between what it serves and what it generates, both known before it |
| AesSource.AKeyOutlivesItsSecond | go/random_aes.go:24-26 | a run of the source itself, three draws on a scripted clock, in which the last gives out bytes of a key read 1.5 s before |
| V5.PadFits | go/internal/core/core.go:291-334 | the padding fills whole blocks and no fewer zeros would |
| V5.PadReads | go/internal/core/core.go:293-334 | the padding on its bytes, as section 5.1.1 of FIPS 180-4 has it: the message, 0x80, zeros, and eight bytes that read as its length in bits |
| V5.StartsFromTheStandardState | go/internal/core/core.go:236-241 | the digest starts from the five words of section 5.3.1 of FIPS 180-4 |
| V5.FeedNothing | go/internal/core/core.go:359-361 | no block leaves the state |
| V5.FeedOne | go/internal/core/core.go:356-375 | one block is one compression |
| V5.FeedConcat | go/internal/core/core.go:278-282 | feeding blocks in parts is feeding them whole |
| V5.OneLastBlock | go/internal/core/core.go:330-335 | with fewer than 56 bytes left, one last block completes the padding |
| V5.TwoLastBlocks | go/internal/core/core.go:296-329 | with 56 to 63 left, two do |
| V5.LengthBytes | go/internal/core/core.go:331-334 | the shifted and masked length word is the 64-bit big-endian bit length |
| V5.LoadState | go/internal/core/core.go:236-241 | the initial digest state is the one the data section holds |
| V5.FeedWhole | go/internal/core/core.go:226-292 | first block, bulk blocks straight from the name, and tail take in the message without gap or overlap |
| V5.FeedLast | go/internal/core/core.go:294-335 | pad and length finish exactly the SHA-1 of the message |
| V5.Digest | go/internal/core/core.go:220-335 | for every name up to 2^31 - 1 bytes the blocks fed are the padding of namespace followed by name |
| V5.WriteId | go/internal/core/core.go:336-352 | the digest's byte-swapped words are stored with version 5 and the variant over them |
| V5.IdReads | go/internal/core/core.go:336-352 | a value has version 5 and the variant, and its other 122 bits are the digest's own |
| V5.NewV5 | go/internal/core/core.go:220-355 | the value written is the version 5 of namespace and name, and nothing else changes |
| Instances.PagesAreFewest | go/core.go:94-105 | the pages computed are the fewest that hold the bytes, and a refusal means no addressable count would |
| Instances.EveryCheckedNameFits | go/core.go:42-48 | every name that passes the length check fits an instance of its own, for any page limit of at least 3 |
| Instances.LimitsInPlainNumbers | go/core.go:42-48 | the longest name in plain numbers, 2147483647 bytes on a 64-bit host, and that no batch of a legal size is too much for a host with 16386 pages |
| Instances.Instance.LayoutOfMemory | go/core.go:54-60 | the memory is two pages and the scratch's, the scratch from byte 131072 on |
| Instances.Instance.Grow | go/internal/core/core.go:1562-1576 | growth keeps every byte and adds zeros, or fails and changes nothing, the 64-bit carry of the page count included |
| Instances.Instance.EnsureScratch | go/core.go:107-122 | the scratch holds the bytes afterwards and never shrinks; refusal changes nothing; earlier contents, the stream word among them, are kept |
| Instances.Instance.constructor | go/core.go:69-71 | a new module's stream has never been used |
| Instances.NewInstance | go/core.go:69-80 | an instance of the pages asked for, its memory two pages longer, exactly when the host can address it |
| Instances.Instance.NewV7 | go/core.go:236-238 | inside the lock the call is the specified one on this word, and only the word and the scratch's first sixteen bytes change |
| Instances.Instance.NewV7Batch | go/core.go:248-256 | code 3 exactly when the batch cannot be addressed; else, inside the lock, the specified batch on a scratch grown to hold it; the destination changes only on success |
| Instances.Instance.RunV5 | go/core.go:221-230 | the version 5 of what was copied in, leaving the stream word |
| Instances.NewV5 | go/core.go:194-219 | every name the length check takes is answered, and no other |
| Instances.Instance.Load | go/core.go:259-263 | the value is in the scratch and the stream word kept |
| Instances.Instance.Convert | go/core.go:277-289 | the conversion of a value, or its refusal |
| Instances.Instance.BytesInPlace | go/core.go:291-303 | a caller's bytes are converted exactly when taken, and left as they were on refusal |
| Pool.StepKeepsInv | go/core_pool.go:34-52 | every step of every caller keeps: no instance held twice, the lock held exactly while the primary is, pooled instances base-sized and idle; what a caller read or wrote still there until it has stored or copied; the values copied out those of the calls logged |
| Pool.RunKeepsInv | go/core_pool.go:34-52 | so does every interleaving of steps |
| Pool.EveryInterleaving | go/core_pool.go:7-13 | in every state reached from the start, instances are held by one caller at most, a minting caller is alone on the primary, and only the primary's stream moves |
| Pool.GivenBack | go/core_pool.go:42-52 | a release frees the lock, or pools the instance exactly if it is still one page |
| Pool.WhoCanBegin | go/core_pool.go:32-40 | in every reachable state a stateless call can begin, on the primary exactly when it is free, as a version 7 call can |
| Pool.LogIsTheCalls | go/core.go:232-239 | the log is every version 7 call that stored, once each, in that order |
| Pool.EachCallerGetsItsOwn | go/core.go:232-257 | over every interleaving, each caller copies out exactly what its own call wrote to the scratch: a stateless call its answer, a version 7 call its values |
| Pool.OneStream | go/core.go:7-9 | over every interleaving of the reading and storing of the word, it is where the calls leave it as if each had run whole, one after another |
| Pool.AllCallersShareOneOrder | README.md:78-80 | what all callers have copied out of the stream is strictly increasing as 16-byte strings, in the order they copied it, and nothing is missing |
| Pool.TheLockIsNeeded | go/core.go:232-239 | with the lock's guard dropped for one step, a version 7 call returns another caller's bytes |

## Left out

- SHA-1's compression function (`fn6`): abstract, so nothing is said about digests as such.
- AES, the operating system's reader and the rule that chooses between them: the keystream is an abstract function of key and offset.
- `Xuuid_new_v4`, `Xuuid_is_rfc`, `Xuuid_version`, `Xuuid_variant` and the version number: settled by reading them.
- Error strings, sentinel errors, string formatting, the typed and time-valued doors of `go/uuidgen.go` and `go/inspect.go`, and the other languages' bindings.
- The TinyGo variant, where every call takes the primary, and targets without 64-bit atomics.
- The guest's shadow stack: the frame of a call is a local array, so its overflow is not modelled.
- Pointers: addresses are naturals that the caller keeps inside memory; 32-bit address wrap and the bounds panics of the translated loads and stores are not modelled.
- The mutex and `sync.Pool` themselves: a lock is a flag taken in one step, and the pool a set that a collector may empty at any moment. A stateless call may take a pooled instance even when the primary is free, which only adds interleavings.
- Memory that the host cannot allocate.
- Core.NewV7: what others do between load and compare is any sequence of whole reservations, not stores that tear the word.
- AesSource.AesSource.Fill: after a failed draw what the destination holds is not stated: the code disclaims it.
- AesSource.BufferedBytesServeInTime: speaks of the newest key's second and not of each byte's own key, because the stronger promise is false of the code; its exact condition is proved beside it.
- Instances.Instance.NewV7: the mutex is not a field of the class; that no other call comes between is what `Pool.dfy` proves of the lock.
- Instances.Instance.NewV7Batch: as for NewV7.
- Pool.OneStream: the core's run is two steps, reading the word and storing it with the values, and copying out is a third; that the code between them computes what the step says is `Instances.Instance.NewV7` and `Instances.Instance.NewV7Batch`.
