# A verified model of ckpool

ckpool is a Bitcoin Cash stratum mining pool. This project models its core in Dafny and proves what
that core is for: work is assembled so that what miners hash is what the pool checks and what the
block chain accepts, no share handed in on time counts twice, no structure of a client that epoll took is
reused while anything refers to it, and the hand-written tables, codecs and locks underneath do what they
stand for.

| files | what they model |
|---|---|
| `Merkle.dfy`, `Coinbase*.dfy`, `Header.dfy`, `Submission.dfy` | work assembly: the Merkle branch reduced in place, the coinbase buffers and their three ways to a payout script, the API server that reads them back, the header a share is hashed under |
| `Shares.dfy` | jobs and shares: templates, stale jobs, the share table that is purged and aged |
| `Connector.dfy`, `ConnectorData.dfy` | client structures under reference counts, and the sender thread with its partial writes |
| `Utlist.dfy` | the doubly linked lists those queues are made of |
| `Framing.dfy`, `ClientLines.dfy` | the two line readers |
| `Enonce.dfy` | extranonces, saved sessions and their resumption |
| `Elements.dfy`, `MergeSort.dfy`, `Uthash.dfy` | the hash table and the merge sort of `uthash.h` at the level of their pointers |
| `Sha256.dfy` | the streaming SHA-256 against FIPS 180-2 |
| `Polymod.dfy`, `Regroup.dfy`, `CashAddr.dfy`, `Base58.dfy`, `Address.dfy`, `KnownAddresses.dfy`, `Hex.dfy` | the address and hex codecs |
| `Cklock.dfy` | the write-biased lock, for any number of threads |
| `Bytes.dfy`, `Bitwise.dfy`, `Sequences.dfy`, `Strings.dfy`, `Wrappers.dfy` | what the others share |

Code that works in place is imperative here too: buffers are arrays written by offset, the elements of
tables and lists are objects whose links are changed one by one, the connector's client structures are
records addressed like memory, and every such method is proved against a function of the old state. Protocols that several threads take part in (shares, connector,
extranonces, lock) are state machines: `Step` is one atomic section, `Run` any sequence of them, and
the results hold in every reachable state. Sockets, clocks and `bitcoind` are parameters: what a read
delivers, what a write takes, what time it is.

A `byte` is a number below 256. Machine integers wrap where the source's can: the 32-bit counters and bit
length of SHA-256, the accumulator of the bit regrouping, `ntime + 7000`, the 64-bit extranonce
counter, Go's `int` and the run length of the merge sort. The hash functions that results do not depend
on (`gen_hash`, the hash of table keys, the double SHA-256 of addresses) are parameters, so those
results hold for every one.

Some properties one might expect are not true of the code as they stand; each is stated with a
counterexample and the exact condition:

* A (job id, hash) pair can be accepted twice, exactly as a late share for a stale job that was kept,
  which `src/stratifier.c:6416-6430` accepts from clients with a latency (`Shares.RepeatedExactlyWhen`,
  `Shares.LateShareRepeats`).
* What a client's bytes mean can depend on how reads cut them up, for `json_loads` is given the buffer
  up to a zero byte and not the line (`src/connector.c:552`). It does exactly for parsers that are swayed
  by what follows a line (`ClientLines.CuttingIrrelevantExactly`, `ClientLines.SpreadObject`); for lines
  that each hold a whole JSON value it does not (`ClientLines.LocalStream`).
* A client structure can be recycled while a thread holds a reference to it, after an accept whose client
  epoll did not take: its reference is given back and it stays live (`src/connector.c:350-354`). The
  invariant is kept exactly by the accepts that register (`Connector.RegistrationDecides`).
* `sha256_final` pads as the standard says exactly for messages below 2^29 bytes
  (`Sha256.StreamPaddingIsPadding`).
* `get_sernumber` undoes `ser_number` exactly for numbers that are not negative (`Coinbase.SerRoundTrip`),
  and the API server reads back a height exactly when it is positive (`CoinbaseRoundTrip.HeightReadBack`).
* Sixteen Merkle slots suffice exactly up to 65535 transactions; the code does not check
  (`Merkle.SixteenSlotsSuffice`).
* Two different extranonces have equal n-byte strings exactly when they differ by a multiple of 256^n
  (`Enonce.EnonceStringsDiffer`).

## Model

| member | source | states |
|---|---|---|
| Merkle.FoldIsRoot | src/stratifier.c:6144-6150 | For every transaction list, folding any coinbase hash through the branch is the Merkle root of the whole block, odd levels closed by doubling their last node |
| Merkle.RootOfHalves | src/stratifier.c:1422-1441 | The root over twice 2^k leaves is the hash of the roots over its halves |
| Merkle.RootOfOdd | src/stratifier.c:1431-1434 | Where the number of leaves is no power of two, taking the last odd group of 2^k twice changes nothing: every tree is one of whole halves |
| Merkle.BranchLength | src/stratifier.c:1422-1441 | The branch has ceil(log2(txns + 1)) hashes |
| Merkle.SixteenSlotsSuffice | src/stratifier.h:55-57 | The sixteen slots of a workbase are enough exactly up to 65535 transactions |
| Merkle.HashPairs | src/stratifier.c:1436-1437 | Hashing pairs inside the buffer never overwrites a node still to be read |
| Merkle.ReduceLevel | src/stratifier.c:1431-1439 | One level is reduced in place, the odd copy staying within the slack of 32 bytes |
| Merkle.ReduceInPlace | src/stratifier.c:1422-1441 | The loop leaves exactly the branch of the transactions |
| Merkle.WbMerkleBinTxns | src/stratifier.c:1368-1441 | It succeeds exactly when every txid is 32 bytes of hex, and then yields the branch over the byte-reversed txids |
| Merkle.DisplayedRoot | src/stratifier.c:1393-1441 | For every list of transaction hashes, displayed backwards in hex as templates do, the branch is made and gives the root over coinbase and those hashes in the order they are computed |
| Shares.AcceptedIsNew | src/stratifier.c:6402-6487 | After any run, a share accepted for a job that is not stale was never accepted before |
| Shares.AcceptedOnce | src/stratifier.c:820-857 | In every run without late shares no (job id, hash) pair is accepted twice although shares are purged and aged, and the table holds no stale entry |
| Shares.RepeatedExactlyWhen | src/stratifier.c:6402-6440 | After any run, a pair accepted before is accepted again exactly when its job is kept but stale, the latency excuses it, time and difficulty are good, and the table has lost the hash |
| Shares.LateShareRepeats | src/stratifier.c:6416-6430 | In every state, a block change that keeps the job of an accepted share lets it be accepted again from a client whose latency excuses it |
| Shares.OneLateRepeat | src/stratifier.c:6416-6430 | The shortest run that accepts one pair twice |
| Shares.TableDecidesLikeHistory | src/stratifier.c:6192-6212 | In every run without late shares a good share is a duplicate exactly when its pair is in the history of all shares ever accepted, where a hash belongs to one job |
| Shares.TableDecidesByHash | src/stratifier.c:6192-6212 | Where it does not, it is a duplicate exactly when the hash was accepted for a job that is live and not stale |
| Shares.AddBaseSpares | src/stratifier.c:1087-1148 | A new template has a fresh id, is kept, and drops no workbase in use or made within ten minutes; two are always left |
| Shares.Jobs.PurgeShareHashtable | src/stratifier.c:820-837 | Exactly the shares of earlier jobs go |
| Shares.Jobs.AgeShareHashtable | src/stratifier.c:840-857 | Exactly the shares of one job go |
| Shares.Jobs.AgeWorkbases | src/stratifier.c:1121-1139 | The ageing loop, stopping below three workbases, drops the unused old ones with their shares |
| Shares.Jobs.AddBase | src/stratifier.c:1064-1152 | The whole new state: id, block change, kept workbases and kept shares |
| Shares.Jobs.GetWorkbase | src/stratifier.c:2097-2108 | Finds a job exactly when it is live, and counts the reader |
| Shares.Jobs.PutWorkbase | src/stratifier.c:2136-2141 | Gives the count back |
| Shares.Jobs.NewShare | src/stratifier.c:6192-6212 | A share is new exactly when its hash is not in the table, and is then entered |
| Shares.Jobs.ParseSubmit | src/stratifier.c:6363-6497 | The verdict in the order of the checks, lateness and difficulty included, and the state after it; the read count is as before |
| Shares.VerdictFromHistory | src/stratifier.c:6363-6480 | After any run the verdict is decided by the templates added: kept job, current block or a retirement less than the latency ago in milliseconds, a time from the template's to 7000 seconds ahead of it within 32 bits, the pool's minimum difficulty, and a new hash |
| Shares.RunFromBases | src/stratifier.c:1087-1119 | In every run jobs are the templates numbered one by one, each retired when the next one comes, and stale exactly when the previous block hash has changed since |
| Shares.AcceptedAreAnswered | src/stratifier.c:6192-6212 | The history of accepted shares is the submissions answered with acceptance, in order |
| Shares.AgedExactly | src/stratifier.c:1121-1139 | A new template drops exactly the unused workbases more than 600 seconds older than itself, oldest first, while at least three are left |
| Shares.InUseStays | src/stratifier.c:2097-2141 | A job taken and not put back stays through any run, and its count is how often it is in use |
| Uthash.PushBkt | src/uthash.h:774-793 | The element heads its bucket chain; every chain stays sound and counted |
| Uthash.DelInBkt | src/uthash.h:796-809 | Exactly the element leaves its chain; every chain stays sound and counted |
| Uthash.AppendList | src/uthash.h:281-287 | The element becomes the last of the doubly linked application order |
| Uthash.UnlinkList | src/uthash.h:453-480 | The application order without that element stays doubly linked |
| Uthash.MoveChain | src/uthash.h:853-876 | An old chain is moved into the new buckets, nothing lost and nothing else touched |
| Uthash.Redistribute | src/uthash.h:840-880 | Twice the buckets hold exactly the elements of the old ones, each in its own |
| Bitwise.MaskIsRemainder | src/uthash.h:433-436 | Masking by a power of two less one is taking the remainder |
| Uthash.EveryBucketReached | src/uthash.h:433-436 | With the power of two of buckets that every table has, the mask is a remainder and each bucket is one some hash goes to |
| Uthash.CountsAddUp | src/uthash.h:543-552 | The bucket counts add up to the number of elements |
| Uthash.Table.Find | src/uthash.h:752-770 | An element is returned exactly when one with the key is in the table |
| Uthash.Table.Expand | src/uthash.h:840-890 | Doubling the buckets keeps the invariant of HASH_FSCK and leaves the application order as it is |
| Uthash.Table.Add | src/uthash.h:399-418 | A fresh key is appended to the application order, with whatever expansion that triggers; the invariant of HASH_FSCK holds |
| Uthash.Table.Delete | src/uthash.h:453-480 | Exactly this element leaves the order and the buckets; the invariant of HASH_FSCK holds |
| Uthash.Table.Sort | src/uthash.h:897-979 | The application order becomes its stable sorting, buckets untouched, and the invariant of HASH_FSCK holds |
| Uthash.Table.constructor | src/uthash.h:523-570 | An empty table satisfies the invariant |
| MergeSort.MergeIsStable | src/uthash.h:924-952 | Merging two sorted runs keeps ties in order, those of the first run first |
| MergeSort.PassDoublesRuns | src/uthash.h:911-966 | One pass doubles the length of the sorted runs |
| MergeSort.StableSortingUnique | src/uthash.h:897-979 | Sorted with ties in their old order determines the result |
| MergeSort.MergeRuns | src/uthash.h:923-965 | The pointer loop puts the merge of two runs onto the output list, both links set, and finds the next run |
| MergeSort.SkipRun | src/uthash.h:914-922 | The second run starts after at most `insize` elements, or nowhere |
| MergeSort.Pass | src/uthash.h:908-970 | One pass over the list is one pass of the specification; at most one merge means the list was at most two runs |
| MergeSort.Sort | src/uthash.h:897-979 | For every list and total preorder it ends with the stable sorting, linked both ways, and its head and tail |
| Sha256.TransformBlock | src/sha2.c:133-163 | One block changes the state as section 6.2.2 of FIPS 180-2 prescribes |
| Sha256.InitialStateIsRoots | src/sha2.c:64-66 | The initial words are the first 32 bits of the fractional parts of the square roots of the first eight primes |
| Sha256.ConstantsAreRoots | src/sha2.c:68-84 | The round constants are those of the cube roots of the first sixty-four primes |
| Sha256.FunctionTables | src/sha2.h:43-53 | Choice and majority on every combination of bits, and where the sums of rotations and shifts take the outermost bits |
| Sha256.AbcSchedule | src/sha2.c:135-141 | The schedule of the standard's example "abc" goes on with the words of its appendix B.1 |
| Sha256.AbcRounds | src/sha2.c:147-158 | Its working variables after three rounds are those of appendix B.1 |
| Sha256.AbcSum | src/sha2.c:160-162 | And its last ones, summed into the state, are the digest of "abc" |
| Sha256.Transf | src/sha2.c:121-165 | Whole blocks are compressed in order |
| Sha256.Context.constructor | src/sha2.c:176-185 | A new context stands for the empty message |
| Sha256.Context.Update | src/sha2.c:187-219 | The context goes on standing for exactly the bytes consumed, fewer than 64 of them buffered |
| Sha256.Context.Final | src/sha2.c:221-244 | The digest is that of the bytes consumed with the padding the code makes |
| Sha256.StreamPaddingIsPadding | src/sha2.c:229-237 | That padding is the one of section 5.1.1 of FIPS 180-2 exactly for messages below 2^29 bytes |
| Sha256.PaddingIsStandard | src/sha2.c:229-237 | The standard padding is a one bit, zero bits and the 64-bit length, most significant byte first, to the next whole block |
| Sha256.DigestWords | src/sha2.c:241-243 | The digest is the words of the state in order, packed most significant byte first |
| Sha256.WordsBigEndian | src/sha2.c:42-56 | Packing and unpacking put the most significant byte first |
| Sha256.BlocksAbsorb | src/sha2.c:204-218 | Completing a block, taking whole blocks and keeping a rest is hashing everything but the rest |
| Sha256.HashPieces | src/sha2.c:176-244 | However a message below 2^29 bytes is cut into updates the digest is its SHA-256 |
| Sha256.Sha256Of | src/sha2.c:167-174 | The one-call form gives SHA-256 |
| Polymod.PolymodOf | src/cashaddr_simple.c:30-44 | The loop feeds the symbols one after the other into the 40-bit state |
| Polymod.StepInjective | src/cashaddr_simple.c:33-41 | A step is injective in the state |
| Polymod.StepLinear | src/cashaddr_simple.c:33-41 | A step is linear over GF(2) in state and symbol |
| Polymod.FeedInjective | src/cashaddr_simple.c:30-44 | So is feeding any number of symbols injective in the state |
| Polymod.FeedLinear | src/cashaddr_simple.c:30-44 | And linear |
| Polymod.StepTimesX | src/cashaddr_simple.c:33-41 | A step is linear over the field of 32 elements, for the five constants are one multiplied by powers of a generator |
| Polymod.FeedTimesX | src/cashaddr_simple.c:30-44 | And so is the checksum of words of any length |
| Polymod.BurstDetected | src/cashaddr_simple.c:161-185 | Two words differing only within eight consecutive symbols never leave the same checksum state |
| Polymod.ExactlyOneChecksum | src/cashaddr_simple.c:161-185 | For every state exactly one word of eight symbols is accepted as checksum |
| Regroup.PaddingIsZero | src/cashaddr_simple.c:70-73 | The test on the rest accepts fewer than five bits, all zero |
| Regroup.ConvertBits5To8 | src/cashaddr_simple.c:47-76 | Despite the 32-bit accumulator the bytes are the bits in order, and it accepts exactly when the rest is a zero padding |
| Regroup.RegroupExact | src/cashaddr_simple.c:46-76 | The zero-padded regroupings of a byte string are exactly its 8-to-5 conversion |
| Regroup.RegroupInjective | src/cashaddr_simple.c:46-76 | The conversion determines the bytes |
| CashAddr.CaseIsConsistent | src/cashaddr_simple.c:80-91 | It fails exactly on mixed case |
| CashAddr.SplitPrefix | src/cashaddr_simple.c:115-133 | The payload is what follows the expected prefix, or the whole text without one |
| CashAddr.SymbolsOf | src/cashaddr_simple.c:141-153 | The payload decodes exactly when all its characters are in the character set of either case |
| CashAddr.DecodeSymbols | src/cashaddr_simple.c:161-240 | Decodes exactly the checksummed encodings of a 20-byte hash with a P2PKH or P2SH version byte |
| CashAddr.CashaddrDecodeChecked | src/cashaddr_simple.c:105-241 | Returns hash and type for every address of the expected network, and for no other text that its table has entries for |
| CashAddr.AddressUnambiguous | src/cashaddr_simple.c:105-241 | An address has one version byte and one hash |
| CashAddr.EncodedIsAddress | src/cashaddr_simple.c:93-104 | The encoding of a hash is an address of it, with or without prefix and in upper case |
| KnownAddresses.MinerAddress | POOL_FEE.md:66 | The miner's address of the documentation has characters of the set only and passes the checksum of the main network |
| KnownAddresses.PoolAddress | POOL_FEE.md:67 | So does the pool's address |
| CashAddr.NoTwoNetworks | src/cashaddr_simple.c:161-185 | No payload of whatever length checksums under two of bitcoincash, bchtest and bchreg |
| CashAddr.BareAddressOfOneNetwork | src/cashaddr_simple.h:16-20 | A text without prefix is not an address of two networks |
| CashAddr.BurstRejected | src/cashaddr_simple.c:161-185 | Changing up to eight consecutive characters of an address never gives another one |
| Base58.MulAdd | src/libckpool.c:1760-1767 | The carry loop multiplies the big-endian buffer by 58 and adds the digit; the carry is the overflow |
| Base58.B58DecodeStrict | src/libckpool.c:1745-1770 | It succeeds exactly for 1 to 100 alphabet characters of a value below 2^200, and then leaves that value |
| KnownAddresses.LegacyAddress | test/addrclassify.c:391 | The legacy address of the tests has the value of its version byte, hash and checksum |
| Base58.LegacyUnambiguous | src/libckpool.c:1776-1803 | A Base58Check text has one version byte and one hash |
| Base58.EncodeLegacyAddress | api/ckpool_api_server.go:1295-1323 | The Go encoder yields a text the strict decoder reads as version 0 and that hash, and the empty text for another length |
| Address.ScriptsTellHashes | src/cashaddr_simple.c:251-271 | A payout script determines kind and hash |
| Address.StandardScripts | src/cashaddr_simple.c:251-271 | What is built are the standard P2PKH and P2SH scripts byte by byte, and nothing else is one with that hash |
| Address.LegacyVersions | src/libckpool.c:1788-1800 | The version bytes are 0 and 5 on the main network and 111 and 196 on the two test networks |
| Address.IsCashaddrShaped | src/libckpool.c:1722-1734 | Shaped means a known prefix, or 42 characters without a colon |
| Address.ClassifyLegacy | src/libckpool.c:1776-1803 | Legacy kinds are found exactly for Base58Check texts of the network |
| Address.ClassifyAddress | src/libckpool.c:1805-1820 | The kind and hash of every address of either form, and no kind for another text that the table has entries for |
| Address.AddressToScript | src/libckpool.c:1822-1838 | The script of every address, and none for another text that the table has entries for |
| Address.OnePayee | src/libckpool.c:1805-1838 | An address pays one hash |
| Address.EncodedLegacyPays | api/ckpool_api_server.go:1295-1323 | What the Go encoder yields pays that hash on the main network |
| Address.TwoFormsOneScript | src/libckpool.c:1822-1838 | Two addresses of whatever form and network get the same script exactly when they pay the same hash in the same way |
| Hex.Bin2Hex | src/libckpool.c:1500-1512 | The text is the lower-case hex of the bytes |
| Hex.ValidHex | src/libckpool.c:1549-1570 | True exactly for a non-empty even number of hex digits |
| Hex.Hex2Bin | src/libckpool.c:1574-1607 | True exactly for the hex of `len` bytes; otherwise it stops at the first bad pair |
| Hex.DecodedNumeral | src/libckpool.c:1574-1607 | Hex texts of either letter case are the hexadecimal numerals of what their bytes read, most significant byte first |
| Coinbase.SerNumber | src/libckpool.c:1858-1874 | The length byte and bytes stored, before and after which nothing that counts is touched |
| Coinbase.SerValue | src/libckpool.c:1858-1874 | The bytes say the number; of a negative one only the lowest byte is left |
| Coinbase.SerRoundTrip | src/libckpool.c:1858-1886 | `get_sernumber` returns the number exactly when it is not negative |
| Coinbase.AssembledIsSerialized | src/stratifier.c:549-674 | First part, extranonces and second part with a payout script are the wire form of the transaction, its script length exact |
| Coinbase.IsCoinbase | src/stratifier.c:40 | The wire form is that of a coinbase: version 1, one final input that spends nothing, no lock time |
| Coinbase.ScriptPushes | src/stratifier.c:549-600 | Read as a script the input is the pushes of height, flags, time, nanoseconds, extranonces and signature, numbers in their shortest form that is not negative |
| Coinbase.OutputsSumExactly | src/stratifier.c:610-660 | On the fee, dust and no-fee paths the outputs sum to the block value; a fee output is at least 546, and at most the other for any value below 2^51 |
| Coinbase.FeeIsPercent | src/stratifier.c:608-639 | The fee output is the configured part of the block value to within 2^-51 of it and one satoshi; there is one exactly when one is configured and it is not below 546 |
| Coinbase.HalfAtMost | src/stratifier.c:613-616 | The fee clamped to half stays within a 2^-52th of the value of it through three roundings to `double` |
| CoinbaseBuild.Workbase.GenerateCoinbase | src/stratifier.c:535-681 | The buffers written by offset hold the template, with the pool script outside solo mode, and the texts are their hex |
| CoinbaseBuild.Workbase.BuildCoinb1 | src/stratifier.c:549-606 | The first part, its script length filled in last |
| CoinbaseBuild.Workbase.BuildCoinb2 | src/stratifier.c:586-639 | The second part and the fee decision |
| CoinbaseBuild.Workbase.BuildCoinb3 | src/stratifier.c:643-674 | The fee output and lock time; the fee is switched off only when none is configured |
| CoinbaseBuild.Workbase.AppendScript | src/stratifier.c:676-688 | Outside solo mode the pool script and the third part follow the second |
| CoinbaseBuild.Workbase.GenerateUserwb | src/stratifier.c:1021-1042 | A user without one gets the same bytes with the own script, and nobody else anything |
| CoinbaseBuild.Workbase.UserCoinb2 | src/stratifier.c:6066-6105 | What follows the extranonces: the user workbase, or the pool script in the same place |
| CoinbaseBuild.Workbase.SubmittedCoinbase | src/stratifier.c:6123-6142 | The coinbase hashed for a submission fits its 1024 bytes and is those pieces in order |
| CoinbaseBuild.Workbase.Notify | src/stratifier.c:6605-6622 | A notify carries the hex of the first part and of what follows the extranonces for the user, and fails exactly for a solo user without one |
| CoinbaseBuild.Workbase.NotifyAgrees | src/stratifier.c:6658-6684 | Decoding the texts of a notify with the extranonces between them gives the very bytes the pool hashes |
| CoinbaseParse.VarintReadBack | api/ckpool_api_server.go:1018-1052 | Every number of 64 bits is read back from its compact-size form wherever that stands, and from less of it nothing |
| CoinbaseParse.BlockHeight | api/ckpool_api_server.go:1168-1192 | The loop reads the pushed number least significant byte first |
| CoinbaseParse.ParseCoinbaseOutputs | api/ckpool_api_server.go:1202-1285 | The outputs found are described one by one with their total, and exactly the first largest payout is labelled miner |
| CoinbaseParse.LabelMiner | api/ckpool_api_server.go:1268-1282 | The search finds the first of the largest outputs that are not OP_RETURN |
| CoinbaseRoundTrip.ScriptRead | api/ckpool_api_server.go:1070-1104 | A whole input gives exactly its script and the offset after it |
| CoinbaseRoundTrip.CutScriptRead | api/ckpool_api_server.go:1090-1099 | An input cut off in its script gives what there is |
| CoinbaseRoundTrip.OutputsRead | api/ckpool_api_server.go:1224-1266 | Serialized outputs are read back, values and scripts |
| CoinbaseRoundTrip.SerializedRead | api/ckpool_api_server.go:1202-1266 | A serialized coinbase gives its script and outputs |
| CoinbaseRoundTrip.HeightReadBack | api/ckpool_api_server.go:1168-1192 | The height read from the built coinbase, or from its first part alone, is the one put in exactly when it is positive |
| CoinbaseRoundTrip.OutputsReadBack | api/ckpool_api_server.go:1202-1266 | The outputs read from the built coinbase are the template's and total exactly the block value |
| CoinbaseRoundTrip.MinerIsFirst | api/ckpool_api_server.go:1268-1282 | With the fee clamped to half, the output labelled miner is the first, with the address of the script it pays |
| Header.Swap256 | src/libckpool.h:102-115 | The words come out in the opposite order |
| Header.Bswap256 | src/libckpool.h:117-130 | The whole is reversed |
| Header.Flip | src/libckpool.h:132-150 | Every word comes out with its bytes reversed |
| Header.SwapFlipReverses | src/libckpool.h:102-140 | Word order and byte order reversed is full reversal, either way round |
| Header.FlipTwice | src/libckpool.h:132-150 | Flipping twice changes nothing |
| Header.MaskOnlyWhereAllowed | src/stratifier.c:6342-6351 | A mask passes exactly when it can change no bit of any version outside the pool's mask |
| Header.GbtPrevhash | src/bitcoin.c:166-168 | The previous hash is sent with its words in the opposite order |
| Header.LastSwapHash | src/stratifier.c:1093-1101 | Swapped again on a new block, the hash kept for comparison is the one bitcoind displays |
| Header.GenerateHeader | src/stratifier.c:766-775 | The decoded text holds the fields of the template |
| Header.MakeTemplate | src/bitcoin.c:166-187 | A block template becomes the header template of its fields |
| Header.CanonicalTurned | src/stratifier.c:6151-6180 | Every word of the filled-in template turned round is the canonical header |
| Header.SubmittedHeader | src/stratifier.c:6151-6180 | The 80 bytes hashed for a share are the canonical header of template, folded root, time, nonce and or-ed version; a nonce text that is the numeral of v ends it with v, little-endian |
| Header.HashedHeader | src/stratifier.c:6151-6180 | From template texts and submission: version, time, target and nonce as little-endian numbers, whose texts are hexadecimal numerals, and both hashes as they are computed |
| Header.CanonicalFields | src/stratifier.c:6151-6180 | The fields of the canonical header by their places |
| Utlist.Append | src/utlist.h:522-534 | The element becomes the last, reached from the head backwards |
| Utlist.Concat | src/utlist.h:539-552 | The second list follows the first, either of which may be empty |
| Utlist.Delete | src/utlist.h:557-573 | Exactly this element leaves, be it the only one, the first, the last or in the middle |
| Utlist.DeleteWhere | src/connector.c:450-462 | Deleting while iterating with the next element saved removes exactly the elements asked for and keeps the others in order |
| Submission.FoldBranch | src/stratifier.c:6144-6150 | The loop folds the coinbase hash through the branch |
| Submission.FittedDecodes | src/stratifier.c:6380-6392 | Of a nonce2 that is too long the first bytes count; one that is too short is followed by zero bytes |
| Submission.SubmissionDiff | src/stratifier.c:6107-6190 | From what a miner submits: the coinbase hashed is the one it was sent, and the header hashed is canonical with the Merkle root of that coinbase and all transactions |
| Connector.RunKeeps | src/connector.c:188-251 | Every reachable state of any schedule satisfies the connector's invariant |
| Connector.StructureAccounted | src/connector.c:435-464 | A structure is on exactly one of live table, dead list and recycled list unless an accept to be retried lost it, and its count is one if live plus pending sends plus references held |
| Connector.RecycledUnused | src/connector.c:447-462 | A structure gives up its id only in a cull at count zero, with no message pending and no reference held |
| Connector.SendsPointAtTheirClient | src/connector.c:803-808 | A pending message points at the structure of the very client it was queued for |
| Connector.WrittenInOrder | src/connector.c:753-801 | For every schedule the bytes written to a client are a prefix of the messages that callers queued for its id, in order; of a live client the rest is what remains |
| Connector.MinuteToUnblock | src/connector.c:774-785 | After any run, a write that takes nothing leaves the client connected exactly when its socket has not blocked for sixty seconds since it last took something |
| Connector.IdsNeverReused | src/connector.c:1647-1649 | Ids are given out one by one from the number of servers on, so none is reused or a server index |
| Connector.RegistrationDecides | src/connector.c:348-354 | After any run, an accept keeps the invariant exactly when epoll takes the client; if it does not, the first thread that looks the client up and drops it can see it recycled while holding a reference |
| Connector.DropAllEmpties | src/connector.c:466-475 | Dropping all clients empties the live table |
| ConnectorData.Cdata.AcceptClient | src/connector.c:213-357 | A recycled or new structure goes live with the next id and the reference of its epoll entry, which it lacks when the registration fails; after a fatal error it is put back and after a recoverable one it is on no list |
| ConnectorData.Cdata.RecruitClient | src/connector.c:213-236 | The first recycled structure, or a new one |
| ConnectorData.Cdata.RefClientById | src/connector.c:596-611 | A reference is taken exactly when a live client has the id |
| ConnectorData.Cdata.DropClient | src/connector.c:359-377 | A client is dropped once: live table to dead list, one reference less |
| ConnectorData.Cdata.CullDead | src/connector.c:447-462 | The loop recycles exactly the dead structures at count zero, blank, in order |
| ConnectorData.Cdata.InvalidateClient | src/connector.c:435-464 | Dropping and culling |
| ConnectorData.Cdata.DropAllClients | src/connector.c:466-475 | Every live client is dropped in order |
| ConnectorData.Cdata.QueueSend | src/connector.c:1042-1051 | The caller's reference goes to a new message with exactly its bytes at the end of the queue |
| ConnectorData.Cdata.WriteOut | src/connector.c:774-798 | The write loop, for every outcome of its writes, ends as the steps say |
| ConnectorData.Cdata.SendSenderSend | src/connector.c:753-801 | One visit of a message, with whatever its writes return and a client that has blocked for a minute dropped, and whether it is finished with |
| ConnectorData.AttemptIsRun | src/connector.c:774-798 | A visit is a run of steps, so the invariant covers it |
| ConnectorData.NothingLeaks | src/connector.c:435-475 | From every reachable state between two messages with no reference held, dropping all clients, two passes of the sender and a cull leave no message and recycle every structure |
| Lines.JoinedLines | src/ckpool.c:623-683 | A stream is its lines and what follows the last of them |
| Lines.LinesConcat | src/ckpool.c:623-683 | Of what came before only the tail matters for what comes later |
| SocketLines.Connsock.ClearBufline | src/ckpool.c:543-561 | The pending bytes move to the front unchanged |
| SocketLines.Connsock.AddBuflen | src/ckpool.c:563-589 | What is received is appended, in a larger buffer when needed |
| SocketLines.Connsock.RecvAvailable | src/ckpool.c:593-607 | All that is there is appended |
| SocketLines.Connsock.ReadSocketLine | src/ckpool.c:614-683 | Lines handed out and pending bytes are always the stream received; a timeout loses nothing and leaves no complete line behind |
| Lines.HandedOutInOrder | src/ckpool.c:614-683 | The lines handed out are the first lines of the stream however it was cut |
| ClientLines.LocalStream | src/connector.c:519-593 | Of a stream of any length, however cut up: if what follows a line sways the parser on none up to the first that is no message, exactly the messages of the lines before that one are delivered, and the client stays exactly when there is none and the rest is not too long |
| ClientLines.LengthLimits | src/connector.c:521-556 | A line of 1024 bytes or more disconnects the client, and so do more than 1024 bytes without a newline |
| ClientLines.CuttingIrrelevantExactly | src/connector.c:541-557 | For streams of up to 1024 bytes the cutting is irrelevant exactly for parsers that what follows a line never sways |
| ClientLines.CutsDiffer | src/connector.c:541-557 | Where it does sway the parser, two cuttings of one stream deliver different messages |
| ClientLines.SpreadObject | src/connector.c:541-557 | An object on two lines is delivered from one read and not from two |
| ClientLines.DeadStaysDead | src/connector.c:521-593 | After the line that disconnects a client nothing it sent makes a difference |
| ClientLines.ClientBuffer.Read | src/connector.c:530-540 | A read lands behind what the buffer holds; what lay further on stays |
| ClientLines.ClientBuffer.MoveDown | src/connector.c:586-589 | The rest moves to the front with a zero behind it |
| ClientLines.ClientBuffer.HandOnLines | src/connector.c:539-592 | The loop over the lines in the buffer, each handed to the parser with all that follows it up to a zero |
| ClientLines.ClientBuffer.ParseClientMsg | src/connector.c:519-593 | The function ends as its specification says, for whatever its reads give |
| Enonce.EnoncesUnique | src/stratifier.c:4745-4757 | In every run of connects, subscribes, resumes, drops and expiries no two live clients or saved sessions share an extranonce |
| Enonce.ResumedEnonce | src/stratifier.c:4948-4957 | A dropped client that comes back within 600 seconds gets its extranonce again, whatever happened in between, and nobody had it in the meantime |
| Enonce.DropSaves | src/stratifier.c:2318-2347 | A drop keeps exactly the sessions at most 600 seconds old, and adds none but that of an authorised client with an extranonce |
| Enonce.EnonceStringsDiffer | src/stratifier.c:4704-4713 | The n-byte strings of two extranonces are equal exactly when they differ by a multiple of 256^n |
| Enonce.Sdata.DisconnectedSessionidExists | src/stratifier.c:3422-3444 | The session is taken off the list and its extranonce returned, or 0 |
| Enonce.Sdata.ParseSubscribe | src/stratifier.c:4938-4965 | The extranonce of the session named, or the next of the counter |
| Enonce.Sdata.DisconnectSession | src/stratifier.c:2318-2347 | Sessions older than 600 seconds go and an authorised client's is saved |
| Enonce.Sdata.DropClient | src/stratifier.c:3558-3585 | A client is dropped once, its session saved |
| Enonce.Sdata.FillEnonce1Data | src/stratifier.c:4704-4713 | The text sent is the hex of the first bytes of the number |
| Cklock.RunKeeps | src/libckpool.c:334-372 | In every run of any number of threads the two locks are held by the threads whose code says so |
| Cklock.WriterAlone | src/libckpool.c:343-347 | A writer is never admitted beside any other holder |
| Cklock.NoNewReaders | src/libckpool.c:334-347 | Once a writer has the mutex no new reader enters |
| Cklock.NoWriterInWindow | src/libckpool.c:350-355 | From the write lock through the downgrade to its read unlock no other writer runs |
| Cklock.DataSurvivesDowngrade | src/libckpool.c:349-355 | What a writer stored is still there when it reads after the downgrade, whatever the others do |
| Cklock.DowngradeEndsReading | src/libckpool.c:350-355 | A downgrade ends with the read lock and without the mutex, whatever other threads do between its calls, none of which waits |
| Cklock.UnlocksEndFree | src/libckpool.c:363-372 | Either unlock ends with nothing held |
| Cklock.ActionsNeedTheLock | src/libckpool.c:334-372 | Only a holder of the write lock stores, unlocks it or downgrades, and only a reader without the mutex gives up the read lock |
| Cklock.FreeLockIsTaken | src/libckpool.c:335-347 | Undisturbed, a call on a free lock ends with the lock |
| Cklock.NoDeadlock | src/libckpool.c:334-372 | Unless the intermediate lock is kept some thread inside the lock functions can move on |
| Cklock.IntermediateBlocks | src/libckpool.c:357-361 | A thread left with the intermediate lock keeps the mutex for good |

## Left out

- Sockets, epoll, ZMQ, calls to `bitcoind`, JSON, logging, configuration and signals: their results are parameters. The JSON parser is any function of the C string it is given.
- Proxy, node, passthrough, redirector and trusted-remote modes, with `generator.c` and the growing buffer of remote clients.
- Difficulties: the difficulty of a share is an arbitrary real number, which is compared with the pool's minimum.
- Worker, user and vardiff statistics, block submission (`process_block`) and transaction tables (`add_txn`, `update_txns`).
- Witness commitments: `insert_witness` is always false (`src/stratifier.c:1482`).
- Missing `data` or `txid` members of a template's transactions; every transaction is taken to have a txid text.
- Shares.Jobs.AddBase: one atomic step, although the code releases its lock while it ages shares; a submission is atomic too, since it enters the share after it has put the workbase back.
- Shares.Jobs.PutWorkbase: requires that the job was taken, as every caller has; the code does not check.
- Connector.RunKeeps: over runs in which epoll takes every client accepted (`Connector.RegistrationDecides`).
- Connector.WrittenInOrder: sockets are named by their client, not by descriptors. The sender reads a client's descriptor without the lock, so that a descriptor closed and opened again in between is not part of this model.
- ConnectorData.Cdata.SendSenderSend: enlarging the send buffer is left out.
- The connector's lists of messages, dead and recycled clients are sequences in its model; their pointers are the subject of `Utlist.dfy`. The singly linked and circular lists of `utlist.h` are unused.
- ClientLines.CuttingIrrelevantExactly: exact for streams of up to 1024 bytes; whether a longer one can leave bytes in the buffer that sway the parser depends on which lines the parser takes before.
- ClientLines.ClientBuffer.HandOnLines: a message of a client that another thread has dropped is discarded by the code; here it is handed on.
- Uthash.Table.Add: allocation always succeeds and the element's key is fixed when it is made; HASH_BLOOM, HASH_SELECT, the in-order adds and replacing an existing key are not modelled.
- Sha256.Context.Update: for messages of up to 2^31 bytes; beyond, the block offset `i << 6` overflows its `int` (`src/sha2.c:132-133`).
- CashAddr.CashaddrDecodeChecked: a payload with bytes above 127 is looked up out of bounds, past the 128 entries of the reverse table (`src/cashaddr_simple.c:147`); what it then returns is not stated, except that such a text is no address. The size bits of the version byte are not checked by the code, so eight version bytes count as each of the two types.
- Base58.B58DecodeStrict: the number of leading '1's is not compared with the leading zero bytes, as the code does not, so several texts can stand for one value.
- Coinbase.AssembledIsSerialized: for the sizes the fixed buffers are made for; flags of 140 or more characters would not fit `coinb1bin`. The fee is any number that three roundings to `double` can make of the exact product.
- CoinbaseRoundTrip.OutputsReadBack: for block values below 2^63, which Go's `int64` can hold.
- Enonce.EnoncesUnique: as long as the 64-bit counter does not wrap; `drop_allclients` is not modelled.
- Cklock.NoDeadlock: a lock call waits for as long as it takes; the code gives up and quits after six waits of ten seconds.
- Order among waiting threads: the model lets any of them go next, so nothing is said about fairness.
- The SIMD and assembly variants of SHA-256, the Go cache, rate limiter and HTTP handlers.
