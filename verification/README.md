# Models of a blockchain indexer and its libraries

Dafny models of seven parts of the JellyfishSDK repository, with proofs about them. `dafny verify dfyconfig.toml`
checks all of it.

| files | what they model |
|---|---|
| `BlockTree`, `IndexProtocol`, `IndexSafety`, `IndexTheorems`, `IndexStops`, `IndexReach`, `BlockProvider` | the indexer that follows the node's best chain and recovers from failures |
| `RichListProtocol`, `RichListSafety`, `RichListTheorems`, `RichListProgress`, `RichList` | the rich list's crawler and recalculation |
| `Bytes`, `VarInt`, `CompactSize`, `Composer`, `Transactions`, `Blocks`, `Layouts`, `TransactionBuffers` | the binary formats, by position, on values and in place on a buffer |
| `Signing`, `Preimages` | what a signature covers, and the bytes that are signed |
| `Emission` | the subsidy tables and the unrounded recurrence |
| `CacheProtocol`, `Caches` | the double-checked locking cache |
| `PoolGraph`, `SimplePaths`, `SwapReturns`, `PathFinding` | swap paths |
| `Paging`, `Remap`, `Der`, `SortKeys` | cursor paging, precision remap, DER integers, hexadecimal sort keys |

The indexer, the rich list and the cache are step systems: one step is what runs between two `await`s, and a run is any
sequence of steps, so every interleaving, failure and reorganisation is covered. Beside each stands a class whose methods
follow the program. For the indexer those methods are shown to take runs of the step system. Loops over buffers, tables
and graphs are methods proved against a specification function, about which the properties are proved.

## Where the code does not do what is promised

Each has a lemma with the exact condition or with an input.

- A sub-indexer can report a missing row in the middle of a removal (`apps/whale-api/src/module.indexer/model/script.unspent.ts:46-53`).
  The status becomes REINDEX, and a partly removed block is left behind: `IndexTheorems.NotFoundContract`,
  `IndexReach.HalfRemovedIsReached`.
- The genesis block is indexed without a status record: `IndexTheorems.GenesisContract`,
  `IndexReach.HalfWrittenGenesisIsReached`.
- A `start` during a `stop` lets a loop begin after `stop` has resolved: `IndexTheorems.StopTheorem`.
- A balance read while the node is ahead of the crawler, from a block that is dropped before it is crawled, stays in the
  rich list: `RichListTheorems.ReadIsFreshIff`, `RichListTheorems.StaleForGood`, `RichListTheorems.StaleRunExists`.
- The lengths of transaction ids are not checked when they are hashed for signing: `Signing.PreimageTheorem`,
  `Signing.OutpointsSplitIff`, `Signing.UncheckedTxidsCollide`.
- A negative number is written as a variable-length integer and reads back as another one: `VarInt.RoundTripsIff`.
- The comment of `readVarInt` allows nine bytes; a safe integer never needs more than eight: `VarInt.LengthBreakpoints`.
- Length prefixes, prices and DER signatures are accepted in forms that are never written: `CompactSize.ReadIsCanonicalIff`,
  `Composer.MaxPriceIsCanonicalIff`, `Der.EncodeUndoesDecodeIff`.
- The supply lookup is off by a block for an Eunos height of zero: `Emission.SupplyIsTheSumIff`. The unrounded version
  answers the base subsidy below the Eunos height, where blocks pay 200: `Emission.VersionsAgreeIff`.
- After an expiry the outer write of the cache can put an old value over a newer one:
  `CacheProtocol.ExpiryIsHarmlessIff`, `CacheProtocol.ExpiryPutsAnOldValueBack`.
- The plain return shown with a best path can be another path's, and no path is shown when none returns anything after
  fees: `SwapReturns.OwnReturnIff`, `SwapReturns.SuchPathsExist`, `SwapReturns.PathChosenIff`.
- A cursor that no longer exists makes the account history recurse for ever: `Paging.LoopEndsIff`. A page size above 200,
  which the validation of queries cuts (`apps/whale-api/src/module.api/_core/api.query.ts:18`), would end after the first
  page: `Paging.PagingIsCompleteIff`. The list pagination loses everything behind the first item with a page size of 1:
  `Paging.FakePagingIsCompleteIff`.
- A text under a key that the precision tree gives a tree throws: `Remap.ThrowsIff`.

## Model

| member | source | states |
|---|---|---|
| BlockTree.ChainsPartForGood | apps/whale-api/src/module.indexer/rpc.block.provider.ts:74-98 | Two chains of one block tree agree on a first part and on no height behind it. |
| IndexSafety.AdvanceKeeps | apps/whale-api/src/module.indexer/rpc.block.provider.ts:108-162 | Whatever way a pending call of a loop ends, the invariant of the database and the loop holds after it, for an index that grew or lost its tip. |
| IndexSafety.StepKeeps | apps/whale-api/src/module.indexer/rpc.block.provider.ts:31-162 | Every step of the system (a call ends or throws, a tick, start, stop, a crash, a reorganisation) keeps the invariant. |
| IndexSafety.RunKeeps | apps/whale-api/src/module.indexer/rpc.block.provider.ts:31-162 | So does every run from a state that has it. |
| IndexTheorems.RecoveryTheorem | apps/whale-api/src/module.indexer/rpc.block.provider.ts:118-162 | In every state of every run a partly written or partly removed block is the one the status record names with INDEXING, INVALIDATING or ERROR (or the genesis block while it is written), and `synchronize` is never inside its calls while one exists. |
| IndexTheorems.ChainTheorem | apps/whale-api/src/module.indexer/rpc.block.provider.ts:74-98 | In every state of every run the fully indexed blocks are exactly the blocks of one hash-linked chain with contiguous heights from genesis, although the node may reorganise between any two calls. |
| IndexTheorems.OnlyTheTipIsRemoved | apps/whale-api/src/module.indexer/rpc.block.provider.ts:91-96 | While rows of a block are deleted, every other stored block is below it. |
| IndexTheorems.NotFoundContract | apps/whale-api/src/module.indexer/rpc.block.provider.ts:154-156 | After a not-found error during a removal the program stays safe for ever if and only if the block is not partly stored at that moment. |
| IndexTheorems.GenesisContract | apps/whale-api/src/module.indexer/rpc.block.provider.ts:108-113 | After a failed write of the genesis block, which has no status record, the program stays safe for ever if and only if the genesis block is not left partly stored. |
| IndexReach.HalfRemovedIsReached | apps/whale-api/src/module.indexer/rpc.block.provider.ts:147-162 | From the start a run leads to a removal of a half written block, from where a not-found error makes the program unsafe. |
| IndexReach.HalfWrittenGenesisIsReached | apps/whale-api/src/module.indexer/rpc.block.provider.ts:108-113 | From the start a run leads to a half written genesis block, from where a failed write makes the program unsafe. |
| IndexTheorems.OneLoopTheorem | apps/whale-api/src/module.indexer/rpc.block.provider.ts:31-55 | In every run at most one loop is active, and `indexing` tells exactly whether one is, whatever fails. |
| IndexTheorems.RunningIff | apps/whale-api/src/module.indexer/rpc.block.provider.ts:31-66 | `running` is true after a run if and only if the last of the events that change it was `start`, or there was none and it was true before. |
| IndexTheorems.StoppedIff | apps/whale-api/src/module.indexer/rpc.block.provider.ts:31-66 | In the state in which `stop` resolves, no loop is active until `start` is called again if and only if `running` is false. |
| IndexTheorems.StopTheorem | apps/whale-api/src/module.indexer/rpc.block.provider.ts:57-66 | When `stop` resolves, no loop is active until `start` is called again if and only if the last start, stop or crash that came while it waited, if any, was not `start`. |
| IndexTheorems.StaysStopped | apps/whale-api/src/module.indexer/rpc.block.provider.ts:31-38 | A stopped program without a loop stays so in every run without `start`. |
| IndexStops.NoFurtherPass | apps/whale-api/src/module.indexer/rpc.block.provider.ts:41-45 | Once `stop` is called, a loop that is past the start of its pass never starts another one, in any run without `start`. |
| IndexStops.PassEnds | apps/whale-api/src/module.indexer/rpc.block.provider.ts:41-54 | Every call that ends after `stop` brings the loop closer to its end: the calls it still makes are counted, and when as many have ended no loop is active and `indexing` is false. |
| IndexStops.StopResolves | apps/whale-api/src/module.indexer/rpc.block.provider.ts:57-66 | Whatever run comes before `stop`, at most 14 calls and two for every row of the largest block end before the loop is over; the count is reached only with no loop active and `indexing` false, so the wait of `stop` ends. |
| IndexStops.CanGoOn | apps/whale-api/src/module.indexer/rpc.block.provider.ts:47-53 | Until then some call can end. |
| IndexStops.Largest | apps/whale-api/src/module.indexer/rpc.block.provider.ts:57-66 | There is a bound on the rows of the blocks that can be indexed, so there is one on the calls. |
| BlockProvider.DriveIsARun | apps/whale-api/src/module.indexer/rpc.block.provider.ts:40-54 | The calls the program makes are steps of the system, so the results about all runs are about the program. |
| BlockProvider.PassConverges | apps/whale-api/src/module.indexer/rpc.block.provider.ts:74-98 | Against a node that keeps its chain every push and every pop brings the index one block closer to that chain, and an index shorter than the chain does not stop before it is the chain. |
| BlockProvider.LoopSettles | apps/whale-api/src/module.indexer/rpc.block.provider.ts:40-54 | The passes, as `Pass` specifies them, end after as many as that distance, and the index is then the chain if and only if the chain was longer than the index or equal to it. |
| BlockProvider.RPCBlockProvider.Put | apps/whale-api/src/module.indexer/status.ts:24-31 | The one status record is replaced, or the call fails with or without having done so. |
| BlockProvider.RPCBlockProvider.IndexRows | apps/whale-api/src/module.indexer/model/_main.ts:50-55 | The raw block and then every row, or a failure at any of them; every call is a step of the system. |
| BlockProvider.RPCBlockProvider.Index | apps/whale-api/src/module.indexer/rpc.block.provider.ts:134-145 | Without an exception the block is on top of the index and needs no clean-up; with one some call failed, and the record is the old one, or names the block as INDEXING or ERROR, or as INDEXED with the block in place. |
| BlockProvider.RPCBlockProvider.InvalidateRows | apps/whale-api/src/module.indexer/model/_main.ts:57-65 | Every row of the block is deleted and no other, or a failure at any of them. |
| BlockProvider.RPCBlockProvider.Invalidate | apps/whale-api/src/module.indexer/rpc.block.provider.ts:147-162 | Without an exception the named block is gone and what was below it is the index. |
| BlockProvider.RPCBlockProvider.Cleanup | apps/whale-api/src/module.indexer/rpc.block.provider.ts:118-132 | Without an exception no block is partly stored and the chain below the named block is the index. |
| BlockProvider.RPCBlockProvider.IndexGenesis | apps/whale-api/src/module.indexer/rpc.block.provider.ts:108-113 | The index is the genesis block, or a call to the node failed; its writes succeed. |
| BlockProvider.RPCBlockProvider.Synchronize | apps/whale-api/src/module.indexer/rpc.block.provider.ts:74-98 | One pass does to the index what the specification `Pass` says (push, pop, genesis or stop), and ends with an exception only if a call fails. |
| BlockProvider.RPCBlockProvider.CycleOnce | apps/whale-api/src/module.indexer/rpc.block.provider.ts:47-53 | One round of the loop is a clean-up and a pass, or an exception that leaves the persisted data recoverable; there is none unless a call fails or the recorded block is not there to be read; its calls are a run of the step system. |
| BlockProvider.RPCBlockProvider.Cycle | apps/whale-api/src/module.indexer/rpc.block.provider.ts:31-55 | The loop ends. Without an exception the index is the chain it settles on; with one the data is recoverable, and some call of the run failed or the record found at the start named a block that is not there to be read and no longer does; in both cases the calls made are a run of the step system. |
| RichListSafety.StepKeeps | packages/rich-list-core/src/RichListCore.ts:53-92 | Every crawl step, recalculation step and reorganisation keeps the invariant, if a balance that is read is the one the crawled chain gives or its address is queued or waiting to be. |
| RichListSafety.HistoriesDiffer | packages/rich-list-core/src/RichListCore.ts:53-92 | Two chains that give an address different histories differ in a non-genesis block that parses to it. |
| RichListTheorems.StepKeepsShape | packages/rich-list-core/src/RichListCore.ts:53-92 | What is said of crawled blocks, their addresses and the queue holds after every step, whatever balances are read. |
| RichListTheorems.StalenessTheorem | packages/rich-list-core/src/RichListCore.ts:152-194 | In every run whose reads are fresh a stored balance that differs from the node's belongs to an address that is queued, received, in the block being processed, or touched by a non-genesis block of exactly one of the crawled chain and the node's chain. |
| RichListProgress.CrawlEnds | packages/rich-list-core/src/RichListCore.ts:53-92 | In the step system, however a recalculation is interleaved, a crawl against a node that keeps its chain ends with the chain it settles on: blocks that are off the node's chain are taken off, missing ones added, and the addresses of just those blocks are queued or already received. |
| RichListProgress.CrawlGetsCloser | packages/rich-list-core/src/RichListCore.ts:53-128 | Every step of the crawler brings the crawled chain closer to the node's or the pass closer to its end. |
| RichListProgress.CrawlTheorem | packages/rich-list-core/src/RichListCore.ts:53-92 | Steps of the crawler alone lead from its start to its end, and whenever they do the crawled chain and the queue are what `catchUp` specifies. |
| RichListProgress.CalculationEnds | packages/rich-list-core/src/RichListCore.ts:152-194 | However a crawl is interleaved, a recalculation against a node that keeps its chain stores the node's balances for just the addresses it received. |
| RichListProgress.CalculationTheorem | packages/rich-list-core/src/RichListCore.ts:152-176 | By itself it empties the queue and leaves the store as `calculateNext` specifies. |
| RichListProgress.CalculationComesToRest | packages/rich-list-core/src/RichListCore.ts:152-176 | From every state of a recalculation its own steps lead to its end. |
| RichListTheorems.AlwaysExplainedIff | packages/rich-list-core/src/RichListCore.ts:152-194 | From a state on, every difference stays so explained as long as reads are fresh if and only if each balance that is not going to be read again is the one the crawled chain gives. |
| RichListTheorems.ReadIsFreshIff | packages/rich-list-core/src/RichListCore.ts:178-194 | After any one read that remains so if and only if the read was fresh: the address is queued or waiting to be, or node and crawled chain give it the same balance. |
| RichListTheorems.StaleRun | packages/rich-list-core/src/RichListCore.ts:178-194 | A balance is read ahead of the crawler, and its block is dropped before it is crawled: a wrong balance is stored and nothing is queued or received. |
| RichListTheorems.StaleForGood | packages/rich-list-core/src/RichListCore.ts:178-194 | No run in which no block that touches the address is added or taken off changes what is stored for it. |
| RichListTheorems.StaleRunExists | packages/rich-list-core/src/RichListCore.ts:152-194 | Such a run from the start, in a world of two blocks and one address. |
| RichList.CrawlPass | packages/rich-list-core/src/RichListCore.ts:53-92 | One pass of the crawler adds or takes off one block, and moves the crawled chain towards the node's. |
| RichList.RichListCore.Start | packages/rich-list-core/src/RichListCore.ts:45-51 | A second start while a crawl is on changes nothing. |
| RichList.RichListCore.CatchUp | packages/rich-list-core/src/RichListCore.ts:53-92 | The crawl ends with the node's chain (if that is longer), and exactly the addresses of the blocks added or taken off are queued on top of those that were. |
| RichList.RichListCore.Push | packages/rich-list-core/src/RichListCore.ts:70-88 | A block is added, and its addresses are queued and recorded at its height. |
| RichList.RichListCore.Invalidate | packages/rich-list-core/src/RichListCore.ts:115-128 | The tip is taken off and its addresses are queued again. |
| RichList.RichListCore.Receive | packages/rich-list-core/src/RichListCore.ts:179-180 | At most `limit` queued addresses leave the queue, and none only if it is empty. |
| RichList.RichListCore.GetActiveAddressBalances | packages/rich-list-core/src/RichListCore.ts:178-194 | Both balances of every received address, as the node gives them. |
| RichList.RichListCore.CalculateNext | packages/rich-list-core/src/RichListCore.ts:152-176 | The queue is emptied and every address that was in it has the node's balances; when the crawler had caught up, every stored balance is the node's. |
| Bytes.SmartBuffer.ReadUInt | packages/jellyfish-buffer/src/Composer.ts:476-485 | A fixed-width little-endian number is read, or nothing when the buffer ends. |
| Bytes.SmartBuffer.ReadBytes | packages/jellyfish-buffer/src/Composer.ts:196-211 | As many bytes as asked for, or fewer at the end of the buffer. |
| VarInt.RoundTripsIff | packages/jellyfish-buffer/src/VarInt.ts:30-74 | What is written for a number reads back as the number, whatever bytes follow, if and only if it is not negative. |
| VarInt.WriteUndoesRead | packages/jellyfish-buffer/src/VarInt.ts:30-74 | Every well-formed byte sequence in range is the encoding of the number it reads as. |
| VarInt.ReadsWellFormed | packages/jellyfish-buffer/src/VarInt.ts:60-74 | Whatever is read was a well-formed sequence at the start of the bytes. |
| VarInt.OrderIsShortLex | packages/jellyfish-buffer/src/VarInt.ts:4-25 | One number is smaller than another if and only if its encoding is shorter, or as long and lexicographically smaller. |
| VarInt.LengthBreakpoints | packages/jellyfish-buffer/src/VarInt.ts:14 | One byte up to 127, two up to 16511, three up to 2113663, and at most eight for a safe integer. |
| VarInt.Write | packages/jellyfish-buffer/src/VarInt.ts:30-51 | The loops append exactly the encoding, or refuse a number that is too large and append nothing; a negative number is written too. |
| VarInt.Read | packages/jellyfish-buffer/src/VarInt.ts:60-74 | The loop reads exactly what the format says and stops behind it. |
| CompactSize.RoundTrip | packages/jellyfish-buffer/src/CompactSize.ts:7-58 | Reading undoes writing for every safe integer and any bytes behind. |
| CompactSize.ByteLengthIsLength | packages/jellyfish-buffer/src/CompactSize.ts:63-66 | `byteLength` is the length of what is written, and throws for the same numbers. |
| CompactSize.ReadIsCanonicalIff | packages/jellyfish-buffer/src/CompactSize.ts:41-58 | What was read is the writer's form if and only if it has the writer's length: the reader also takes longer forms. |
| CompactSize.ReadsTagged | packages/jellyfish-buffer/src/CompactSize.ts:41-51 | A number is read from every form of three or five bytes it fits into, little-endian behind the tag. |
| CompactSize.ReadsTagged64 | packages/jellyfish-buffer/src/CompactSize.ts:51-58 | So is every safe integer from nine bytes, low word first. |
| CompactSize.Write | packages/jellyfish-buffer/src/CompactSize.ts:7-34 | Appends exactly the encoding, or nothing when the number is refused. |
| CompactSize.Read | packages/jellyfish-buffer/src/CompactSize.ts:41-58 | Reads exactly what the format says and stops behind it. |
| Composer.AllRoundTrip | packages/jellyfish-buffer/src/Composer.ts:144-163 | An array of codes of known number reads back element by element and leaves what follows. |
| Composer.CountedRoundTrip | packages/jellyfish-buffer/src/Composer.ts:112-131 | The same for an array behind its length. |
| Composer.AllSplitOnce | packages/jellyfish-buffer/src/Composer.ts:144-163 | Equal concatenations of self-delimiting codes have equally many elements that read the same. |
| Composer.UInt64RoundTrip | packages/jellyfish-buffer/src/BigNumber.ts:11-29 | Two words of 32 bits, low one first, read back as the number. |
| Composer.MaxPriceRoundTrip | packages/jellyfish-buffer/src/Composer.ts:624-660 | A price of at most eight decimals reads back as itself, the largest one included. |
| Composer.MaxPriceIsCanonicalIff | packages/jellyfish-buffer/src/Composer.ts:624-660 | Two numbers read as a price are written back the same if and only if the second is below one whole and they are not the plain form of the largest price, or they are its own form. |
| Composer.HexReversedRoundTrip | packages/jellyfish-buffer/src/Composer.ts:286-300 | A fixed-length hash is written reversed and reads back in its own order. |
| Composer.SizedRoundTrip | packages/jellyfish-buffer/src/Composer.ts:404-416 | A byte string behind its length reads back and leaves what follows. |
| Transactions.VinLaw | packages/jellyfish-transaction/src/tx_composer.ts:86-96 | An input reads back as itself and leaves what follows. |
| Transactions.VoutLaw | packages/jellyfish-transaction/src/tx_composer.ts:104-156 | An output reads back under the layout of its transaction's version: exactly from version 4 on, without its token id before. |
| Transactions.WitnessLaw | packages/jellyfish-transaction/src/tx_composer.ts:254-290 | A witness reads back with every script. |
| Transactions.LegacyRoundTrip | packages/jellyfish-transaction/src/tx_composer.ts:33-45 | A legacy transaction reads back, up to the token ids its version does not store. |
| Transactions.SegWitRoundTrip | packages/jellyfish-transaction/src/tx_composer.ts:221-236 | A witness transaction with one witness per input reads back, up to the same. |
| Blocks.TxRoundTripsIff | packages/jellyfish-block/src/Block.ts:24-43 | A transaction of a block reads back as itself if and only if it is told apart (legacy with an input, or marker 0 with one witness per input) and loses no token id. |
| Blocks.HeaderRoundTrip | packages/jellyfish-block/src/BlockHeader.ts:21-33 | A header reads back as itself and leaves what follows. |
| Blocks.BlockRoundTrip | packages/jellyfish-block/src/Block.ts:20-46 | A block of transactions that are told apart, followed by any bytes, reads back up to unstored token ids and leaves those bytes. |
| Blocks.BlockRoundTripsIff | packages/jellyfish-block/src/Block.ts:20-46 | A block reads back exactly if and only if every transaction is told apart and loses no token id. |
| Layouts.SizeIff | packages/jellyfish-buffer/src/CompactSize.ts:7-34 | A length is written as just the bytes that have, by position, the tag for its range and its digits behind it. |
| Layouts.VinIff | packages/jellyfish-transaction/src/tx_composer.ts:86-96 | An input is written as just the bytes with the id, last byte first, at 0, the index at 32, the script behind its length at 36, and the sequence at the end, numbers little-endian digit by digit. |
| Layouts.VoutIff | packages/jellyfish-transaction/src/tx_composer.ts:104-156 | An output likewise: value at 0, the script behind its length at 8, and behind that the token id from version 4 on. |
| Layouts.LegacyIff | packages/jellyfish-transaction/src/tx_composer.ts:33-45 | A legacy transaction: version at 0, inputs behind their number at 4, outputs behind theirs, and the lock time. |
| Layouts.SegWitIff | packages/jellyfish-transaction/src/tx_composer.ts:221-236 | A witness transaction: the same with the marker at 4 and the flag at 5, and a witness for each ahead of the lock time. |
| Layouts.HeaderIff | packages/jellyfish-block/src/BlockHeader.ts:21-33 | A header: version, previous block, Merkle root, time, bits, stake modifier, height and minted blocks at 0, 4, 36, 68, 72, 76, 108 and 116, and the signature behind its length at 124; hashes last byte first. |
| Layouts.WrittenIffLaidOut | packages/jellyfish-block/src/Block.ts:20-46 | A block is written as some bytes if and only if those are laid out as the block, from the first to the last. |
| Layouts.TxWrittenIffLaidOut | packages/jellyfish-block/src/Block.ts:24-43 | So is a transaction, in the form its marker selects. |
| Layouts.LaidOutReads | packages/jellyfish-block/src/Block.ts:20-46 | Whatever starts with the layout of a block of transactions that are told apart is read as that block up to unstored token ids, and what is behind it is left. |
| Layouts.VinLaidOutReads | packages/jellyfish-transaction/src/tx_composer.ts:86-96 | Whatever starts with the layout of an input is read as that input. |
| Layouts.MaxPriceLayout | packages/jellyfish-buffer/src/Composer.ts:624-660 | A price is the whole part at 0 and the eight decimals at 8; the largest one is itself twice. |
| TransactionBuffers.ReadVin | packages/jellyfish-transaction/src/tx_composer.ts:86-96 | Reading the fields one by one off the buffer is what the format says. |
| TransactionBuffers.ReadVout | packages/jellyfish-transaction/src/tx_composer.ts:117-156 | The layout depends on the version read before. |
| TransactionBuffers.ReadVins | packages/jellyfish-buffer/src/Composer.ts:118-125 | The loop reads as many elements as the length says, or throws where one cannot be read. |
| TransactionBuffers.ReadWitnesses | packages/jellyfish-buffer/src/Composer.ts:151-157 | The loop reads as many witnesses as there are inputs. |
| TransactionBuffers.ReadLegacy | packages/jellyfish-transaction/src/tx_composer.ts:33-45 | A legacy transaction is read in place as the format says. |
| TransactionBuffers.ReadSegWit | packages/jellyfish-transaction/src/tx_composer.ts:221-236 | A witness transaction is read in place as the format says. |
| TransactionBuffers.ReadTx | packages/jellyfish-block/src/Block.ts:28-37 | The offset is kept, the marker read ahead and the offset set back; what is read then is what the format says. |
| TransactionBuffers.ReadHeader | packages/jellyfish-block/src/BlockHeader.ts:21-33 | A header is read in place as the format says. |
| TransactionBuffers.ReadBlock | packages/jellyfish-block/src/Block.ts:20-46 | A block is read in place as the format says, or refused where the format refuses it. |
| TransactionBuffers.WriteVin | packages/jellyfish-transaction/src/tx_composer.ts:86-96 | Writing the fields one by one appends the code of the input, or throws when a field does not fit. |
| TransactionBuffers.WriteVout | packages/jellyfish-transaction/src/tx_composer.ts:117-156 | The same for an output, by version. |
| TransactionBuffers.WriteVins | packages/jellyfish-buffer/src/Composer.ts:126-130 | The loop appends the length and the code of every element. |
| TransactionBuffers.WriteTx | packages/jellyfish-block/src/Block.ts:39-42 | The marker alone decides which form is written. |
| TransactionBuffers.WriteBlock | packages/jellyfish-block/src/Block.ts:20-46 | A block is written in place as the format says. |
| TransactionBuffers.WriteAndReadBlock | packages/jellyfish-block/src/Block.ts:20-46 | A block written behind all that was read comes back from the same buffer, unchanged exactly if every transaction is told apart and loses no token id. |
| Signing.ProgramInjective | packages/jellyfish-transaction/src/tx_segwit.ts:36-50 | The preimage layout determines each of its fields. |
| Preimages.ProgramLayout | packages/jellyfish-transaction/src/tx_segwit.ts:36-50 | The preimage is just the bytes with version, hash of the previous outputs, hash of the sequences, id and index of the outpoint at 0, 4, 36, 68 and 100, the script behind its length at 104, and then value, sequence, hash of the outputs, lock time and hash type, 52 bytes up to the end. |
| Preimages.PreimageLayout | packages/jellyfish-transaction-signature/src/tx_signature.ts:51-98 | Bytes are the preimage of an input if and only if they are so laid out with the transaction's own fields and the hashes of its outpoints, sequences and outputs, one behind the other. |
| Signing.PreimageTheorem | packages/jellyfish-transaction-signature/src/tx_signature.ts:155-169 | If the hash does not collide on the three inner preimages, two preimages are equal and their ids have the same lengths if and only if version, ordered outpoints, ordered sequences, outputs, lock time, signed outpoint with its sequence, script code and value are equal. |
| Signing.SignedHashTheorem | packages/jellyfish-transaction-signature/src/tx_signature.ts:190-195 | The same for the hash that is signed. |
| Signing.OutpointsSplitIff | packages/jellyfish-transaction-signature/src/tx_signature.ts:57-61 | Two lists of outpoints that are written the same are the same if and only if the lengths of their ids are. |
| Signing.LongTxidsHaveSameLengths | packages/jellyfish-transaction-signature/src/tx_signature.ts:57-61 | With ids of 32 bytes those lengths are always the same for equal preimages. |
| Signing.OutputsSplitOnce | packages/jellyfish-transaction-signature/src/tx_signature.ts:76-89 | Concatenated outputs split in one way only, up to token ids that are not stored. |
| Signing.UncheckedTxidsCollide | packages/jellyfish-transaction-signature/src/tx_signature.ts:57-61 | Lengths of ids are not checked here: two ids of other lengths that have 64 bytes together give another transaction the same preimage. |
| Signing.GuessedScriptIsPaidTo | packages/jellyfish-transaction-signature/src/tx_signature.ts:100-153 | Without a witness script one is guessed if and only if the output pays to the key's own hash, and it is, byte by byte, the script that pays to that hash; a given one is used. |
| Signing.HashPrevouts | packages/jellyfish-transaction-signature/src/tx_signature.ts:51-62 | The loop hashes the concatenated outpoints, or throws where an index does not fit. |
| Signing.HashSequence | packages/jellyfish-transaction-signature/src/tx_signature.ts:64-74 | The loop hashes the concatenated sequences. |
| Signing.HashOutputs | packages/jellyfish-transaction-signature/src/tx_signature.ts:76-89 | The loop hashes the concatenated outputs in the layout of the version. |
| Signing.SignInput | packages/jellyfish-transaction-signature/src/tx_signature.ts:188-210 | The witness of one input: its signature of the hashed preimage with the hash type behind it, and the public key. |
| Signing.Sign | packages/jellyfish-transaction-signature/src/tx_signature.ts:212-231 | One witness per input, in order, or an exception when a request or an input is refused. |
| Signing.SignedIff | packages/jellyfish-transaction-signature/src/tx_signature.ts:212-261 | Signing succeeds if and only if there are inputs, as many options, an allowed lock time, and every input can be signed. |
| Preimages.SignedLayout | packages/jellyfish-transaction-signature/src/tx_signature.ts:188-231 | A transaction is the signed one if and only if the request is allowed, it has marker 0 and flag 1 and the fields of the given one, and each witness is the signature of the hashed preimage with one more byte, 1, and then the key. |
| Signing.SignedReadsBack | packages/jellyfish-transaction-signature/src/tx_signature.ts:222-231 | What is signed is told apart from a legacy transaction, so it reads back. |
| Emission.ComputeBlockReductionSubsidies | packages/jellyfish-network/src/BlockSubsidy.ts:149-167 | The builder ends with the values of the recurrence up to the first zero; the one before is 60 satoshi. |
| Emission.TableDecreases | packages/jellyfish-network/src/BlockSubsidy.ts:149-167 | The table strictly decreases. |
| Emission.ComputeReductionSupplyMilestones | packages/jellyfish-network/src/BlockSubsidy.ts:128-147 | Each milestone is the supply before the first block of its reduction. |
| Emission.LookupInClosedForm | packages/jellyfish-network/src/BlockSubsidy.ts:114-126 | Milestone and remainder are the sum over every block since the Eunos height, past the end of the table too. |
| Emission.SupplyIsTheSumIff | packages/jellyfish-network/src/BlockSubsidy.ts:67-126 | The lookup is the sum of all block subsidies, less the burn from the Eunos height on, if and only if the Eunos height is at least 1. |
| Emission.BlockSubsidy.constructor | packages/jellyfish-network/src/BlockSubsidy.ts:52-57 | Both tables are built for the options. |
| Emission.BlockSubsidy.GetSupply | packages/jellyfish-network/src/BlockSubsidy.ts:67-75 | The sum for every whole height from zero on, an exception for any other number. |
| Emission.BlockSubsidy.GetBlockSubsidy | packages/jellyfish-network/src/BlockSubsidy.ts:81-98 | What the block pays, zero past the end of the table. |
| Emission.KnownSubsidies | packages/jellyfish-network/__tests__/BockSubsidy.test.ts:169-295 | The subsidies of main net and test net at the heights around their first reductions. |
| Emission.KnownSupply | packages/jellyfish-network/__tests__/BockSubsidy.test.ts:297-399 | The supply of main net at such heights. |
| Emission.GetUnroundedBlockSubsidy | apps/whale-api/src/module.api/subsidy.ts:3-21 | The loop gives the exact recurrence with its cut-off, and the base subsidy below the Eunos height. |
| Emission.StaysCutOff | apps/whale-api/src/module.api/subsidy.ts:12-14 | Once a reduction is too small all later ones are. |
| Emission.ExactInClosedForm | apps/whale-api/src/module.api/subsidy.ts:9-18 | Without rounding the reward after n reductions is 405.04 times the n-th power of 0.98342. |
| Emission.UnroundedInClosedForm | apps/whale-api/src/module.api/subsidy.ts:9-18 | The unrounded version is that, or zero from the first reduction of at most 0.00001 on. |
| Emission.RoundedAgainstExact | packages/jellyfish-network/src/BlockSubsidy.ts:149-167 | Before the cut-off the rounded subsidy is at least the exact one and exceeds it by less than 1/0.01658 satoshi. |
| Emission.RoundedAgainstUnrounded | apps/whale-api/src/module.api/subsidy.ts:11-18 | At every reduction count the rounded subsidy is at least the unrounded one and exceeds it by less than 1001/0.01658 satoshi. |
| Emission.VersionsAgreeIff | apps/whale-api/src/module.api/subsidy.ts:3-21 | The two versions differ by less than that at a height above zero if and only if it is at or above the Eunos height, and at height zero if the options make them; those of main net and test net do not. |
| CacheProtocol.RunIsExclusive | apps/libs/caches/src/SemaphoreCache.ts:25-46 | In every run the callers inside the semaphore of a key are at most the one that holds it. |
| CacheProtocol.FetchesNeverOverlap | apps/libs/caches/src/SemaphoreCache.ts:25-34 | Two fetches of one key never overlap, whatever fails or expires. |
| CacheProtocol.StepKeeps | apps/libs/caches/src/SemaphoreCache.ts:25-34 | Without expiry every step keeps that what callers carry is what is cached. |
| CacheProtocol.OneValue | apps/libs/caches/src/SemaphoreCache.ts:25-34 | Without expiry any two callers of a key that return a value return the same, and it is the cached one. |
| CacheProtocol.OneFetchGivesAValue | apps/libs/caches/src/SemaphoreCache.ts:25-34 | Without expiry at most one fetch of a key gives a value, but for values whose write failed and stored nothing. |
| CacheProtocol.AloneGets | apps/libs/caches/src/SemaphoreCache.ts:25-34 | What one caller by itself gets in any run: a cached value without fetching or writing, else what it fetched, which is then cached, `undefined` uncached, and an exception exactly where a call failed. |
| CacheProtocol.NeverStuck | apps/libs/caches/src/SemaphoreCache.ts:28-32 | As long as a caller is not done some caller can go on without a failure. |
| CacheProtocol.InvIsQuiet | apps/libs/caches/src/SemaphoreCache.ts:25-34 | Where the invariant of runs without expiry holds, what a caller is still going to write is what is cached, and nobody fetches or has just fetched what is cached. |
| CacheProtocol.QuietNeverOverwrites | apps/libs/caches/src/SemaphoreCache.ts:25-34 | Where that holds, no run without expiry writes a value over a different one. |
| CacheProtocol.ExpiryIsHarmlessIff | apps/libs/caches/src/SemaphoreCache.ts:26-33 | After an expiry that is still so if and only if no caller of the key is between its inner and its outer write. |
| CacheProtocol.ExpiryPutsAnOldValueBack | apps/libs/caches/src/SemaphoreCache.ts:26-33 | One run in which it is not: the write after the release puts an older value over a newer one. |
| Caches.KeysAreDistinct | apps/libs/caches/src/GlobalCache.ts:7-15 | Keys of different prefixes or ids differ. |
| Caches.GlobalCache.Get | apps/libs/caches/src/GlobalCache.ts:49-69 | What is cached, or else what is fetched: an exception or `undefined` exactly if nothing is cached and the fetch ends so, and then the store stays as it is; a value is what the store has for the key afterwards, and nothing else in it changes. |
| Caches.GlobalCache.Batch | apps/libs/caches/src/GlobalCache.ts:31-37 | An exception if and only if looking up some id throws; else each record is what looking up that id alone gives, ids given twice included; nothing else in the store changes, and what was fetched ahead of an exception stays. |
| Caches.SemaphoreCache.AcquireSemaphore | apps/libs/caches/src/SemaphoreCache.ts:39-46 | A key has one semaphore of its own for ever, made when first asked for. |
| Caches.SemaphoreCache.Get | apps/libs/caches/src/SemaphoreCache.ts:25-34 | What is cached, or else, after waiting for whoever holds the semaphore, what that one has cached, or else what is fetched, which is then cached; a wait that times out throws; the semaphore is given back, also when the fetch throws, and nothing is locked on a hit. |
| PoolGraph.SyncCovers | apps/whale-api/src/module.api/poolswap.pathfinding.service.ts:190-206 | After any sync there is at most one pool per pair of tokens, nothing was taken away, and every listed pool that is not ignored has its tokens joined. |
| PoolGraph.ResyncChangesNothing | apps/whale-api/src/module.api/poolswap.pathfinding.service.ts:190-206 | Syncing the same list again changes nothing. |
| PoolGraph.EdgesAreListed | apps/whale-api/src/module.api/poolswap.pathfinding.service.ts:190-206 | Every edge was there before or is a listed pool that is not ignored. |
| PoolGraph.SyncSucceeds | apps/whale-api/src/module.api/poolswap.pathfinding.service.ts:202-204 | If a pool id always names the same two tokens, adding edges never throws. |
| PoolGraph.ComponentOf | apps/whale-api/src/module.api/poolswap.pathfinding.service.ts:249-250 | The component search finds exactly the tokens that are connected. |
| PoolGraph.Shortcut | apps/whale-api/src/module.api/poolswap.pathfinding.service.ts:137 | Every path has a simple path no longer than it. |
| SimplePaths.AllSimplePathsAreEnumerated | apps/whale-api/src/module.api/poolswap.pathfinding.service.ts:137 | The enumeration holds every simple path between two tokens once, and nothing else. |
| PathFinding.PoolSwapPathFindingService.AddTokensAndConnectionsToGraph | apps/whale-api/src/module.api/poolswap.pathfinding.service.ts:190-206 | The loop leaves the graph that the specification `Sync` gives, also when it throws midway. |
| PathFinding.PoolSwapPathFindingService.UpdateTokensToSwappableTokens | apps/whale-api/src/module.api/poolswap.pathfinding.service.ts:249-266 | The index becomes exactly connection less self, if and only if every token can be looked up. |
| PathFinding.PoolSwapPathFindingService.SyncTokenGraph | apps/whale-api/src/module.api/poolswap.pathfinding.service.ts:32-37 | Graph and index after a sync, and when it throws. |
| PathFinding.PoolSwapPathFindingService.ComputePathsBetweenTokens | apps/whale-api/src/module.api/poolswap.pathfinding.service.ts:131-180 | The hops of exactly the simple paths of at most three, each once, or an exception if and only if a pool or token of one cannot be looked up. |
| PathFinding.PoolSwapPathFindingService.GetAllSwapPaths | apps/whale-api/src/module.api/poolswap.pathfinding.service.ts:99-121 | Those paths, if and only if the tokens are known and differ, a sync that is needed does not throw and all can be looked up; the graph is the one searched, and an index in step stays so. |
| PathFinding.PoolSwapPathFindingService.GetBestPath | apps/whale-api/src/module.api/poolswap.pathfinding.service.ts:48-92 | An answer under the same condition: the pool between the two tokens if there is one, else a path of maximal return of all those paths. |
| PathFinding.FoundPathsAreWalkable | apps/whale-api/src/module.api/poolswap.pathfinding.service.ts:147-160 | Each pool of a path has the two tokens of its step. |
| PathFinding.PathsShownIff | apps/whale-api/src/module.api/poolswap.pathfinding.service.ts:99-180 | Some path is shown if and only if the tokens can be connected in at most three hops, and then each is in the other's index entry. |
| PathFinding.DirectIff | apps/whale-api/src/module.api/poolswap.pathfinding.service.ts:55-67 | A path of one hop is shown if and only if a pool joins the two tokens. |
| PathFinding.PoolIsLookedUp | apps/whale-api/src/module.api/poolswap.pathfinding.service.ts:147-170 | A pool of a path is shown with the prices, fees and commission it was looked up with, under the key of the edge between the two tokens. |
| PathFinding.ShownPathsEndThere | apps/whale-api/src/module.api/poolswap.pathfinding.service.ts:275-318 | The fold over a path shown ends at the destination and never returns more after fees than before. |
| SwapReturns.HopGoesOver | apps/whale-api/src/module.api/poolpair.fees.service.ts:14-32 | In the direction a hop is made for, the fold charges the in-fee of the paid token and the out-fee of the received one. |
| SwapReturns.HopShowsThePool | apps/whale-api/src/module.api/poolswap.pathfinding.service.ts:162-173 | A hop shows the tokens and prices of its pool on their own sides whichever way it goes, and the fees that the direction charges on each; no fees exactly if the pool has none. |
| SwapReturns.HopPaysReserves | apps/whale-api/src/module.api/poolswap.pathfinding.service.ts:147-170 | One hop from token A to B pays reserve B over reserve A, and back the inverse, each to the nearest 8 decimals. |
| SwapReturns.Fixed8IsNearest | apps/whale-api/src/module.api/poolswap.pathfinding.service.ts:155-167 | Prices and fees are rounded to a number of 8 decimals that none is nearer to; of two as near to the one away from zero. |
| SwapReturns.FoldWalks | apps/whale-api/src/module.api/poolswap.pathfinding.service.ts:275-312 | On a walkable path the fold is at one side of each next pool, ends at the destination, and returns the products of the prices before and after fees. |
| SwapReturns.ComputeReturns | apps/whale-api/src/module.api/poolswap.pathfinding.service.ts:275-318 | The loop computes that fold and rounds both returns up. |
| SwapReturns.FeesNeverPay | apps/whale-api/src/module.api/poolswap.pathfinding.service.ts:296-317 | With fees and commission in [0,1] the return after fees never exceeds the plain one, after rounding up. |
| SwapReturns.Ceil8IsLeastAbove | apps/whale-api/src/module.api/poolswap.pathfinding.service.ts:314-324 | Rounding up gives the least number of eight decimals that is not below, and formatting leaves it as it is. |
| SwapReturns.GetBestPath | apps/whale-api/src/module.api/poolswap.pathfinding.service.ts:55-91 | The first direct path, or else the first path of maximal return after fees with the largest plain return of all. |
| SwapReturns.PathChosenIff | apps/whale-api/src/module.api/poolswap.pathfinding.service.ts:70-83 | Without a direct path, one is chosen if and only if some path returns something after fees. |
| SwapReturns.OwnReturnIff | apps/whale-api/src/module.api/poolswap.pathfinding.service.ts:76-91 | If some path gives something after fees, the plain return shown is the chosen path's own if and only if the first path to give most after fees also gives most before them. |
| SwapReturns.BestOfTwo | apps/whale-api/src/module.api/poolswap.pathfinding.service.ts:76-91 | With one path ahead after fees and another before them, the first is chosen and the other's plain return is shown. |
| SwapReturns.SuchPathsExist | apps/whale-api/src/module.api/poolswap.pathfinding.service.ts:76-91 | Four pools for which that fails: one way returns 2 before and 0.5 after fees, the other, which is chosen, 1 before and after. |
| Paging.LoopEndsIff | apps/whale-api/src/module.api/address.controller.ts:90-113 | The doubling recursion ends if and only if the cursor exists or nothing at all is at or below its height. |
| Paging.LoopIsTheNextSlice | apps/whale-api/src/module.api/address.controller.ts:90-113 | It returns the entries right behind the cursor. |
| Paging.ListBehind | apps/whale-api/src/module.api/address.controller.ts:66-114 | The cursor of an entry gives the page right behind it. |
| Paging.AnswerOfHistory | apps/whale-api/src/module.api/address.controller.ts:66-126 | Every answer has at most `size` entries, and a cursor, that of the last one, exactly if it has that many; the first page is the newest entries, as many as the size, 200 or all; any other is those right behind its cursor. |
| Paging.CrawlYieldsTheRest | apps/whale-api/src/module.api/_core/api.paged.response.ts:11-64 | Where every cursor leads to what is behind its item, following them yields all that is left, every item once and in order. |
| Paging.PagingIsCompleteIff | apps/whale-api/src/module.api/address.controller.ts:66-126 | From the first page on that is the whole history if and only if the page size is at most 200 or all entries fit into one fetch. |
| Paging.FakePagingIsCompleteIff | apps/whale-api/src/module.api/loan.controller.ts:268-281 | Following cursors yields every item once, in order, if and only if the page size is not 1 or there are fewer than two items. |
| Paging.AnswerOfList | apps/whale-api/src/module.api/loan.controller.ts:268-281 | The same for the list: the first items, or those right behind the item of the cursor, but none at all behind the first item or an unknown one. |
| Paging.PageFrom | apps/whale-api/src/module.api/_core/api.paged.response.ts:88-95 | A full page leads on behind its last item, any other is all that is left. |
| Remap.DeepRemap | packages/jellyfish-json/src/remap.ts:45-66 | The loops overwrite entry by entry what the specification says, or throw where it does. |
| Remap.ReviveAs | packages/jellyfish-json/src/remap.ts:74-94 | The same below a key that has one precision for everything. |
| Remap.RemapFits | packages/jellyfish-json/src/remap.ts:45-110 | At every path a number is of the kind the tree says for its keys, arrays and objects keep their length, keys and order, and everything else is unchanged. |
| Remap.FitIsUnique | packages/jellyfish-json/src/remap.ts:45-110 | A document that agrees in that sense at every path is the remapped one. |
| Remap.ThrowsIff | packages/jellyfish-json/src/remap.ts:62-64 | Remapping throws if and only if a string that is not empty stands where the tree still has a tree. |
| Der.ToDer | packages/jellyfish-crypto/src/der.ts:34-52 | The scanning loop computes the specification `To`. |
| Der.FromUndoesTo | packages/jellyfish-crypto/src/der.ts:33-64 | From undoes to for every 32 bytes, all zeros included. |
| Der.ToIsTheMinimalForm | packages/jellyfish-crypto/src/der.ts:34-52 | What is written has the value of what was given and is the only minimal non-negative form of it. |
| Der.ToUndoesFromIff | packages/jellyfish-crypto/src/der.ts:54-63 | To undoes from on a minimal integer if and only if it fits into 32 bytes. |
| Der.DecodeUndoesEncode | packages/jellyfish-crypto/src/der.ts:16-30 | Every signature of 64 bytes is encoded, and decoding gives it back. |
| Der.EncodedHoldsIntegers | packages/jellyfish-crypto/src/der.ts:16-30 | Read as two integers in order, each of the length that stands ahead of it, an encoded signature holds the values of its first and its last 32 bytes. |
| Der.DecodedHoldsIntegers | packages/jellyfish-crypto/src/der.ts:16-30 | A decoded signature has the value of the first integer in its first 32 bytes and that of the second in its last, where they fit; of a longer one the first 32 bytes are kept. |
| Der.EncodeUndoesDecodeIff | packages/jellyfish-crypto/src/der.ts:16-30 | An accepted signature encodes to itself again if and only if both integers fit into 32 bytes; longer ones are cut. |
| SortKeys.PaddedIsFixed | apps/whale-api/src/module.model/_hex.encoder.ts:22-27 | Padding gives every number below 16 to the width exactly that many digits. |
| SortKeys.HeightsAreOrdered | apps/whale-api/src/module.model/_hex.encoder.ts:22-27 | Encodings of heights up to 2^32-1 are ordered as the heights, also against a negative number. |
| SortKeys.KeysAreOrdered | apps/whale-api/src/module.indexer/model/dftx/place.auction.bid.ts:26 | Keys are ordered by height and, within a height, by transaction id. |
| SortKeys.RangeTheorem | apps/whale-api/src/module.api/loan.controller.ts:204-205 | The bounds select exactly the heights from the end less the expiry to the end, but for the two extreme ids at the ends, also when the lower bound is negative. |

## Left out

- IndexTheorems.RecoveryTheorem: assumes that writes of the genesis block succeed and that not-found is raised only when nothing (or everything) of the block is stored; NotFoundContract and GenesisContract say what happens otherwise.
- BlockProvider.LoopSettles: is about a node that keeps its chain; the safety results are about nodes that reorganise between any two calls.
- RichListTheorems.StalenessTheorem: takes the token list as fixed and only two balances per address, and is stated for runs in which no call fails.
- RichList.RichListCore.CalculateNext: two balances per address stand for the balances of all tokens, and the sort key that orders the list by satoshi is not modelled.
- Transactions.VoutLaw: amounts are whole satoshi; what the writer makes of a fraction of one is not modelled, nor are negative token ids or script operations, which are byte strings behind their length.
- VarInt.Write: of a negative number the big-number library is taken to give the low bits of the magnitude; that library is not part of this model.
- TransactionBuffers.ReadBlock: what is read is built up as a value, not by setters on a shared object; a length read from the buffer may be larger than an array can be.
- Signing.PreimageTheorem: is about hash type ALL, the only one that is accepted, and about hashes that do not collide on the inputs at hand.
- Signing.SignInput: keys and signatures are given by the caller; elliptic curves and hash functions are not modelled.
- Emission.ComputeBlockReductionSubsidies: the number of entries of the table (1252 according to a comment) is not computed.
- CacheProtocol.OneValue: eviction is modelled as expiry, and a caller whose wait times out is gone.
- Caches.GlobalCache.Get: a fetch ends the same way each time it is made for an id, and the time to live is not modelled; expiry, eviction and callers that interleave are in the step system.
- Caches.SemaphoreCache.Get: how the wait for a semaphore ends is given by the caller; that waiting callers are served one by one is in the step system.
- BlockProvider.RPCBlockProvider.IndexGenesis: writes of the genesis block are taken to succeed; GenesisContract says what happens otherwise.
- PathFinding.PoolSwapPathFindingService.ComputePathsBetweenTokens: the library that enumerates simple paths is not part of this model, so the order of paths, which decides between equally good ones, is only known to be some order; names and symbols of tokens are not modelled, and index entries are sets.
- SwapReturns.ComputeReturns: prices and fees are exact decimals; infinite or missing ratios are not modelled.
- Paging.PagingIsCompleteIff: the history does not change between two pages, and a cursor is its three parts, not their joined text.
- Remap.RemapFits: documents are values, so sharing is not captured, nor that a document is left partly overwritten when remapping throws; keys that JavaScript objects inherit are not modelled.
- Der.DecodeUndoesEncode: the framing is that of BIP 66 and not part of the repository.
- SortKeys.RangeTheorem: the stored keys are those of the bids of one auction; the database is a set of keys in lexicographic order.
- The sub-indexers, mappers, RPC transport, controllers, the database and the queue: their calls are parameters or steps that may fail.
- `getSwapsHistory`, masternode state, wallets, consortium figures and display mapping: not modelled, because they would add easy members only or need code that is not part of this model.
