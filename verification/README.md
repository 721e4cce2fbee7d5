# A verified model of the chain monitor's sync pipeline

The chain monitor follows an EVM node. A fetcher walks back to the fork point when the node has switched chains, takes
its own blocks back one by one and publishes the new ones. Several consumers read that feed of pushed and reverted
blocks and keep database tables or a message topic consistent with it. The model covers the fetcher, the storage task
and its block tables, the asynchronous ERC-20 task with its sliding cache, the delayed sender, and the smaller cores
around them: the balance-height cache, the bisecting multicall, ERC-721 ownership, the last Sync of a pair, and the two
query plans of the block loader.

Each component is a function of its state and of what the environment answers (`...Spec`), lemmas about every run of it
(`...Proofs`, `...Theorems`), and a class that works in place as the program does, each method proved to do what the
function says.

| module | what it holds |
|---|---|
| `Chain` | blocks, push and pop events, the stack a feed describes, 64-bit height arithmetic |
| `Wrappers`, `Seqs`, `Sorting`, `Table`, `Listing` | optional values, sequences, sorting by a key, tables whose rows are flagged on revert, and what it means that they have one row for each thing in the blocks |
| `FetchSpec`, `FetchProofs`, `FetchTheorems`, `FetchConvergence`, `FetchDepth`, `Fetch` | the fetcher |
| `StorageSpec`, `StorageProofs`, `StorageRows`, `StorageTheorems`, `Storage` | the block tables and the storage task |
| `AsyncSpec`, `AsyncRows`, `AsyncSteps`, `AsyncTheorems`, `AsyncGaps`, `AsyncMirror`, `Async` | the asynchronous ERC-20 transfer task |
| `DelaySpec`, `DelayNumbering`, `DelayCatchUp`, `DelayProgress`, `DelayRuns`, `DelayGaps`, `DelayFinality`, `Delay` | the delayed sender |
| `BalanceSpec`, `Balance` | the ERC-20 balance task and its cache |
| `MultiCallSpec`, `MultiCall` | the batched contract calls |
| `Erc721Spec`, `Erc721Order`, `Erc721` | ERC-721 ownership |
| `DexPairSpec`, `DexPair` | the reserves of pairs |
| `QuerySpec`, `Query` | the block loader |
| `Pipeline` | the fetcher together with its consumers |

## How the environment is modelled

- The node is a function from (request number, height) to a block: nothing relates two requests, so it may switch chains
  between any two reads. A run is a list of turns: an iteration, whose fetch may fail, or a new target height.
- The database is a value of tables. A transaction takes effect as a whole or not at all, a commit reported as failed has
  no effect, and an oracle decides which operation fails. A retry that runs out stops the process, as does a kill at any
  point; a restart begins from the tables.
- Range reads of blocks come back in insertion order, which `StorageProofs.EagerHolds` shows to be ascending for ok rows;
  tasks that sort them anyway are given any order.
- Worker pools deliver in any order: a permutation oracle, or an arbitrary choice. A block on the feed has its
  transactions in the order in which the workers finished, a block read from the tables has them by index: the two
  versions of a block agree on its transfers as a multiset (`AsyncTheorems.SameAt`). Where the order within the delivered
  block decides the result, the groups of transactions the workers take are modelled: `Erc721Order.DeliveredAs`.
- Heights are natural numbers. The subtractions that wrap around in the source are written out (`Sub64`); additions stay
  below 2^64 by precondition.
- `BlocksSafe`, `BlockBatch`, buffer and batch sizes are at least 1 where the source divides its work by them or would
  fault on 0. What BlocksSafe = 0 does to the cache is `FetchTheorems.NoWindowNoBound`.
- The process starts only if the node's genesis block is the stored one (process/process.go:174-222). The model states
  this as: the node's block 1 names the stored block 0 as its parent. What happens otherwise is
  `FetchTheorems.GenesisForkLosesReverts`.

## What turned out to need a condition

- Reading the stored window at start-up finds nothing below height 2 * BlocksSafe, because an unsigned subtraction
  wraps: `FetchTheorems.LoadIsFullWindow` gives the exact bound.
- The fetcher stops with "local block not found" exactly when it has moved and no block in reach agrees with the node:
  `FetchTheorems.GivesUpIff`.
- A fork is found if it is among the blocks the cache holds without a gap, the lowest block loaded at start-up
  included: `FetchTheorems.ForkInWindowFound`, `FetchTheorems.GivesUpIff`.
- A fork below the top is looked for in the first iteration and while the target is less than BlocksSafe above the
  height: `FetchTheorems.RevertsIff`. On a fixed chain the fetcher ends up with the node's chain exactly if there is
  nothing to revert or the next iteration looks; otherwise it puts the node's blocks on top of abandoned ones and never
  finds the fork again: `FetchConvergence.ConvergesIff`.
- A catch-up round of the ERC-20 task skips a batch of heights exactly when the latest height is below the buffer size
  and the next block is not stored: `AsyncTheorems.SkipsIff`. `AsyncGaps.GapReached` is a run from the start of the task
  that loses heights 3 to 7 for good, although block 3 was in its cache. The delayed sender has the same gap:
  `DelayCatchUp.SkipsIff`, and `DelayGaps.GapReached` is a run that never sends heights 3 and 4.
- Ten message rounds in a row while the ERC-20 task is behind leave its loop waiting for itself:
  `AsyncTheorems.MessageRoundsWedge`. A fresh task one block behind its feed comes to that after twelve blocks that
  arrive one by one: `AsyncGaps.WedgeReached`.
- A revert that arrives while the ERC-20 task is behind leaves the reverted block in its cache exactly when the cache
  holds anything: `AsyncGaps.StaleIff`. `AsyncGaps.StaleReached` is a run on a well-formed feed whose rows end up being
  those of a reverted block.
- A transfer of a multiple of 2^64 units asks for no balance refresh: `BalanceSpec.QueuedIff`, `BalanceSpec.MissedTransfer`.
- The log-first query plan gives a block its transactions in index order exactly when no chunk of hashes holds a later
  transaction of the block than the chunks after it: `QuerySpec.BlockOrderKeptIff`. The source walks a map, so the order
  of the hashes is arbitrary; every order will do exactly when the hashes fit one chunk of 100:
  `QuerySpec.AnyOrderKeptIff`. `QuerySpec.OrderLost` is a block of 101 stored transactions that comes out in the wrong
  order.
- What the delayed sender sends from its queue is final if reverts stay shallow (`DelayFinality.RunFinal`). The fetcher's
  reverts are no deeper than 2 * BlocksSafe (`FetchDepth.RunReach`), so a delay beyond that is enough:
  `Pipeline.DelayFinalOnFetcher`.
- A block of more transactions than a worker takes at a time reaches the ERC-721 task with its groups in the order in
  which the workers finished. Every order gives the owners of the execution order exactly when any two groups that move a
  token have the same last receiver for it, and every order is taken back alike exactly when they have the same first
  sender: `Erc721Order.AnyDeliveryTakesIff`, `Erc721Order.AnyDeliveryUndoesIff`. `Erc721Order.OrderLost` is, for every
  group size, a block that leaves a token with the wrong owner, and with a wrong one again when it is taken back.
- The pair task keeps the reserves of a block that is taken back. They are those of the chain again exactly when each pair
  the reverted blocks synced is synced by a new block or had the same reserves before: `DexPairSpec.ReorgShowsIff`.
- The storage task resumes in step with its tables exactly when no start height is configured or it is the next one:
  `StorageTheorems.ResumesIff`.

## Model

| member | source | states |
|---|---|---|
| `Chain.ReplayConcat` | fetch/fetch.go:130-188 | Two well-formed stretches of the feed in a row are well-formed, and lead where the second leads from where the first ends. |
| `Chain.ReplayContiguous` | fetch/fetch.go:175-188 | Every well-formed feed keeps the published chain numbered without gaps. |
| `FetchProofs.WalkDescends` | fetch/fetch.go:757-824 | Whatever the node answers, the walk lists exactly the local blocks between the top and where it stops, top-down; each disagreed when compared; it stops on a block that agreed, with that block's hash, or, before the first move, where the cache ends. |
| `FetchProofs.WalkSurvives` | fetch/fetch.go:769-823 | A walk over cached blocks that meets one agreeing with the node is never fatal and stops at or above it. |
| `FetchProofs.PopsReplay` | fetch/fetch.go:126-137 | Sending the walked blocks takes the published chain down to exactly the height the walk returned. |
| `FetchProofs.PublishKeeps` | fetch/fetch.go:175-188 | The publish loop only pushes next heights and keeps the invariant of height, cache window and published chain. |
| `FetchProofs.IterateKeeps` | fetch/fetch.go:115-188 | One iteration: each published block has number top+1, each reverted block is the current top, Height is top+1 again and does not pass the target. |
| `FetchProofs.RunKeeps` | fetch/fetch.go:102-204 | The same over every run, with arbitrary answers and fetch errors. |
| `FetchTheorems.LoadIsFullWindow` | fetch/fetch.go:229-252 | The stored window is loaded if and only if the stored chain is higher than the window; otherwise nothing is loaded. |
| `FetchTheorems.StartFits` | fetch/fetch.go:229-252 | A fetcher that resumes from the stored chain satisfies the invariant. |
| `FetchTheorems.CacheBounded` | fetch/fetch.go:183-184 | The cache never holds more than 2 * BlocksSafe + 1 blocks. |
| `FetchTheorems.CacheWindow` | fetch/fetch.go:130-187 | Over every run the cache holds only published blocks, and every published block in the last 2 * BlocksSafe below the highest height, from the lowest loaded height on. |
| `FetchTheorems.NoWindowNoBound` | fetch/fetch.go:183-184 | With BlocksSafe = 0 the cache grows by every published block. |
| `FetchTheorems.GivesUpIff` | fetch/fetch.go:772-780 | The fatal "local block not found" is reached if and only if the fetcher has moved and no cached run of blocks ends on one agreeing with the node. |
| `FetchTheorems.ForkInWindowFound` | fetch/fetch.go:769-823 | A fork point in the cache and at most 2 * BlocksSafe below the highest block, as every block loaded at start-up is, is always found. |
| `FetchTheorems.GenesisForkLosesReverts` | fetch/fetch.go:124-137 | Height wraps to 0 with no revert sent if and only if the fetcher has not moved and every block down to 0 is cached and disagrees. |
| `FetchTheorems.RevertsIff` | fetch/fetch.go:120-137 | An iteration takes back the top, as its first event, if and only if the node names another parent for the next height and the iteration is the first one or the target is less than BlocksSafe above the height; otherwise it takes back nothing. |
| `FetchTheorems.RequestsCounted` | fetch/fetch.go:120-173 | An iteration asks once for each block it takes back and once more, if it looks for a fork, and once for each height of a batch that ends at the target; a failed fetch publishes nothing. |
| `FetchTheorems.NewTarget` | fetch/fetch.go:192-203 | A new target height counts from the next iteration on. |
| `FetchTheorems.IterateLinks` | fetch/fetch.go:120-187 | An iteration that checked the hash beneath its first block, or met no revert, keeps the published chain parent-linked. |
| `FetchTheorems.RunLinks` | fetch/fetch.go:102-204 | Over every run whose unchecked iterations meet no revert, every published block names the hash of the block beneath it. |
| `FetchConvergence.ForkExact` | fetch/fetch.go:757-824 | On a fixed node chain the walk returns the highest height where both chains agree, with that hash, and lists the local blocks above it, once each, top-down. |
| `FetchConvergence.StaysOnTrack` | fetch/fetch.go:115-188 | On a fixed chain an error-free iteration reverts to the fork and publishes the next batch of that chain, and the fork moves up to the new top. |
| `FetchConvergence.SharedPrefix` | fetch/fetch.go:808-823 | With collision-free hashes and parent-linked chains, agreeing at the fork means agreeing at every height below. |
| `FetchConvergence.Converges` | fetch/fetch.go:100-190 | From any fork among the cached blocks of the window, the lowest loaded one included, that the next iteration looks for, on a fixed chain and without fetch errors: end - fork - 1 iterations bring Height to end, and the published chain is then the node's up to end - 1. |
| `FetchConvergence.ConvergesIff` | fetch/fetch.go:120-188 | On a fixed chain the loop always reaches end, with the node's chain if and only if the fork is at the top, or it is the first iteration, or the target is less than BlocksSafe above the height. |
| `FetchConvergence.SyncIsRun` | fetch/fetch.go:109-190 | The converging loop is the ordinary run with error-free fetches. |
| `FetchDepth.RunReach` | fetch/fetch.go:121-187 | Over every run, whatever the node answers, no revert takes back a block more than 2 * BlocksSafe below the highest block ever published. |
| `Fetch.Fetcher.constructor` | fetch/fetch.go:207-252 | The loaded cache is the stored blocks of the window, with the source's comparison. |
| `Fetch.Fetcher.GetLatestNormalBlock` | fetch/fetch.go:757-824 | The walking loop, with wrapping heights, computes the walk of the specification and uses as many requests. |
| `Fetch.Fetcher.GetBlocks` | fetch/fetch.go:684-755 | In whatever order the workers deliver, sorting gives the blocks of the range in ascending order. |
| `Fetch.Fetcher.Rewind` | fetch/fetch.go:121-138 | The state and the feed after a walk are those of the specification. |
| `Fetch.Fetcher.PublishNext` | fetch/fetch.go:140-188 | The state and the feed after a fetched batch, or a failed fetch, are those of the specification. |
| `Fetch.Fetcher.PublishBlocks` | fetch/fetch.go:175-188 | The publish loop stops at the first block whose parent does not match, and evicts as it goes. |
| `Fetch.Fetcher.SendReverts` | fetch/fetch.go:130-135 | Every walked block leaves the cache and is sent as reverted, in order. |
| `Fetch.Fetcher.Iteration` | fetch/fetch.go:115-188 | One iteration as in the specification, the fatal case included. |
| `Fetch.Fetcher.Run` | fetch/fetch.go:102-204 | The loops of the fetcher produce the run of the specification. |
| `Fetch.Fetcher.SyncTo` | fetch/fetch.go:109-190 | On a fixed chain the loop ends, measured by end - fork, and the feed leads to the node's chain on top of the fork. |
| `StorageProofs.EagerHolds` | output/mysqldb/mysqldb.go:411-461 | Inserting the next block, or flagging the rows of the top one, leaves the ok rows of all four tables exactly those of the new chain, in its order. |
| `StorageRows.LogsListed` | task/basedata_storage_task.go:188-197 | The tx_log rows of a block are, in order and each once, the j-th log of the i-th transaction under that transaction's hash, for every i and j. |
| `StorageRows.HoldsAllRows` | task/basedata_storage_task.go:160-262 | Tables that hold a chain have one ok row for each header, transaction, log and internal transaction of its blocks, with its fields, in the order of the blocks, and no other. |
| `StorageProofs.HasOkIff` | output/mysqldb/query.go:334-344 | A height has an ok block row if and only if it is on the stored chain. |
| `StorageProofs.OneRowPerHeight` | task/basedata_storage_task.go:161-168 | Every stored height has exactly one ok block row, every other height none. |
| `StorageProofs.MainBlockIsTop` | output/mysqldb/query.go:57-70 | The current main block number is the top of the stored chain, 0 if it is empty. |
| `StorageProofs.SaveAgain` | task/basedata_storage_task.go:160-168 | A save repeated after any number of its blocks were committed ends where an undisturbed save ends. |
| `StorageProofs.SaveHolds` | task/basedata_storage_task.go:152-266 | Blocks that continue the stored chain are all written, none skipped as already committed. |
| `StorageTheorems.TickKeeps` | task/basedata_storage_task.go:64-78 | The timer empties the buffer into the tables without changing what tables and buffer amount to; after a failing save the tables hold a chain that the buffered pushes go through. |
| `StorageTheorems.ReceiveOkKeeps` | task/basedata_storage_task.go:93-115 | A pushed block, flushed or buffered, amounts to inserting it at once; counters are the sums over the buffer and within their limits. |
| `StorageTheorems.ReceiveRevertKeeps` | task/basedata_storage_task.go:117-134 | A revert, flushing first, amounts to flagging the block's rows at once; the Fatal checks are not reached. |
| `StorageTheorems.RunRefines` | task/basedata_storage_task.go:58-143 | For every well-formed feed and every placement of ticks, flushes and failures: tables plus buffer equal event-by-event processing, curHeight is the feed's top, the only Fatal reached is for a database that stays down, and wherever the run ends the tables alone hold a chain the feed went through. |
| `StorageTheorems.SettledRows` | task/basedata_storage_task.go:93-134 | At every moment tables and buffer together have one row for each header, transaction, log and internal transaction of the chain read so far, and no other. |
| `StorageTheorems.BufferBounded` | task/basedata_storage_task.go:93-115 | The buffer never holds more blocks, transactions or logs than the limits allow; the counters count them. |
| `StorageTheorems.FlushesIff` | task/basedata_storage_task.go:100-115 | Without a failure the buffer is written exactly when a block makes it pass a limit. |
| `StorageTheorems.StopsIff` | task/basedata_storage_task.go:80-134 | Without a failure an event stops the task if and only if it announces a block that is not the next one or takes back one that is not the current one, and what is then in the tables. |
| `StorageTheorems.FaultsStop` | task/basedata_storage_task.go:64-134 | What a save or a revert that is cut short leaves in the tables. |
| `StorageTheorems.ResumesIff` | task/basedata_storage_task.go:45-52 | After a restart the invariant holds if and only if no start height is configured or it is the next height. |
| `StorageTheorems.LivesHoldChain` | task/basedata_storage_task.go:38-143 | After any number of crashed and restarted lives the ok rows of all four tables are, one for one, the headers, transactions, logs and internal transactions of one chain, which the feeds of the lives went through one after the other, each from where the one before was cut short; that chain has one ok block row a height, and the next life resumes from its top. |
| `Storage.StorageTask.Insert` | output/mysqldb/writer.go:39-53 | Inserting in batches appends all rows in order. |
| `Storage.StorageTask.SaveBlock` | task/basedata_storage_task.go:160-262 | One block is written to all tables or, on any failure, to none. |
| `Storage.StorageTask.SaveBlocks` | task/basedata_storage_task.go:152-266 | A failed attempt has committed the first k blocks, a successful one all. |
| `Storage.StorageTask.SaveWithRetry` | utils/retry_helper.go:31-47 | Retries resume where the last attempt stopped, and give up only after more than retryTimes failures. |
| `Storage.StorageTask.UpdateBlockState` | output/mysqldb/mysqldb.go:411-461 | All four tables are flagged together or not at all. |
| `Storage.StorageTask.Handle` | task/basedata_storage_task.go:59-143 | One message as in the specification; the fault it met is none unless more than retryTimes operations failed. |
| `Storage.StorageTask.Run` | task/basedata_storage_task.go:58-143 | The event loop follows the specification message by message. |
| `AsyncTheorems.SaveExtends` | task/erc20_tx_task.go:203-257 | Committing all or the first chunks of the next heights extends the rows and the task number to the same height. |
| `AsyncRows.TransfersListed` | task/erc20_tx_task.go:269-296 | The transfers of a block are, in order and each once, the rows of those logs of its transactions that have the Transfer topic, two more topics and no fourth, field by field. |
| `AsyncTheorems.HandledOnce` | task/erc20_tx_task.go:203-257 | Rows written height by height, each height from the feed or from the tables, are as a multiset exactly the rows of the feed's blocks: one for each ERC-20 transfer log of each transaction. |
| `AsyncTheorems.ReceiveKeeps` | task/base_async_task.go:122-136 | A delivered block is consumed, cached or passed over so that the cache stays the newest stretch of the feed and the rest is stored or handled. |
| `AsyncSteps.StaysAlive` | task/base_async_task.go:119-150 | In whatever state and whatever arrives, a task whose transactions do not fail goes on. |
| `AsyncSteps.FailureEnds` | task/base_async_task.go:121-144 | Which messages need a transaction, and what is in the store if it fails. |
| `AsyncSteps.RevertCaches` | task/base_async_task.go:138-146 | A revert at or below the height steps it back and takes at most the newest block from the cache; one above it changes only the latest height. |
| `AsyncTheorems.NearCached` | task/base_async_task.go:174-193 | If the cache reaches down to the next height, the look-up finds that block and leaves the newer ones. |
| `AsyncTheorems.NearStored` | task/base_async_task.go:163-172 | If it does not, the look-up leaves the cache alone and the block is stored. |
| `AsyncTheorems.CatchUpKeeps` | task/erc20_tx_task.go:326-357 | A catch-up round handles the next heights, moves forward when nothing fails, and never takes the empty-read skip while the next height is covered. |
| `AsyncTheorems.SkipsIff` | task/erc20_tx_task.go:336-350 | An error-free round keeps the invariant if and only if the latest height reaches the buffer size or the next block is stored; otherwise it skips a whole batch. |
| `AsyncTheorems.RunHandlesAll` | task/base_async_task.go:91-152 | For every interleaving of messages, catch-up rounds, failed reads, cut saves and restarts on a revert-free feed, the rows are those of consecutive heights up to the task number, in order, and every ERC-20 transfer log of every transaction of those heights has exactly one row and there is no other, in whatever order the feed or the tables give the transfers of a block. |
| `AsyncTheorems.CatchesUp` | task/base_async_task.go:100-118 | Error-free catch-up rounds reach the latest height in at most as many rounds as it is ahead. |
| `AsyncTheorems.MessageRoundsWedge` | task/base_async_task.go:100-113 | While behind, the loop blocks on its own channel if and only if more than ten message rounds pass since the last catch-up round. |
| `AsyncGaps.GapReached` | task/erc20_tx_task.go:332-350 | A fresh task with buffer size 10, two stored blocks and block 3 on the feed moves on to height 7 in its second catch-up round; after block 8 its number is 8 and heights 3 to 7 have no rows. |
| `AsyncGaps.WedgeReached` | task/base_async_task.go:91-150 | A fresh task whose feed starts one block ahead, delivered one block a round, waits for ever if and only if twelve blocks or more come. |
| `AsyncGaps.StaleIff` | task/base_async_task.go:138-143 | A revert of the newest block while the task is behind leaves it in the cache if and only if the cache is not empty. |
| `AsyncGaps.StaleReached` | task/base_async_task.go:121-193 | On the feed push b, revert b, push c, with no failure, a task that is behind ends with the rows of the reverted b and none of c. |
| `AsyncMirror.CaughtUpDescribes` | task/erc20_tx_task.go:259-324 | The rows a catch-up wrote are those of the chain it caught up with, block by block, the transfers of a block in the order of the feed or of the tables. |
| `AsyncMirror.CaughtUpMirrors` | task/base_async_task.go:100-136 | A task that is no longer behind after a catch-up mirrors the chain up to its height, so what it makes of the feed from there on is `AsyncMirror.MirrorsFeed`. |
| `AsyncMirror.DescribesOnce` | task/erc20_tx_task.go:259-324 | Rows that describe a chain hold exactly one ok row for every ERC-20 transfer log of every transaction of it, and no other ok row; in the order of the chain if the task wrote from the feed alone. |
| `AsyncMirror.ReceiveMirrors` | task/base_async_task.go:121-144 | A caught-up task follows one push or revert exactly, or stops with rows and number describing the chain before or after it. |
| `AsyncMirror.MirrorsFeed` | task/base_async_task.go:119-150 | A caught-up task mirrors every well-formed feed, and stops only with rows and number describing a chain the feed went through; if it wrote from the feed alone, also in the feed's order of transfers. |
| `AsyncMirror.RoundsAreFeed` | task/base_async_task.go:91-152 | Between two restarts the rounds of a caught-up task, whatever catch-up rounds are taken in between, come to receiving their messages one after the other. |
| `AsyncMirror.LivesDescribe` | task/base_async_task.go:65-152 | After any number of lives of a caught-up task, each cut short anywhere, rows and number describe a chain that the feeds of the lives went through one after the other, each from where the one before was cut short. |
| `Async.Erc20TxTask.GetBlkFromCache` | task/base_async_task.go:174-193 | The list loop drops blocks up to the one asked for, as in the specification. |
| `Async.Erc20TxTask.RemoveBlocksFromCache` | task/base_async_task.go:205-215 | At most the newest block is removed. |
| `Async.Erc20TxTask.HandleBlocks` | task/erc20_tx_task.go:259-324 | The committed chunks in a row are all transfers of the blocks in order; each chunk ends where it has enough blocks or transfers, or with the last block, and no earlier; a failure leaves whole chunks, with the number of the last block. |
| `Async.Erc20TxTask.FixHistoryData` | task/erc20_tx_task.go:326-357 | A catch-up round as in the specification, skip included. |
| `Async.Erc20TxTask.RevertBlock` | task/erc20_tx_task.go:359-414 | The rows of the block are flagged and the number steps back together, or neither. |
| `Async.Erc20TxTask.Drain` | task/base_async_task.go:119-150 | The messages of a round in order as in the specification. |
| `Async.Erc20TxTask.Pass` | task/base_async_task.go:91-152 | One pass of the loop as in the specification, the full channel included. |
| `DelayNumbering.AddKeeps` | task/block_delay_task.go:172-197 | A block no higher than one above the rear finds its place: neither Fatal is reached and heights stay consecutive. |
| `DelayNumbering.GetBlockNumber` | task/block_delay_task.go:150-169 | On the live path the block taken has the height asked for, also when the front is taken unchecked. |
| `DelayNumbering.PushKeeps` | task/block_delay_task.go:220-251 | A pushed block keeps the queue, what was sent and the task's height in order. |
| `DelayCatchUp.CatchUpKeeps` | task/block_delay_task.go:252-292 | A catch-up pass sends stored blocks at least delay deep and skips none. |
| `DelayCatchUp.SkipsIff` | task/block_delay_task.go:258-292 | An error-free catch-up pass moves on without sending if and only if the next height is not stored. |
| `DelayProgress.PassSends` | task/block_delay_task.go:266-292 | While the next height is stored, a catch-up pass sends, in order, the stored blocks of all heights up to a batch, the delay and the stored height, or up to the first failed send; the height is that of the last update. |
| `DelayProgress.FinePassSends` | task/block_delay_task.go:258-292 | Without failures the pass sends all of them and ends at the least of cur + 1 + batch, latest - delay and the stored height. |
| `DelayProgress.PassIdle` | task/block_delay_task.go:258-268 | A failed read, or nothing deep enough, leaves the task as it is. |
| `DelayProgress.CatchesUp` | task/block_delay_task.go:209-292 | With everything down to the delay stored, error-free passes bring the task to latest - delay - 1 or higher, in as many passes as there are batches; what they send is every stored block in between, once and in order. |
| `DelayProgress.AddReaches` | task/block_delay_task.go:172-197 | The queue reaches up to the higher of its rear and the new block, and loses its front only beyond its capacity. |
| `DelayProgress.AddHolds` | task/block_delay_task.go:172-197 | At each height it has the new block or the one it had there. |
| `DelayProgress.PushSends` | task/block_delay_task.go:220-251 | A pushed block that brings the rear to exactly delay above the next height has that height's block sent, from the queue or else from the tables; any other push sends nothing. |
| `DelayGaps.GapReached` | task/block_delay_task.go:252-292 | A fresh sender with delay 1 whose first send fails, with two stored blocks, moves on from height 2 to 4 in a catch-up pass without errors and sends block 5 next; heights 3 and 4 are never sent. |
| `DelayRuns.RunKeeps` | task/block_delay_task.go:207-295 | On every well-formed feed neither Fatal is reached; the queue holds at most delay+1 consecutive heights; every height sent is at least delay below the highest; before a height is sent every lower one since the start was. |
| `DelayFinality.RunFinal` | task/block_delay_task.go:172-251 | If no revert reaches delay or more below the highest block, the queue agrees with the chain at every height up to its top, and at every moment each block ever sent from the queue is the chain's block at its height. |
| `Delay.BlockQueue.FindElement` | task/block_delay_task.go:68-76 | The loop finds the first block of the height. |
| `Delay.DelayTask.AddBlock` | task/block_delay_task.go:172-197 | The queue after replacing, appending or dropping a block, and when the step is fatal. |
| `Delay.DelayTask.CatchUp` | task/block_delay_task.go:252-292 | In whatever order rows come back, a catch-up pass as in the specification. |
| `Delay.DelayTask.Pass` | task/block_delay_task.go:209-294 | One pass of the loop as in the specification. |
| `BalanceSpec.UpsertLast` | output/mysqldb/mysqldb.go:36-73 | After upserts the row of a key is the last one that names it. |
| `BalanceSpec.UpsertConcat` | output/mysqldb/mysqldb.go:36-73 | Cutting upserts into statements changes nothing. |
| `BalanceSpec.BatchAsks` | task/erc20_balance_task.go:299-334 | A batch queues exactly the senders and receivers of the ERC-20 transfer logs of its blocks, at the heights of the blocks, except for transfers of a multiple of 2^64 units. |
| `BalanceSpec.QueuedIff` | task/erc20_balance_task.go:320-334 | A transfer queues both parties if and only if its amount is not a multiple of 2^64. |
| `BalanceSpec.MissedTransfer` | task/erc20_balance_task.go:320-334 | A transfer of 2^64 units queues nobody. |
| `Balance.CacheFilter.Get` | task/cache_filter.go:32-53 | Whatever was evicted, cleaned or mistaken by the filter, a hit is the height of the key's row; an emptied cache always misses. |
| `Balance.CacheFilter.Add` | task/cache_filter.go:55-58 | The newest entry stays, the bound holds, others may go. |
| `Balance.Erc20BalanceTask.IsNeedToUpdate` | task/erc20_balance_task.go:285-293 | A refresh is skipped only if the row is as high as the block; for a key that is cached, or known to the filter, exactly then. |
| `Balance.Erc20BalanceTask.FetchBatch` | task/erc20_balance_task.go:140-224 | The rows of the slice get the height and the balances of the first answer that came from a high enough chain; without one among retryTimes + 1, the call fails; other rows, and all rows on failure, are untouched. |
| `Balance.Erc20BalanceTask.Save` | task/erc20_balance_task.go:261-282 | All rows are upserted in order or none. |
| `Balance.RecordOne` | task/erc20_balance_task.go:367-369 | Recording heights in row order leaves each cached height equal to its key's row, duplicates included. |
| `Balance.Erc20BalanceTask.HandleBlocks` | task/erc20_balance_task.go:299-370 | Afterwards cache and table agree; every key queued for a block has a row at least that high, which is either the node's answer to a request of this call or the row it had; keys no transfer names keep their rows; a failure leaves the table unchanged; with an empty cache every queued key is fetched. |
| `Balance.Erc20BalanceTask.RevertBlock` | task/erc20_balance_task.go:410-417 | The row of every key the reverted block's transfers touch is the node's answer to a request made during the call, whatever was cached. |
| `MultiCallSpec.FirstDecides` | utils/multicall.go:99-167 | The first attempt that did not fail and came from a high enough chain decides: its outputs in order, or a failed contract call; without one, all attempts are made. |
| `MultiCallSpec.BisectPartitions` | utils/multicall.go:169-201 | The sub-calls that are not split further partition the inputs in order, with one output per input; every output that is no error comes from an answer of a chain at least as high as asked for. |
| `MultiCallSpec.MinIsLowest` | utils/multicall.go:193-196 | The block number is the lowest of the answered sub-calls, and the largest int64 if none was answered. |
| `MultiCallSpec.ErrIffBad` | utils/multicall.go:169-201 | If sub-calls fail exactly on bad inputs, result i is an error if and only if input i is bad. |
| `MultiCallSpec.CallsBounded` | utils/multicall.go:169-201 | With k bad inputs among n at most 1 + 2k ceil(log2 n) aggregate calls are made. |
| `MultiCallSpec.CeilLog2Is` | utils/multicall.go:189-191 | The halving depth is the logarithm to base 2, rounded up. |
| `MultiCall.MultiCall.Aggregate` | utils/multicall.go:99-167 | The first attempt answered from a high enough chain decides; its outputs are kept in order. |
| `MultiCall.MultiCall.AggregateWithRetry` | utils/multicall.go:169-201 | The recursion terminates, and its merged result is the outputs and the lowest block number of the bisection. |
| `Erc721Spec.NftsListed` | task/erc721_task.go:243-275 | The ERC-721 transfers of a block are, in order and each once, those of its logs with the Transfer topic and three more, field by field. |
| `Erc721Spec.NftRows` | task/erc721_task.go:191-275 | The rows of blocks in tx_erc721 are one for each such log of the blocks, in their order, and no other. |
| `Erc721Spec.UndoInverts` | task/erc721_task.go:338-383 | Undoing a block's transfers restores every owner, if each transfer's sender owned the token then. |
| `Erc721Spec.OwnersFollowFeed` | task/erc721_task.go:236-383 | After any feed of applied and reverted blocks whose transfers come in execution order, each sender owning the token it transfers, every owner is the one the chain the feed leads to gives. |
| `Erc721Order.AnyDeliveryTakesIff` | fetch/fetch.go:254-275 | Every order in which the groups of a block's transactions may be put together gives the owners of the execution order if and only if any two groups that move a token have the same last receiver for it. |
| `Erc721Order.AnyDeliveryUndoesIff` | fetch/fetch.go:448-497 | Every such order is taken back alike if and only if any two groups that move a token of the table have the same first sender for it. |
| `Erc721Order.OneGroupInOrder` | fetch/fetch.go:254-275 | A block of no more transactions than one group is delivered in execution order. |
| `Erc721Order.OwnersFollowExecution` | task/erc721_task.go:236-383 | However the workers order groups that agree, after any feed every owner is the one that executing the blocks of the chain gives. |
| `Erc721Order.OrderLost` | fetch/fetch.go:484-490 | For every group size a block of one transaction more, delivered in another order, leaves its token with b where execution gives it to c, and with b instead of a when it is taken back. |
| `Erc721Spec.UndoIsFirstSender` | task/erc721_task.go:351-382 | Undoing transfer by transfer sets each token to the sender of its first transfer and touches nothing else. |
| `Erc721Spec.RowsApplyAll` | output/mysqldb/mysqldb.go:245-279 | However blocks are cut into chunks and statements, the last-wins upserts amount to applying block after block. |
| `Erc721Spec.TakeTwice` | task/erc721_task.go:191-205 | Writing a chunk again after a crash changes no owner. |
| `Erc721.JoinedInjective` | task/erc721_task.go:354-364 | Contract addresses of one length keep the joined map keys apart. |
| `Erc721.Erc721Task.InsertTokens` | output/mysqldb/mysqldb.go:245-279 | The batched upserts are the row-by-row ones. |
| `Erc721.Erc721Task.HandleBlocks` | task/erc721_task.go:236-301 | Rows and owners are those of the first m blocks, all of them unless a transaction fails; the blocks the task number lags behind are no more than one chunk, which without its last block reaches neither limit. |
| `Erc721.Erc721Task.RevertOwners` | task/erc721_task.go:349-382 | The map of first senders and the updates from it are the undo of the block. |
| `Erc721.Erc721Task.DoRevert` | task/erc721_task.go:338-414 | Owners, row flags and the task number change together or not at all. |
| `DexPairSpec.LogsSorted` | task/dex_pair_task.go:248-254 | The logs that are scanned are those of all the block's transactions, each once, by increasing index. |
| `DexPairSpec.ScanIsLastSync` | task/dex_pair_task.go:255-286 | The reverse scan yields each pair with a decodable Sync log once, with the reserves of a forward last-wins fold. |
| `DexPairSpec.InLastSync` | task/dex_pair_task.go:259-286 | A pair is yielded if and only if the block has a decodable Sync log of it. |
| `DexPairSpec.OrderIrrelevant` | task/dex_pair_task.go:248-254 | With unique log indices the order of a block's transactions makes no difference. |
| `DexPairSpec.FeedShows` | task/dex_pair_task.go:243-416 | Whatever is reverted, each pair has the reserves of its last Sync among all blocks ever announced, and exactly the pairs of those blocks have a row. |
| `DexPairSpec.ReorgShowsIff` | task/dex_pair_task.go:414-416 | After old blocks were taken back and new ones announced, the table shows the chain's reserves of a pair if and only if the new blocks synced it, or the old ones did not, or it had the same reserves before the old ones. |
| `DexPair.DexPairTask.IsNeedToGetPairTokens` | task/dex_pair_task.go:115-128 | The answer is whether the pair has no row; cached addresses always have one. |
| `DexPair.DexPairTask.Scan` | task/dex_pair_task.go:256-286 | The two lists hold the last Sync of each pair, split by whether the pair has a row. |
| `DexPair.SavedPairs` | output/mysqldb/mysqldb.go:465-538 | The reserve-only upsert finds a row for each of its pairs, so no row without tokens is created and no tokens change. |
| `DexPair.DexPairTask.HandleBlock` | task/dex_pair_task.go:243-360 | Afterwards each pair of the block has the reserves of its last Sync, new pairs have their tokens, nothing else has changed. |
| `DexPair.DexPairTask.RevertBlock` | task/dex_pair_task.go:414-416 | Only the height moves: table and task number stay, which is what `DexPairSpec.FeedShows` takes a revert for. |
| `QuerySpec.ChunksFindAll` | output/mysqldb/query.go:136-162 | Querying the hashes chunk by chunk finds each transaction of the range exactly as often as querying them at once. |
| `QuerySpec.PlansAgree` | output/mysqldb/query.go:99-200 | For any tables, filter and hash order, both plans give each block the same transactions with the same ordered logs, once those without matching logs are dropped. |
| `QuerySpec.LoadedIff` | output/mysqldb/query.go:99-162 | The log-first plan loads exactly the transactions of the range that are ok, or all if asked for, and have a log row the query asks for, each with those logs. |
| `QuerySpec.AskedIn` | output/mysqldb/query.go:99-117 | A log row is found if and only if it is of the range, ok unless all rows are wanted, and each column meets its condition. |
| `QuerySpec.LogsForRows` | output/mysqldb/query.go:118-127 | The logs of a hash are those of its rows, each once, in their order. |
| `QuerySpec.LogsInOrder` | output/mysqldb/query.go:118-127 | A transaction's logs keep the order of their indices. |
| `QuerySpec.OrderKeptIff` | output/mysqldb/query.go:132-162 | The transactions of a range come out in block and index order if and only if no chunk of hashes has a row after one of a later chunk. |
| `QuerySpec.BlockOrderKeptIff` | output/mysqldb/query.go:132-200 | The log-first plan gives a block its transactions in index order if and only if that holds of the rows of the block. |
| `QuerySpec.AnyOrderKeptIff` | output/mysqldb/query.go:132-162 | With a row for every hash, every order in which the map may be walked gives sorted transactions if and only if the hashes fit one chunk. |
| `QuerySpec.OrderLost` | output/mysqldb/query.go:132-200 | For a block of one transaction more than a chunk, all rows and logs stored, an order of the map's keys under which its transactions are not in index order. |
| `Query.ConvertOutLogs` | output/mysqldb/query.go:123-126 | Grouping in a loop gives each hash its logs in order. |
| `Query.LoadByHash` | output/mysqldb/query.go:136-162 | The chunk loop is the chunked query of the specification. |
| `Query.GetBlocks` | output/mysqldb/query.go:77-200 | The maps filled in loops give each block the transactions of its plan. |
| `Sorting.SortErasesArrival` | fetch/fetch.go:154-156 | Sorting by a unique number undoes any order of arrival. |
| `Sorting.SortFilter` | output/mysqldb/query.go:155-200 | Selecting the rows of a block after ordering is ordering the selected rows. |
| `Pipeline.FeedLeads` | fetch/fetch.go:83-205 | From the stored chain at start-up, every feed the fetcher publishes leads to a chain whose top is just below its height. |
| `Pipeline.TablesFollowFetcher` | process/process.go:84-88 | Whatever the node answers and whenever saves fail, tables plus buffer hold the chain the fetcher believes in, and the tables alone one that its feed went through. |
| `Pipeline.TablesConverge` | process/process.go:84-88 | On a fixed chain and without failures the tables end up holding the node's chain, from the stored chain's first height up to end - 1, from any fork among the blocks loaded at start-up. |
| `Pipeline.LivesFollowFetcher` | process/process.go:84-88 | After any number of lives, each with a node that may answer anything and a storage task that receives any first part of what the fetcher published, the tables hold a chain that these parts went through one after the other, with one ok block row a height, whose top the next life resumes from. |
| `Pipeline.DelayFollowsFetcher` | process/process.go:84-88 | The delayed sender meets no unexpected height on anything the fetcher publishes. |
| `Pipeline.DelayFinalOnFetcher` | process/process.go:84-88 | With a delay above 2 * BlocksSafe, every block the delayed sender takes from its queue on the fetcher's feed stays the chain's block at its height. |
| `Pipeline.Erc20FollowsFetcher` | process/process.go:84-88 | A caught-up ERC-20 task mirrors whatever the fetcher publishes. |

## Left out

- RPC, JSON, hex and ABI coding, message producers, HTTP, configuration and logging: their results are inputs or oracles.
- MySQL and xorm: tables are values, a statement's rows take effect in order, an unordered `Find` returns any order.
- Goroutines, channels, timers and mutexes inside worker pools (fetch/fetch.go:448-497, 684-755): only the order of results is arbitrary.
- The receipts a worker fetches for its group (fetch/fetch.go:334-434): a group comes back whole and in order, or the block is fetched again.
- The `contract` table: reverts do not touch it, so it has no invariant to state.
- erc20_info and erc721_info rows, token names and supplies, and `getOrigin`: no other state depends on them.
- Address normalisation and the decimal text of token ids and amounts (the 65-digit cut of `TokenCnt`): topics and numbers stand for themselves.
- What an asynchronous task comes to once a revert has left a stale block in its cache: `AsyncGaps.StaleReached` shows that its rows are then those of no chain, so there is no invariant to state beyond `AsyncGaps.StaleIff`.
- A restart with a task ahead of the feed, and messages sent before a task has subscribed.
- The other asynchronous clients (ERC-1155, native balances, push tasks, internal transactions): they repeat the same loop.
- The internal-transaction part of the block loader (output/mysqldb/query.go:202-233) queries without a condition on logs, and conditions on transactions: the same maps with fewer rows.
- Interrupts of the fetcher: a stopped run is a shorter list of turns.
- The descending sort of walked blocks (fetch/fetch.go:127-129): they are already in that order, as `FetchProofs.WalkDescends` states.
- Balance.Erc20BalanceTask.HandleBlocks: covers the batch-RPC path only; on the multicall path elements that failed keep the height of their block without a value, so the statement about heights is not made there.
- DelayFinality.RunFinal: speaks of blocks taken from the queue; for blocks read from the tables only their heights are claimed, since the tables may lag behind a reorganisation.
- AsyncTheorems.RunHandlesAll: assumes a revert-free feed whose first block after a start is at most one above the stored blocks, that is never more than bufferSize ahead of them, and that each catch-up round finds the next height covered. For the last of these `AsyncTheorems.SkipsIff` gives, for one round, the exact condition; for the others no converse is stated.
- StorageTheorems.LivesHoldChain: each life's feed is assumed to start from the chain the tables were left with; `Pipeline.LivesFollowFetcher` derives that from a fetcher that resumes from the tables, for lives without a configured start height. A table left without any block resumes at height 1 only.
- AsyncMirror.LivesDescribe: each life's feed is assumed to start from the chain the committed rows were left with; a task that was ahead of or behind the block tables when the process died is not followed through the restart.
- Erc721Spec.OwnersFollowFeed: assumes each block's transfers in execution order; what other orders come to is stated in `Erc721Order`, for the order of whole groups.
- Erc721.Erc721Task.HandleBlocks: the rows of a chunk and the task number are two transactions, as in the source, so a crash between them writes the chunk's tx_erc721 rows twice; only the owners are unaffected.
- MultiCallSpec.BisectPartitions: assumes that the aggregate contract answers with one output per input; with fewer the source would leave nil entries, with more it would index out of range.
