/** The asynchronous ERC-20 task as the program runs it: sliding cache, chunked saves and the message loop. */
module Async {
  import opened Chain
  import opened Table
  import opened AsyncSpec
  import AsyncTheorems

  class Erc20TxTask {
    const cfg: Config
    const retryTimes: nat
    // Whether the n-th transaction fails.
    const fails: nat -> bool

    var curHeight: nat
    var latestHeight: nat
    var tokens: nat
    var cache: seq<Block>
    var store: Store
    var clock: nat
    // How many transactions failed so far.
    ghost var failures: nat

    ghost function St(): Task
      reads this
    {
      Task(curHeight, latestHeight, tokens, cache, store)
    }

    constructor (cfg: Config, retryTimes: nat, fails: nat -> bool, store: Store)
      ensures this.cfg == cfg && this.retryTimes == retryTimes && St() == Fresh(store)
    {
      this.cfg, this.retryTimes, this.fails := cfg, retryTimes, fails;
      curHeight, latestHeight, tokens, cache := store.number, 0, 0, [];
      this.store := store;
      clock, failures := 0, 0;
    }

    // One transaction, retried: it takes effect as a whole, or the retries run out.
    method Transact(next: Store) returns (alive: bool)
      modifies this`store, this`clock, this`failures
      ensures store == if alive then next else old(store)
      ensures failures >= old(failures) && (!alive ==> failures > old(failures) + retryTimes)
    {
      var inc := 0;
      while true
        invariant inc <= retryTimes && failures == old(failures) + inc && store == old(store)
        decreases retryTimes - inc
      {
        var err := fails(clock);
        clock := clock + 1;
        if !err {
          store := next;
          return true;
        }
        failures := failures + 1;
        inc := inc + 1;
        if inc > retryTimes {
          return false;
        }
      }
    }

    // Takes the block of the given height out of the cache, and every older one with it.
    method GetBlkFromCache(height: nat) returns (found: seq<Block>)
      modifies this`cache
      ensures Lookup(found, cache) == FromCache(old(cache), height)
    {
      if |cache| == 0 || height < cache[0].number {
        return [];
      }
      while |cache| != 0
        invariant Scan(cache, height) == Scan(old(cache), height)
      {
        var b := cache[0];
        cache := cache[1..];
        if b.number == height {
          return [b];
        }
      }
      found := [];
    }

    method AddBlockToCache(b: Block)
      requires 1 <= cfg.bufferSize
      modifies this`cache
      ensures cache == AddToCache(old(cache), cfg.bufferSize, b)
    {
      if |cache| >= cfg.bufferSize {
        cache := cache[1..];
      }
      cache := cache + [b];
    }

    method RemoveBlocksFromCache(height: nat)
      modifies this`cache
      ensures cache == RemoveFromCache(old(cache), height)
    {
      var more := |cache| != 0;
      while more && cache[|cache| - 1].number >= height
        invariant more ==> cache == old(cache) && cache != []
        invariant !more ==> cache == RemoveFromCache(old(cache), height)
        decreases more
      {
        cache := cache[..|cache| - 1];
        more := false;
      }
    }

    // The transfers among the logs of one transaction.
    method CollectTx(tx: Tx) returns (found: seq<Transfer>)
      ensures found == TransfersOfTx(tx.hash, tx.logs)
    {
      found := [];
      var j := 0;
      assert tx.logs[0..] == tx.logs;
      while j < |tx.logs|
        invariant 0 <= j <= |tx.logs| && found + TransfersOfTx(tx.hash, tx.logs[j..]) == TransfersOfTx(tx.hash, tx.logs)
      {
        var l := tx.logs[j];
        assert tx.logs[j..][0] == l && tx.logs[j..][1..] == tx.logs[j + 1..];
        if IsErc20Tx(l) {
          found := found + [Transfer(tx.hash, l.addr, l.topic1, l.topic2, l.value, l.index)];
        }
        j := j + 1;
      }
    }

    // The rows of one block.
    method Collect(b: Block) returns (rows: Rows<Transfer>)
      ensures rows == RowsOf(b.number, Transfers(b))
    {
      var found: seq<Transfer> := [];
      var i := 0;
      assert b.txs[0..] == b.txs;
      while i < |b.txs|
        invariant 0 <= i <= |b.txs| && found + TransfersOf(b.txs[i..]) == Transfers(b)
      {
        assert b.txs[i..][0] == b.txs[i] && b.txs[i..][1..] == b.txs[i + 1..];
        var more := CollectTx(b.txs[i]);
        found := found + more;
        i := i + 1;
      }
      rows := seq(|found|, k requires 0 <= k < |found| => Row(b.number, Ok, found[k]));
      assert rows == RowsOf(b.number, found);
    }

    // The blocks a..b have as many blocks or transfers as a chunk may have.
    ghost predicate Full(blks: seq<Block>, a: nat, b: nat)
      requires a <= b <= |blks|
    {
      b - a >= cfg.maxBlocks || |Part(Transfers, blks[a..b])| >= cfg.maxTxs
    }

    // Chunk k ends where it is full, or with the last block, and no earlier.
    ghost predicate ChunkAt(blks: seq<Block>, chunks: seq<Rows<Transfer>>, ends: seq<nat>, k: nat) {
      k < |ends| && k < |chunks| ==>
        var a := if k == 0 then 0 else ends[k - 1];
        && a < ends[k] <= |blks| && chunks[k] == Part(Transfers, blks[a..ends[k]])
        && (a + 1 < ends[k] ==> !Full(blks, a, ends[k] - 1)) && (ends[k] < |blks| ==> Full(blks, a, ends[k]))
    }

    // Where the last chunk ends.
    ghost predicate ChunksTo(blks: seq<Block>, chunks: seq<Rows<Transfer>>, ends: seq<nat>, m: nat) {
      && |ends| == |chunks| && m == (if ends == [] then 0 else ends[|ends| - 1])
      && forall k: nat :: ChunkAt(blks, chunks, ends, k)
    }

    lemma ChunkNext(blks: seq<Block>, chunks: seq<Rows<Transfer>>, ends: seq<nat>, m: nat, i: nat)
      requires ChunksTo(blks, chunks, ends, m) && m < i <= |blks|
      requires m + 1 < i ==> !Full(blks, m, i - 1)
      requires i < |blks| ==> Full(blks, m, i)
      ensures ChunksTo(blks, chunks + [Part(Transfers, blks[m..i])], ends + [i], i)
    {
      hide Full, Part;
      var chunks', ends' := chunks + [Part(Transfers, blks[m..i])], ends + [i];
      forall k: nat ensures ChunkAt(blks, chunks', ends', k) {
        assert ChunkAt(blks, chunks, ends, k);
      }
    }

    // The first m blocks are written, in chunks, and the task is at the height of the last of them.
    ghost predicate Written(s0: Store, cur0: nat, blks: seq<Block>, m: nat, s: Store, cur: nat,
            chunks: seq<Rows<Transfer>>, ends: seq<nat>) {
      && m <= |blks| && s == Saved(s0, blks[..m]) && cur == (if m == 0 then cur0 else blks[m - 1].number)
      && AllRows(chunks) == Part(Transfers, blks[..m]) && ChunksTo(blks, chunks, ends, m)
    }

    // The rows of the blocks m..i wait to be written, and do not fill a chunk yet.
    ghost predicate Pending(blks: seq<Block>, m: nat, i: nat, rows: Rows<Transfer>) {
      m <= i <= |blks| && rows == Part(Transfers, blks[m..i]) && (m < i ==> !Full(blks, m, i))
    }

    lemma Begin(s: Store, cur: nat, blks: seq<Block>)
      ensures Written(s, cur, blks, 0, s, cur, [], []) && Pending(blks, 0, 0, [])
    {
      NoChunks(s, blks);
    }

    // One more block's rows: the chunk is full now, or they wait too.
    lemma NextRows(blks: seq<Block>, m: nat, i: nat, rows: Rows<Transfer>, more: Rows<Transfer>)
      requires Pending(blks, m, i, rows) && i < |blks| && more == RowsOf(blks[i].number, Transfers(blks[i]))
      ensures rows + more == Part(Transfers, blks[m..i + 1])
      ensures i + 1 - m < cfg.maxBlocks && |rows + more| < cfg.maxTxs ==> Pending(blks, m, i + 1, rows + more)
    {
      RowsOfNext(blks, m, i);
    }

    // The rows of the blocks m..i and of block i in one transaction.
    method SaveChunk(blks: seq<Block>, ghost m: nat, i: nat, ghost before: Rows<Transfer>, rows: Rows<Transfer>,
            ghost s0: Store, ghost cur0: nat, ghost chunks: seq<Rows<Transfer>>, ghost ends: seq<nat>)
      returns (alive: bool, ghost chunks': seq<Rows<Transfer>>, ghost ends': seq<nat>)
      requires i < |blks| && Pending(blks, m, i, before) && rows == Part(Transfers, blks[m..i + 1])
      requires Written(s0, cur0, blks, m, store, curHeight, chunks, ends)
      requires i + 1 - m >= cfg.maxBlocks || |rows| >= cfg.maxTxs || i + 1 == |blks|
      modifies this`curHeight, this`store, this`clock, this`failures
      ensures Written(s0, cur0, blks, if alive then i + 1 else m, store, curHeight, chunks', ends')
      ensures Pending(blks, i + 1, i + 1, [])
      ensures failures >= old(failures) && (!alive ==> failures > old(failures) + retryTimes)
    {
      hide Saved, AllRows, ChunksTo, Transfers;
      ChunkExtends(s0, blks, m, i + 1, chunks);
      ChunkNext(blks, chunks, ends, m, i + 1);
      NoRows(blks, i + 1);
      hide Part, Full;
      alive := Transact(Store(store.rows + rows, blks[i].number));
      chunks', ends' := chunks, ends;
      if alive {
        curHeight := blks[i].number;
        chunks', ends' := chunks + [rows], ends + [i + 1];
      }
    }

    // Writes the transfers of the blocks in chunks that end when a chunk has enough blocks or transfers. A failure
    // leaves the first m blocks written.
    method WriteChunks(blks: seq<Block>)
      returns (alive: bool, ghost m: nat, ghost chunks: seq<Rows<Transfer>>, ghost ends: seq<nat>)
      modifies this`curHeight, this`store, this`clock, this`failures
      ensures Written(old(store), old(curHeight), blks, m, store, curHeight, chunks, ends) && (alive ==> m == |blks|)
      ensures failures >= old(failures) && (!alive ==> failures > old(failures) + retryTimes)
    {
      var rows: Rows<Transfer> := [];
      var blkCount := 0;
      m, chunks, ends := 0, [], [];
      var i := 0;
      Begin(store, curHeight, blks);
      hide Part, RowsOf, Written, Pending, Transfers;
      while i < |blks|
        invariant 0 <= m <= i <= |blks| && blkCount == i - m && (i == |blks| ==> m == i)
        invariant Written(old(store), old(curHeight), blks, m, store, curHeight, chunks, ends)
        invariant Pending(blks, m, i, rows) && failures >= old(failures)
      {
        blkCount := blkCount + 1;
        var more := Collect(blks[i]);
        NextRows(blks, m, i, rows, more);
        ghost var before := rows;
        rows := rows + more;
        if blkCount >= cfg.maxBlocks || |rows| >= cfg.maxTxs || i == |blks| - 1 {
          alive, chunks, ends := SaveChunk(blks, m, i, before, rows, old(store), old(curHeight), chunks, ends);
          if !alive {
            return;
          }
          m := i + 1;
          blkCount := 0;
          rows := [];
        }
        i := i + 1;
      }
      alive := true;
    }

    // chunks are what was written, one transaction each; chunk k ends before block ends[k].
    method HandleBlocks(blks: seq<Block>)
      returns (alive: bool, ghost fate: Fate, ghost chunks: seq<Rows<Transfer>>, ghost ends: seq<nat>)
      requires blks != []
      modifies this`curHeight, this`store, this`clock, this`failures
      ensures match AsyncSpec.HandleBlocks(old(St()), blks, fate)
              case Alive(a) => alive && St() == a && AllRows(chunks) == Part(Transfers, blks)
              case _ => !alive
      ensures !alive ==> store == Durable(AsyncSpec.HandleBlocks(old(St()), blks, fate))
      ensures ChunksTo(blks, chunks, ends, if fate.Dies? then fate.m else |blks|)
      ensures failures >= old(failures) && (!alive ==> failures > old(failures) + retryTimes)
    {
      hide Part, AllRows, Full, ChunkAt;
      ghost var m;
      alive, m, chunks, ends := WriteChunks(blks);
      fate := if alive then Lives else Dies(m);
      assert blks[..|blks|] == blks;
    }

    // One catch-up round: read the next blocks from the tables or the cache, and handle them.
    method FixHistoryData(db: Db, dbErr: bool) returns (alive: bool, ghost fate: Fate)
      modifies this`curHeight, this`cache, this`store, this`clock, this`failures
      ensures match CatchUp(cfg, old(St()), db, dbErr, fate)
              case Alive(a) => alive && St() == a
              case _ => !alive && store == Durable(CatchUp(cfg, old(St()), db, dbErr, fate))
      ensures failures >= old(failures) && (!alive ==> failures > old(failures) + retryTimes)
    {
      var start := Add64(curHeight, 1);
      var end := Sub64(Add64(start, cfg.batch), 1);
      var blks: seq<Block> := [];
      var err := false;
      if curHeight < Sub64(latestHeight, cfg.bufferSize) {
        err := dbErr;
        if !err {
          blks := ReadRange(db, start, end);
        }
      } else {
        blks := GetBlkFromCache(start);
        if blks == [] {
          err := dbErr;
          if !err && start <= db.stored {
            blks := [db.at(start)];
          }
        }
      }
      alive, fate := true, Lives;
      if |blks| == 0 || err {
        if !err {
          curHeight := end;
        }
        return;
      }
      ghost var chunks, ends;
      alive, fate, chunks, ends := HandleBlocks(blks);
    }

    method RevertBlock(b: Block) returns (alive: bool)
      modifies this`store, this`clock, this`failures
      ensures store == if alive then RevertStore(old(store), b.number) else old(store)
      ensures failures >= old(failures) && (!alive ==> failures > old(failures) + retryTimes)
    {
      alive := Transact(RevertStore(store, b.number));
    }

    // One message.
    method OnBlock(e: Event) returns (alive: bool, ghost fate: Fate)
      requires 1 <= cfg.bufferSize
      modifies this`curHeight, this`latestHeight, this`cache, this`store, this`clock, this`failures
      ensures match Receive(cfg, old(St()), Delivery(e, fate))
              case Alive(a) => alive && St() == a
              case _ => !alive && store == Durable(Receive(cfg, old(St()), Delivery(e, fate)))
      ensures failures >= old(failures) && (!alive ==> failures > old(failures) + retryTimes)
    {
      alive, fate := true, Lives;
      match e
      case Push(b) =>
        latestHeight := b.number;
        if Add64(curHeight, 1) == b.number {
          ghost var chunks, ends;
          alive, fate, chunks, ends := HandleBlocks([b]);
        } else if Add64(curHeight, 1) < b.number {
          AddBlockToCache(b);
        }
      case Pop(b) =>
        if curHeight >= b.number {
          RemoveBlocksFromCache(b.number);
          alive := RevertBlock(b);
          if !alive {
            return false, Dies(0);
          }
          curHeight := Sub64(b.number, 1);
        }
        latestHeight := Sub64(b.number, 1);
    }

    // Reads messages until the channel is empty.
    method Drain(events: seq<Event>) returns (alive: bool, ghost ds: seq<Delivery>)
      requires 1 <= cfg.bufferSize
      modifies this`curHeight, this`latestHeight, this`cache, this`store, this`clock, this`failures
      ensures |ds| <= |events| && forall i {:trigger ds[i]} :: 0 <= i < |ds| ==> ds[i].event == events[i]
      ensures match ReceiveAll(cfg, old(St()), ds)
              case Alive(a) => alive && |ds| == |events| && St() == a
              case _ => !alive && store == Durable(ReceiveAll(cfg, old(St()), ds))
      ensures failures >= old(failures) && (!alive ==> failures > old(failures) + retryTimes)
    {
      ds := [];
      var i := 0;
      while i < |events|
        invariant 0 <= i <= |events| && |ds| == i
        invariant forall j {:trigger ds[j]} :: 0 <= j < |ds| ==> ds[j].event == events[j]
        invariant ReceiveAll(cfg, old(St()), ds) == Reached.Alive(St())
        invariant failures >= old(failures)
      {
        ghost var fate;
        ghost var a := St();
        alive, fate := OnBlock(events[i]);
        ReceiveSnoc(cfg, old(St()), ds, a, Delivery(events[i], fate));
        ds := ds + [Delivery(events[i], fate)];
        if !alive {
          return;
        }
        i := i + 1;
      }
      alive := true;
    }

    // One pass of the loop. picked says that select takes the catch-up channel; it can only if a token is there.
    method Pass(db: Db, picked: bool, dbErr: bool, events: seq<Event>) returns (alive: bool, ghost round: Round)
      requires 1 <= cfg.bufferSize
      modifies this`curHeight, this`latestHeight, this`tokens, this`cache, this`store, this`clock, this`failures
      ensures match Turn(cfg, old(St()), db, round)
              case Alive(a) => alive && St() == a
              case _ => !alive && store == Durable(Turn(cfg, old(St()), db, round))
      ensures round.Compensate? <==> picked
      ensures failures >= old(failures)
    {
      round := if picked then Compensate(dbErr, Lives) else Messages([]);
      if (cfg.endNumber != 0 && curHeight >= cfg.endNumber) || (curHeight < latestHeight && tokens == TOKENS) {
        return false, round;
      }
      if curHeight < latestHeight {
        tokens := tokens + 1;
      }
      alive := true;
      if picked {
        if tokens != 0 {
          tokens := 0;
          ghost var fate;
          alive, fate := FixHistoryData(db, dbErr);
          round := Compensate(dbErr, fate);
        }
      } else {
        ghost var ds;
        alive, ds := Drain(events);
        round := Messages(ds);
      }
    }
  }

  function AllRows(chunks: seq<Rows<Transfer>>): Rows<Transfer> {
    if chunks == [] then [] else AllRows(chunks[..|chunks| - 1]) + chunks[|chunks| - 1]
  }

  lemma NoChunks(s: Store, blks: seq<Block>)
    ensures AllRows([]) == [] == Part(Transfers, blks[..0]) && Saved(s, blks[..0]) == s
    ensures blks[0..0] == blks[..0]
  {
  }

  lemma NoRows(blks: seq<Block>, i: nat)
    requires i <= |blks|
    ensures Part(Transfers, blks[i..i]) == []
  {
  }

  lemma RowsOfNext(blks: seq<Block>, m: nat, i: nat)
    requires m <= i < |blks|
    ensures Part(Transfers, blks[m..i]) + RowsOf(blks[i].number, Transfers(blks[i])) == Part(Transfers, blks[m..i + 1])
  {
    assert blks[m..i + 1][..i - m] == blks[m..i];
  }

  // One more chunk written on top of the first m blocks.
  lemma ChunkExtends(s: Store, blks: seq<Block>, m: nat, i: nat, chunks: seq<Rows<Transfer>>)
    requires m < i <= |blks| && AllRows(chunks) == Part(Transfers, blks[..m])
    ensures var s' := Saved(s, blks[..m]); var rows := Part(Transfers, blks[m..i]);
            && Saved(s, blks[..i]) == Store(s'.rows + rows, blks[i - 1].number)
            && AllRows(chunks + [rows]) == Part(Transfers, blks[..i])
  {
    var rows := Part(Transfers, blks[m..i]);
    hide Part, AllRows, Saved;
    PartUpTo(blks, m, i);
    AllRowsSnoc(chunks, rows);
    SavedRows(s, blks[..m]);
    SavedRows(s, blks[..i]);
    ConcatAssociates(s.rows, Part(Transfers, blks[..m]), rows);
  }

  lemma PartUpTo(blks: seq<Block>, m: nat, i: nat)
    requires m <= i <= |blks|
    ensures Part(Transfers, blks[..i]) == Part(Transfers, blks[..m]) + Part(Transfers, blks[m..i])
  {
    AsyncTheorems.PartConcat(Transfers, blks[..m], blks[m..i]);
    assert blks[..i] == blks[..m] + blks[m..i];
  }

  lemma ConcatAssociates<T>(a: seq<T>, b: seq<T>, c: seq<T>)
    ensures a + (b + c) == a + b + c
  {
  }

  lemma AllRowsSnoc(chunks: seq<Rows<Transfer>>, rows: Rows<Transfer>)
    ensures AllRows(chunks + [rows]) == AllRows(chunks) + rows
  {
    assert (chunks + [rows])[..|chunks|] == chunks;
  }

  lemma SavedRows(s: Store, blks: seq<Block>)
    ensures Saved(s, blks).rows == s.rows + Part(Transfers, blks)
    ensures blks != [] ==> Saved(s, blks).number == blks[|blks| - 1].number
  {
    if blks == [] {
      assert s.rows + Part(Transfers, blks) == s.rows;
    }
  }

  lemma {:induction false} ReceiveSnoc(cfg: Config, a0: Task, ds: seq<Delivery>, a: Task, d: Delivery)
    requires 1 <= cfg.bufferSize && ReceiveAll(cfg, a0, ds) == Reached.Alive(a)
    ensures ReceiveAll(cfg, a0, ds + [d]) == Receive(cfg, a, d)
    decreases |ds|
  {
    if ds == [] {
      assert (ds + [d])[1..] == [];
    } else {
      assert (ds + [d])[0] == ds[0] && (ds + [d])[1..] == ds[1..] + [d];
      ReceiveSnoc(cfg, Receive(cfg, a0, ds[0]).task, ds[1..], a, d);
    }
  }
}
