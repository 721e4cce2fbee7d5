/** The storage task as the program runs it: per-block transactions, retries and the event loop. */
module Storage {
  import opened Chain
  import opened Table
  import opened StorageSpec
  import StorageProofs

  class StorageTask {
    const limits: Limits
    const sqlBatch: nat
    const retryTimes: nat
    // Whether the n-th database operation fails.
    const fails: nat -> bool

    var tables: Tables
    var clock: nat
    // How many operations failed so far.
    ghost var failures: nat
    var curHeight: nat
    var blocks: seq<Block>
    var txCount: nat
    var logCount: nat

    ghost function St(): Task
      reads this
    {
      Task(tables, curHeight, blocks, txCount, logCount)
    }

    constructor (limits: Limits, sqlBatch: nat, retryTimes: nat, fails: nat -> bool, startHeight: nat, tables: Tables)
      ensures this.limits == limits && this.sqlBatch == sqlBatch && St() == Resume(tables, startHeight)
    {
      this.limits, this.sqlBatch, this.retryTimes, this.fails := limits, sqlBatch, retryTimes, fails;
      this.tables := tables;
      clock, failures := 0, 0;
      curHeight := if startHeight != 0 then startHeight - 1 else GetCurrentMainBlockNum(tables);
      blocks, txCount, logCount := [], 0, 0;
    }

    method Fails() returns (failed: bool)
      modifies this`clock, this`failures
      ensures failures == old(failures) + if failed then 1 else 0
    {
      failed := fails(clock);
      clock := clock + 1;
      failures := failures + if failed then 1 else 0;
    }

    // Inserts rows at most sqlBatch at a time.
    method Insert<T>(table: Rows<T>, rows: Rows<T>) returns (err: bool, r: Rows<T>)
      requires 1 <= sqlBatch
      modifies this`clock, this`failures
      ensures !err ==> r == table + rows
      ensures failures == old(failures) + if err then 1 else 0
    {
      r := table;
      var i := 0;
      while i < |rows|
        invariant 0 <= i <= |rows| && r == table + rows[..i] && failures == old(failures)
      {
        var end := i + sqlBatch;
        if end > |rows| {
          end := |rows|;
        }
        err := Fails();
        if err {
          return;
        }
        assert rows[..end] == rows[..i] + rows[i..end];
        r := r + rows[i..end];
        i := end;
      }
      err := false;
    }

    // One block in one transaction; a failure anywhere leaves the tables as they were.
    method SaveBlock(b: Block) returns (err: bool)
      requires 1 <= sqlBatch
      modifies this`tables, this`clock, this`failures
      ensures tables == if err then old(tables) else SaveOne(old(tables), b)
      ensures failures == old(failures) + if err then 1 else 0
    {
      err := Fails();
      if err || HasOk(tables.blocks, b.number) {
        return;
      }
      err := Fails();
      if err {
        return;
      }
      var s := tables;
      var headers, internals, txs, logs;
      err, headers := Insert(s.blocks, RowsOf(b.number, Headers(b)));
      if err {
        return;
      }
      err, internals := Insert(s.internals, RowsOf(b.number, Internals(b)));
      if err {
        return;
      }
      err, txs := Insert(s.txs, RowsOf(b.number, Hashes(b)));
      if err {
        return;
      }
      err, logs := Insert(s.logs, RowsOf(b.number, Logs(b)));
      if err {
        return;
      }
      err := Fails();
      if !err {
        tables := Tables(headers, txs, logs, internals);
      }
    }

    // Saves block by block; after a failure the first k blocks are committed.
    method SaveBlocks(batch: seq<Block>) returns (err: bool, ghost k: nat)
      requires 1 <= sqlBatch
      modifies this`tables, this`clock, this`failures
      ensures k <= |batch| && tables == SaveAll(old(tables), batch[..k])
      ensures !err ==> k == |batch|
      ensures failures == old(failures) + if err then 1 else 0
    {
      var i := 0;
      assert batch[..0] == [];
      while i < |batch|
        invariant 0 <= i <= |batch| && tables == SaveAll(old(tables), batch[..i]) && failures == old(failures)
      {
        err := SaveBlock(batch[i]);
        if err {
          k := i;
          return;
        }
        SaveOneMore(old(tables), batch, i);
        i := i + 1;
      }
      err, k := false, i;
    }

    // Retries the save; each attempt starts over and skips what is committed already.
    method SaveWithRetry(batch: seq<Block>) returns (alive: bool, ghost k: nat)
      requires 1 <= sqlBatch
      modifies this`tables, this`clock, this`failures
      ensures k <= |batch| && tables == SaveAll(old(tables), batch[..k])
      ensures alive ==> k == |batch|
      ensures failures >= old(failures) && (!alive ==> failures > old(failures) + retryTimes)
    {
      var inc := 0;
      k := 0;
      assert batch[..0] == [];
      while true
        invariant inc <= retryTimes && failures == old(failures) + inc && k <= |batch|
        invariant tables == SaveAll(old(tables), batch[..k])
        decreases retryTimes - inc
      {
        ghost var k0 := k;
        var err;
        err, k := SaveBlocks(batch);
        SaveResumes(old(tables), batch, k0, k);
        k := if k < k0 then k0 else k;
        if !err {
          return true, k;
        }
        inc := inc + 1;
        if inc > retryTimes {
          return false, k;
        }
      }
    }

    // Flips the rows of all four tables in one transaction, and retries it.
    method UpdateBlockState(num: nat) returns (alive: bool)
      modifies this`tables, this`clock, this`failures
      ensures tables == if alive then RevertBlock(old(tables), num) else old(tables)
      ensures failures >= old(failures) && (!alive ==> failures > old(failures) + retryTimes)
    {
      var inc := 0;
      while true
        invariant inc <= retryTimes && failures == old(failures) + inc && tables == old(tables)
        decreases retryTimes - inc
      {
        var s := tables;
        var err := Fails();
        if !err {
          s := s.(blocks := Flip(s.blocks, num));
          err := Fails();
        }
        if !err {
          s := s.(txs := Flip(s.txs, num));
          err := Fails();
        }
        if !err {
          s := s.(logs := Flip(s.logs, num));
          err := Fails();
        }
        if !err {
          s := s.(internals := Flip(s.internals, num));
          err := Fails();
        }
        if !err {
          err := Fails();
        }
        if !err {
          tables := s;
          return true;
        }
        inc := inc + 1;
        if inc > retryTimes {
          return false;
        }
      }
    }

    // Saves and empties the buffer.
    method Flush() returns (alive: bool, ghost fault: Fault)
      requires 1 <= sqlBatch
      modifies this`tables, this`clock, this`failures, this`blocks, this`txCount, this`logCount
      ensures match StorageSpec.Flush(old(St()), fault)
              case Alive(s) => alive && St() == s
              case Stopped(t, c) => !alive && tables == t && c == Database
      ensures fault.Fine? || fault.SaveDies?
      ensures failures >= old(failures) && (!fault.Fine? ==> failures > old(failures) + retryTimes)
    {
      ghost var k;
      alive, k := SaveWithRetry(blocks);
      if alive {
        assert blocks[..|blocks|] == blocks;
        blocks, txCount, logCount := [], 0, 0;
        fault := Fine;
      } else {
        fault := SaveDies(k);
      }
    }

    // The timer fires, or a block arrives.
    method Handle(m: Message) returns (alive: bool, ghost fault: Fault)
      requires 1 <= sqlBatch
      modifies this`tables, this`clock, this`failures, this`curHeight, this`blocks, this`txCount, this`logCount
      ensures match StorageSpec.Handle(limits, old(St()), m, fault)
              case Alive(s) => alive && St() == s
              case Stopped(t, c) => !alive && tables == t
      ensures failures >= old(failures) && (!fault.Fine? ==> failures > old(failures) + retryTimes)
    {
      alive, fault := true, Fine;
      match m
      case Timer =>
        if |blocks| > 0 {
          alive, fault := Flush();
        }
      case Arrived(Push(b)) =>
        if b.number > Add64(curHeight, 1) || b.number != Add64(curHeight, 1) {
          return false, Fine;
        }
        blocks, txCount := blocks + [b], txCount + b.txCnt;
        var logs := CountEventLogs(b.txs);
        logCount := logCount + logs;
        if |blocks| > limits.blocks || txCount > limits.txs || logCount > limits.logs {
          alive, fault := Flush();
          if !alive {
            return;
          }
        }
        curHeight := b.number;
      case Arrived(Pop(b)) =>
        if b.number > Add64(curHeight, 1) {
          return false, Fine;
        }
        if |blocks| != 0 {
          alive, fault := Flush();
          if !alive {
            return;
          }
        }
        if b.number != curHeight {
          return false, Fine;
        }
        alive := UpdateBlockState(b.number);
        if !alive {
          return false, RevertDies;
        }
        curHeight := Sub64(b.number, 1);
        fault := Fine;
    }

    method CountEventLogs(txs: seq<Tx>) returns (n: nat)
      ensures n == CountLogs(txs)
    {
      n := 0;
      var i := 0;
      assert txs[0..] == txs;
      while i < |txs|
        invariant 0 <= i <= |txs| && n + CountLogs(txs[i..]) == CountLogs(txs)
      {
        assert txs[i..][0] == txs[i] && txs[i..][1..] == txs[i + 1..];
        n := n + |txs[i].logs|;
        i := i + 1;
      }
    }

    // The event loop for the messages of a script. The steps pair each message with the failure that happened while
    // it was handled; none happens unless more than retryTimes database operations fail.
    method Run(messages: seq<Message>) returns (alive: bool, ghost steps: seq<Step>)
      requires 1 <= sqlBatch
      modifies this`tables, this`clock, this`failures, this`curHeight, this`blocks, this`txCount, this`logCount
      ensures |steps| <= |messages|
      ensures forall i {:trigger steps[i]} :: 0 <= i < |steps| ==> steps[i].msg == messages[i]
      ensures match StorageSpec.Run(limits, old(St()), steps)
              case Alive(s) => alive && |steps| == |messages| && St() == s
              case Stopped(t, c) => !alive && tables == t
      ensures failures <= old(failures) + retryTimes ==> forall i {:trigger steps[i]} :: 0 <= i < |steps| ==>
                steps[i].fault.Fine?
    {
      steps := [];
      var i := 0;
      while i < |messages|
        invariant 0 <= i <= |messages| && |steps| == i
        invariant forall j {:trigger steps[j]} :: 0 <= j < |steps| ==> steps[j].msg == messages[j]
        invariant StorageSpec.Run(limits, old(St()), steps) == Alive(St())
        invariant failures >= old(failures)
        invariant failures <= old(failures) + retryTimes ==> forall j {:trigger steps[j]} :: 0 <= j < |steps| ==>
                    steps[j].fault.Fine?
      {
        ghost var fault;
        ghost var s := St();
        alive, fault := Handle(messages[i]);
        RunSnoc(limits, old(St()), steps, s, Step(messages[i], fault));
        steps := steps + [Step(messages[i], fault)];
        if !alive {
          return;
        }
        i := i + 1;
      }
      alive := true;
    }
  }

  lemma SaveOneMore(t: Tables, batch: seq<Block>, i: nat)
    requires i < |batch|
    ensures SaveOne(SaveAll(t, batch[..i]), batch[i]) == SaveAll(t, batch[..i + 1])
  {
    SaveSplit(t, batch[..i], [batch[i]]);
    assert batch[..i + 1] == batch[..i] + [batch[i]];
    assert [batch[i]][1..] == [];
  }

  lemma {:induction false} SaveSplit(t: Tables, a: seq<Block>, b: seq<Block>)
    ensures SaveAll(t, a + b) == SaveAll(SaveAll(t, a), b)
    decreases |a|
  {
    if a == [] {
      assert a + b == b;
    } else {
      assert (a + b)[0] == a[0] && (a + b)[1..] == a[1..] + b;
      SaveSplit(SaveOne(t, a[0]), a[1..], b);
    }
  }

  // An attempt that commits k blocks after one that committed k0 leaves the larger of the two prefixes committed.
  lemma SaveResumes(t: Tables, batch: seq<Block>, k0: nat, k: nat)
    requires k0 <= |batch| && k <= |batch|
    ensures SaveAll(SaveAll(t, batch[..k0]), batch[..k]) == SaveAll(t, batch[..if k < k0 then k0 else k])
  {
    if k0 <= k {
      assert batch[..k][..k0] == batch[..k0];
      StorageProofs.SaveAgain(t, batch[..k], k0);
    } else {
      var a, b := batch[..k], batch[k..k0];
      assert batch[..k0] == a + b;
      SaveNothing(t, a, b);
    }
  }

  lemma SaveNothing(t: Tables, a: seq<Block>, b: seq<Block>)
    ensures SaveAll(SaveAll(t, a + b), a) == SaveAll(t, a + b)
  {
    forall x | x in a ensures HasOk(SaveAll(t, a + b).blocks, x.number) {
      SavedAll(t, a + b, x);
    }
    AllSkipped(SaveAll(t, a + b), a);
  }

  lemma {:induction false} SavedAll(t: Tables, blocks: seq<Block>, b: Block)
    requires b in blocks
    ensures HasOk(SaveAll(t, blocks).blocks, b.number)
    decreases |blocks|
  {
    if b == blocks[0] {
      StorageProofs.SaveOneHas(t, b);
      StorageProofs.SaveKeepsHas(SaveOne(t, b), blocks[1..], b.number);
    } else {
      SavedAll(SaveOne(t, blocks[0]), blocks[1..], b);
    }
  }

  lemma {:induction false} AllSkipped(t: Tables, blocks: seq<Block>)
    requires forall b :: b in blocks ==> HasOk(t.blocks, b.number)
    ensures SaveAll(t, blocks) == t
    decreases |blocks|
  {
    if blocks != [] {
      AllSkipped(t, blocks[1..]);
    }
  }

  lemma {:induction false} RunSnoc(limits: Limits, s0: Task, steps: seq<Step>, s: Task, step: Step)
    requires StorageSpec.Run(limits, s0, steps) == Alive(s)
    ensures StorageSpec.Run(limits, s0, steps + [step]) == StorageSpec.Handle(limits, s, step.msg, step.fault)
    decreases |steps|
  {
    if steps == [] {
      assert (steps + [step])[1..] == [];
    } else {
      assert (steps + [step])[0] == steps[0] && (steps + [step])[1..] == steps[1..] + [step];
      RunSnoc(limits, StorageSpec.Handle(limits, s0, steps[0].msg, steps[0].fault).task, steps[1..], s, step);
    }
  }
}
