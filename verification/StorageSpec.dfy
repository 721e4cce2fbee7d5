/** The block tables, and what the storage task makes of one message, as functions. */
module StorageSpec {
  import opened Chain
  import opened Table

  // ------------------------------------------------------------------ tables

  datatype Header = Header(number: nat, hash: Hash, parentHash: Hash, txCnt: nat)

  datatype TxLog = TxLog(txHash: Hash, log: EventLog)

  // The tables block, tx, tx_log and tx_internal, each in the order its rows were inserted.
  datatype Tables = Tables(blocks: Rows<Header>, txs: Rows<Hash>, logs: Rows<TxLog>, internals: Rows<Internal>)

  function Headers(b: Block): seq<Header> {
    [Header(b.number, b.hash, b.parentHash, b.txCnt)]
  }

  function TxsOf(txs: seq<Tx>): seq<Hash> {
    if txs == [] then [] else [txs[0].hash] + TxsOf(txs[1..])
  }

  function LogsOfTx(hash: Hash, logs: seq<EventLog>): seq<TxLog> {
    if logs == [] then [] else [TxLog(hash, logs[0])] + LogsOfTx(hash, logs[1..])
  }

  function LogsOf(txs: seq<Tx>): seq<TxLog> {
    if txs == [] then [] else LogsOfTx(txs[0].hash, txs[0].logs) + LogsOf(txs[1..])
  }

  function Hashes(b: Block): seq<Hash> {
    TxsOf(b.txs)
  }

  function Logs(b: Block): seq<TxLog> {
    LogsOf(b.txs)
  }

  function Internals(b: Block): seq<Internal> {
    b.internals
  }

  function InsertBlock(t: Tables, b: Block): Tables {
    Tables(t.blocks + RowsOf(b.number, Headers(b)), t.txs + RowsOf(b.number, Hashes(b)),
           t.logs + RowsOf(b.number, Logs(b)), t.internals + RowsOf(b.number, Internals(b)))
  }

  function RevertBlock(t: Tables, num: nat): Tables {
    Tables(Flip(t.blocks, num), Flip(t.txs, num), Flip(t.logs, num), Flip(t.internals, num))
  }

  // The largest number of an ok row, 0 without one.
  function MaxOk<T>(t: Rows<T>): nat {
    if t == [] then 0
    else
      var rest := MaxOk(t[..|t| - 1]);
      var last := t[|t| - 1];
      if last.state == Ok && last.num > rest then last.num else rest
  }

  function GetCurrentMainBlockNum(t: Tables): nat {
    MaxOk(t.blocks)
  }

  // A block whose number already has an ok row is not written again.
  function SaveOne(t: Tables, b: Block): Tables {
    if HasOk(t.blocks, b.number) then t else InsertBlock(t, b)
  }

  function SaveAll(t: Tables, blocks: seq<Block>): Tables
    decreases |blocks|
  {
    if blocks == [] then t else SaveAll(SaveOne(t, blocks[0]), blocks[1..])
  }

  // ------------------------------------------------------------------ the task

  datatype Limits = Limits(blocks: nat, txs: nat, logs: nat)

  datatype Task = Task(tables: Tables, cur: nat, buffer: seq<Block>, txCount: nat, logCount: nat)

  // What goes wrong while a message is handled: nothing, the retries of a save run out (or the process is killed)
  // after k blocks were committed, or the same for the update of a reverted block.
  datatype Fault = Fine | SaveDies(k: nat) | RevertDies

  datatype Cause = Database | Feed

  datatype Reached = Alive(task: Task) | Stopped(tables: Tables, cause: Cause)

  function CountLogs(txs: seq<Tx>): nat {
    if txs == [] then 0 else |txs[0].logs| + CountLogs(txs[1..])
  }

  predicate Over(limits: Limits, blocks: nat, txCount: nat, logCount: nat) {
    blocks > limits.blocks || txCount > limits.txs || logCount > limits.logs
  }

  function Flush(s: Task, fault: Fault): Reached {
    if fault.SaveDies? then
      var k := if fault.k < |s.buffer| then fault.k else |s.buffer|;
      Stopped(SaveAll(s.tables, s.buffer[..k]), Database)
    else Alive(s.(tables := SaveAll(s.tables, s.buffer), buffer := [], txCount := 0, logCount := 0))
  }

  function Tick(s: Task, fault: Fault): Reached {
    if s.buffer == [] then Alive(s) else Flush(s, fault)
  }

  function ReceiveOk(limits: Limits, s: Task, b: Block, fault: Fault): Reached {
    if b.number != Add64(s.cur, 1) then Stopped(s.tables, Feed)
    else
      var s' := s.(buffer := s.buffer + [b], txCount := s.txCount + b.txCnt, logCount := s.logCount + CountLogs(b.txs));
      if Over(limits, |s'.buffer|, s'.txCount, s'.logCount) then
        match Flush(s', fault)
        case Alive(f) => Alive(f.(cur := b.number))
        case Stopped(t, c) => Stopped(t, c)
      else
        Alive(s'.(cur := b.number))
  }

  function ReceiveRevert(s: Task, b: Block, fault: Fault): Reached {
    if b.number > Add64(s.cur, 1) then Stopped(s.tables, Feed)
    else
      match Tick(s, fault)
      case Stopped(t, c) => Stopped(t, c)
      case Alive(f) =>
        if b.number != f.cur then Stopped(f.tables, Feed)
        else if fault.RevertDies? then Stopped(f.tables, Database)
        else Alive(f.(tables := RevertBlock(f.tables, b.number), cur := Sub64(b.number, 1)))
  }

  datatype Message = Timer | Arrived(event: Event)

  function Handle(limits: Limits, s: Task, m: Message, fault: Fault): Reached {
    match m
    case Timer => Tick(s, fault)
    case Arrived(Push(b)) => ReceiveOk(limits, s, b, fault)
    case Arrived(Pop(b)) => ReceiveRevert(s, b, fault)
  }

  datatype Step = Step(msg: Message, fault: Fault)

  function Run(limits: Limits, s: Task, steps: seq<Step>): Reached
    decreases |steps|
  {
    if steps == [] then Alive(s)
    else
      match Handle(limits, s, steps[0].msg, steps[0].fault)
      case Alive(s') => Run(limits, s', steps[1..])
      case Stopped(t, c) => Stopped(t, c)
  }

  // The feed a script delivers.
  function EventsOf(steps: seq<Step>): seq<Event>
    decreases |steps|
  {
    if steps == [] then []
    else (if steps[0].msg.Arrived? then [steps[0].msg.event] else []) + EventsOf(steps[1..])
  }

  // The task after a start: with no configured start height it goes on above the stored chain.
  function Resume(t: Tables, startHeight: nat): Task {
    Task(t, if startHeight != 0 then startHeight - 1 else GetCurrentMainBlockNum(t), [], 0, 0)
  }

  // ------------------------------------------------------------------ the eager specification

  // Every event applied to the tables at once.
  function Eager(t: Tables, e: Event): Tables {
    match e
    case Push(b) => InsertBlock(t, b)
    case Pop(b) => RevertBlock(t, b.number)
  }

  function EagerAll(t: Tables, feed: seq<Event>): Tables
    decreases |feed|
  {
    if feed == [] then t else EagerAll(Eager(t, feed[0]), feed[1..])
  }
}
