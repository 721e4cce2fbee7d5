/** The asynchronous ERC-20 transfer task: what one message or one catch-up round makes of it. */
module AsyncSpec {
  import opened Chain
  import opened Table

  // The capacity of the catch-up channel.
  const TOKENS: nat := 10

  const ERC20_TRANSFER: string := "0xddf252ad1be2c89b69c2b068fc378daa952ba7f163c4a11628f55a4df523b3ef"

  datatype Config = Config(bufferSize: nat, batch: nat, maxBlocks: nat, maxTxs: nat, endNumber: nat)

  // ------------------------------------------------------------------ transfers

  datatype Transfer = Transfer(txHash: Hash, addr: string, sender: string, receiver: string, tokens: nat, logIndex: nat)

  // Three topics and the Transfer signature: with a fourth topic the log is an ERC-721 transfer.
  predicate IsErc20Tx(l: EventLog) {
    l.topic0 != "" && l.topic1 != "" && l.topic2 != "" && l.topic3 == "" && l.topic0 == ERC20_TRANSFER
  }

  function TransfersOfTx(hash: Hash, logs: seq<EventLog>): seq<Transfer> {
    if logs == [] then []
    else
      var l := logs[0];
      (if IsErc20Tx(l) then [Transfer(hash, l.addr, l.topic1, l.topic2, l.value, l.index)] else [])
      + TransfersOfTx(hash, logs[1..])
  }

  function TransfersOf(txs: seq<Tx>): seq<Transfer> {
    if txs == [] then [] else TransfersOfTx(txs[0].hash, txs[0].logs) + TransfersOf(txs[1..])
  }

  function Transfers(b: Block): seq<Transfer> {
    TransfersOf(b.txs)
  }

  // ------------------------------------------------------------------ state

  // The table tx_erc20 and the task's row in async_task, which commit together.
  datatype Store = Store(rows: Rows<Transfer>, number: nat)

  datatype Task = Task(cur: nat, latest: nat, tokens: nat, cache: seq<Block>, store: Store)

  // Dead: a save or a revert ran out of retries, or the process was killed. Wedged: the loop waits for room in a
  // channel only it empties.
  datatype Reached = Alive(task: Task) | Dead(store: Store) | Wedged(store: Store) | Finished(store: Store)

  function Durable(r: Reached): Store {
    match r
    case Alive(a) => a.store
    case Dead(s) => s
    case Wedged(s) => s
    case Finished(s) => s
  }

  // Whether the database work for a message succeeds, or dies after the chunks of the first m blocks.
  datatype Fate = Lives | Dies(m: nat)

  // ------------------------------------------------------------------ saving and reverting

  function Saved(s: Store, blks: seq<Block>): Store {
    if blks == [] then s else Store(s.rows + Part(Transfers, blks), blks[|blks| - 1].number)
  }

  function HandleBlocks(a: Task, blks: seq<Block>, fate: Fate): Reached {
    match fate
    case Dies(m) => Dead(Saved(a.store, blks[..if m < |blks| then m else |blks|]))
    case Lives =>
      if blks == [] then Alive(a)
      else Alive(a.(store := Saved(a.store, blks), cur := blks[|blks| - 1].number))
  }

  function RevertStore(s: Store, num: nat): Store {
    Store(Flip(s.rows, num), Sub64(num, 1))
  }

  // ------------------------------------------------------------------ the sliding cache

  datatype Lookup = Lookup(found: seq<Block>, rest: seq<Block>)

  // Drops blocks from the front until the one asked for has been dropped.
  function Scan(cache: seq<Block>, height: nat): Lookup {
    if cache == [] then Lookup([], [])
    else if cache[0].number == height then Lookup([cache[0]], cache[1..])
    else Scan(cache[1..], height)
  }

  function FromCache(cache: seq<Block>, height: nat): Lookup {
    if cache == [] || height < cache[0].number then Lookup([], cache) else Scan(cache, height)
  }

  function AddToCache(cache: seq<Block>, size: nat, b: Block): seq<Block>
    requires 1 <= size
  {
    (if |cache| >= size then cache[1..] else cache) + [b]
  }

  // Only the newest block can go: the loop loses its place once it has removed an element.
  function RemoveFromCache(cache: seq<Block>, height: nat): seq<Block> {
    if cache == [] || cache[|cache| - 1].number < height then cache else cache[..|cache| - 1]
  }

  // ------------------------------------------------------------------ catching up

  // The block tables a catch-up round reads: the heights up to `stored`.
  datatype Db = Db(at: nat -> Block, stored: nat)

  // The blocks of heights lo..hi, hi excluded.
  function Span(chain: nat -> Block, lo: nat, hi: nat): (r: seq<Block>)
    ensures |r| == if lo <= hi then hi - lo else 0
    ensures forall i {:trigger r[i]} :: 0 <= i < |r| ==> r[i] == chain(lo + i)
  {
    if lo <= hi then seq(hi - lo, i requires 0 <= i < hi - lo => chain(lo + i)) else []
  }

  function ReadRange(db: Db, start: nat, end: nat): seq<Block> {
    Span(db.at, start, if end <= db.stored then end + 1 else db.stored + 1)
  }

  datatype Read = Read(blks: seq<Block>, cache: seq<Block>, err: bool)

  function ReadNext(cfg: Config, a: Task, db: Db, err: bool): Read {
    var start := Add64(a.cur, 1);
    var end := Sub64(Add64(start, cfg.batch), 1);
    if a.cur < Sub64(a.latest, cfg.bufferSize) then
      Read(if err then [] else ReadRange(db, start, end), a.cache, err)
    else
      var l := FromCache(a.cache, start);
      if l.found != [] then Read(l.found, l.rest, false)
      else Read(if err || db.stored < start then [] else [db.at(start)], l.rest, err)
  }

  function CatchUp(cfg: Config, a: Task, db: Db, err: bool, fate: Fate): Reached {
    var r := ReadNext(cfg, a, db, err);
    var a' := a.(cache := r.cache);
    if r.err then Alive(a')
    else if r.blks == [] then Alive(a'.(cur := Sub64(Add64(Add64(a.cur, 1), cfg.batch), 1)))
    else HandleBlocks(a', r.blks, fate)
  }

  // ------------------------------------------------------------------ messages

  datatype Delivery = Delivery(event: Event, fate: Fate)

  function Receive(cfg: Config, a: Task, d: Delivery): Reached
    requires 1 <= cfg.bufferSize
  {
    match d.event
    case Push(b) =>
      var a' := a.(latest := b.number);
      if Add64(a.cur, 1) == b.number then HandleBlocks(a', [b], d.fate)
      else if Add64(a.cur, 1) < b.number then Alive(a'.(cache := AddToCache(a.cache, cfg.bufferSize, b)))
      else Alive(a')
    case Pop(b) =>
      var below := Sub64(b.number, 1);
      if a.cur >= b.number then
        if d.fate.Dies? then Dead(a.store)
        else Alive(a.(cache := RemoveFromCache(a.cache, b.number), store := RevertStore(a.store, b.number),
                      cur := below, latest := below))
      else
        Alive(a.(latest := below))
  }

  function ReceiveAll(cfg: Config, a: Task, ds: seq<Delivery>): Reached
    requires 1 <= cfg.bufferSize
    decreases |ds|
  {
    if ds == [] then Alive(a)
    else
      match Receive(cfg, a, ds[0])
      case Alive(a') => ReceiveAll(cfg, a', ds[1..])
      case r => r
  }

  // ------------------------------------------------------------------ one round of the loop

  datatype Round = Messages(ds: seq<Delivery>) | Compensate(err: bool, fate: Fate)

  predicate Behind(a: Task) {
    a.cur < a.latest
  }

  function Turn(cfg: Config, a: Task, db: Db, round: Round): Reached
    requires 1 <= cfg.bufferSize
  {
    if cfg.endNumber != 0 && a.cur >= cfg.endNumber then Finished(a.store)
    else if Behind(a) && a.tokens == TOKENS then Wedged(a.store)
    else
      var a' := if Behind(a) then a.(tokens := a.tokens + 1) else a;
      match round
      case Messages(ds) => ReceiveAll(cfg, a', ds)
      case Compensate(err, fate) => if a'.tokens == 0 then Alive(a') else CatchUp(cfg, a'.(tokens := 0), db, err, fate)
  }

  // The task after a start of the process.
  function Fresh(s: Store): Task {
    Task(s.number, 0, 0, [], s)
  }

  // A round while the tables hold the blocks up to `stored`, or a restart.
  datatype Step = Round(round: Round, stored: nat) | Restart

  function Next(cfg: Config, r: Reached, at: nat -> Block, step: Step): Reached
    requires 1 <= cfg.bufferSize
  {
    match step
    case Restart => Alive(Fresh(Durable(r)))
    case Round(round, stored) => if r.Alive? then Turn(cfg, r.task, Db(at, stored), round) else r
  }

  function Run(cfg: Config, r: Reached, at: nat -> Block, steps: seq<Step>): Reached
    requires 1 <= cfg.bufferSize
    decreases |steps|
  {
    if steps == [] then r else Run(cfg, Next(cfg, r, at, steps[0]), at, steps[1..])
  }
}
