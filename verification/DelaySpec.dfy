/** The delayed sender: a fixed-capacity queue of the newest blocks, and what one pass of its loop does. */
module DelaySpec {
  import opened Chain
  import opened Wrappers

  // ------------------------------------------------------------------ the queue

  function Find(q: seq<Block>, num: nat): (r: Option<nat>)
    ensures r.Some? ==> r.value < |q| && q[r.value].number == num
    ensures r.None? ==> forall i {:trigger q[i]} :: 0 <= i < |q| ==> q[i].number != num
  {
    if q == [] then None
    else if q[0].number == num then Some(0)
    else
      match Find(q[1..], num)
      case None =>
        assert forall i {:trigger q[i]} :: 0 < i < |q| ==> q[i] == q[1..][i - 1];
        None
      case Some(i) => Some(i + 1)
  }

  datatype Added = Unexpected | Queue(q: seq<Block>)

  // Replaces the block of the same height in place, or appends the next height; a full queue then loses its front.
  function AddBlock(q: seq<Block>, cap: nat, b: Block): (r: Added)
    requires 1 <= cap
    ensures r.Queue? ==> r.q != []
  {
    if q == [] then Queue([b])
    else if b.number < q[0].number then Queue(q)
    else if b.number > q[|q| - 1].number then
      if b.number != q[|q| - 1].number + 1 then Unexpected
      else Queue((if |q| == cap then q[1..] else q) + [b])
    else
      match Find(q, b.number)
      case None => Unexpected
      case Some(i) => Queue(q[i := b])
  }

  // ------------------------------------------------------------------ the task

  datatype Config = Config(delay: nat, batch: nat)

  // What was handed to the message producer, and whether it came from the queue or from the tables.
  datatype Sent = Sent(blk: Block, fromQueue: bool)

  datatype Task = Task(cur: nat, latest: nat, token: bool, q: seq<Block>, sent: seq<Sent>)

  // The block tables: the heights up to `stored`.
  datatype Db = Db(at: nat -> Block, stored: nat)

  // The tables answer for a height with the block of that number.
  ghost predicate DbNumbered(db: Db) {
    forall h: nat :: NumberAt(db, h)
  }

  predicate NumberAt(db: Db, h: nat) {
    db.at(h).number == h
  }

  datatype Fault = Fine | SendFails | UpdateFails

  datatype Reached = Alive(task: Task) | Fatal

  function SendOne(t: Task, s: Sent, num: nat, fault: Fault): Task {
    match fault
    case SendFails => t
    case UpdateFails => t.(sent := t.sent + [s])
    case Fine => t.(sent := t.sent + [s], cur := num)
  }

  function GetBlock(cfg: Config, t: Task, db: Db, dbErr: bool, num: nat): Option<Sent> {
    if |t.q| == cfg.delay + 1 then Some(Sent(t.q[0], true))
    else
      match Find(t.q, num)
      case Some(i) => Some(Sent(t.q[i], true))
      case None => if dbErr || db.stored < num then None else Some(Sent(db.at(num), false))
  }

  // The task with the block in its queue.
  function Enqueue(cfg: Config, t: Task, b: Block): (r: Reached)
    ensures r.Alive? ==> r.task.q != []
  {
    match AddBlock(t.q, cfg.delay + 1, b)
    case Unexpected => Fatal
    case Queue(q) => Alive(t.(q := q, latest := q[|q| - 1].number))
  }

  function OnPush(cfg: Config, t: Task, b: Block, db: Db, dbErr: bool, fault: Fault): Reached {
    if b.number < t.cur + 1 then Alive(t)
    else
      match Enqueue(cfg, t, b)
      case Fatal => Fatal
      case Alive(t') =>
        if t.cur + 1 + cfg.delay != t'.latest then Alive(t')
        else
          match GetBlock(cfg, t', db, dbErr, t.cur + 1)
          case None => Alive(t')
          case Some(s) => Alive(SendOne(t', s, t.cur + 1, fault))
  }

  // The stored blocks of heights lo..hi, both included, in ascending order.
  function ReadRange(db: Db, lo: nat, hi: nat): (r: seq<Block>)
    ensures forall i {:trigger r[i]} :: 0 <= i < |r| ==> r[i] == db.at(lo + i)
    ensures var top := if hi <= db.stored then hi else db.stored; |r| == if lo <= top then top - lo + 1 else 0
  {
    var top := if hi <= db.stored then hi else db.stored;
    if lo <= top then seq(top - lo + 1, i requires 0 <= i < top - lo + 1 => db.at(lo + i)) else []
  }

  // A failed send ends the batch; a failed update of the task's row does not.
  function SendAll(t: Task, blocks: seq<Block>, faults: nat -> Fault): Task
    decreases |blocks|
  {
    if blocks == [] || faults(blocks[0].number).SendFails? then t
    else SendAll(SendOne(t, Sent(blocks[0], false), blocks[0].number, faults(blocks[0].number)), blocks[1..], faults)
  }

  // The last height of a catch-up batch.
  function BatchEnd(cfg: Config, t: Task): nat {
    var top := Sub64(t.latest, cfg.delay);
    if t.cur + 1 + cfg.batch < top then t.cur + 1 + cfg.batch else top
  }

  function CatchUp(cfg: Config, t: Task, db: Db, dbErr: bool, faults: nat -> Fault): Task {
    var end := BatchEnd(cfg, t);
    if t.cur + 1 > end || dbErr then t
    else
      var blocks := ReadRange(db, t.cur + 1, end);
      if blocks == [] then (if faults(end).UpdateFails? then t else t.(cur := end))
      else SendAll(t, blocks, faults)
  }

  datatype Step =
    | Message(event: Event, db: Db, dbErr: bool, fault: Fault)
    | Token(db: Db, dbErr: bool, faults: nat -> Fault)

  predicate Lags(cfg: Config, t: Task) {
    t.latest > 0 && t.q != [] && t.cur + 1 + cfg.delay < t.latest
  }

  function Pass(cfg: Config, t: Task, step: Step): Reached {
    var t' := t.(token := t.token || Lags(cfg, t));
    match step
    case Message(Pop(_), _, _, _) => Alive(t')
    case Message(Push(b), db, dbErr, fault) => OnPush(cfg, t', b, db, dbErr, fault)
    case Token(db, dbErr, faults) =>
      if t'.token then Alive(CatchUp(cfg, t'.(token := false), db, dbErr, faults)) else Alive(t')
  }

  function Run(cfg: Config, t: Task, steps: seq<Step>): Reached
    decreases |steps|
  {
    if steps == [] then Alive(t)
    else
      match Pass(cfg, t, steps[0])
      case Fatal => Fatal
      case Alive(t') => Run(cfg, t', steps[1..])
  }

  function EventsOf(steps: seq<Step>): seq<Event>
    decreases |steps|
  {
    if steps == [] then []
    else (if steps[0].Message? then [steps[0].event] else []) + EventsOf(steps[1..])
  }
}
