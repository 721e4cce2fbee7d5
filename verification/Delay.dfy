/** The delayed sender as the program runs it: the queue changed in place, and the loop over messages and tokens. */
module Delay {
  import opened Chain
  import opened DelaySpec
  import opened Wrappers
  import Sorting

  // A fixed-capacity list of blocks.
  class BlockQueue {
    const cap: nat
    var l: seq<Block>

    constructor (cap: nat)
      ensures this.cap == cap && l == []
    {
      this.cap := cap;
      l := [];
    }

    method DeQueue()
      modifies this
      ensures l == if old(l) == [] then [] else old(l)[1..]
    {
      if l != [] {
        l := l[1..];
      }
    }

    method EnQueue(b: Block)
      modifies this
      ensures l == if |old(l)| == cap then old(l) else old(l) + [b]
    {
      if |l| != cap {
        l := l + [b];
      }
    }

    method FindElement(num: nat) returns (e: Option<nat>)
      ensures e == Find(l, num)
    {
      var i := 0;
      assert l[0..] == l;
      while i < |l|
        invariant 0 <= i <= |l|
        invariant Find(l, num) == (match Find(l[i..], num) case None => None case Some(j) => Some(i + j))
      {
        assert l[i..][0] == l[i] && l[i..][1..] == l[i + 1..];
        if l[i].number == num {
          return Some(i);
        }
        i := i + 1;
      }
      e := None;
    }
  }

  // The order in which the rows of a range come back: any permutation.
  type Arrival = seq<Block> -> seq<Block>

  ghost predicate Permutes(arrival: Arrival) {
    forall s: seq<Block> {:trigger arrival(s)} :: multiset(arrival(s)) == multiset(s)
  }

  class DelayTask {
    const cfg: Config
    const q: BlockQueue
    var cur: nat
    var latest: nat
    var token: bool
    var sent: seq<Sent>

    ghost predicate Valid()
      reads this, q
    {
      q.cap == cfg.delay + 1 && |q.l| <= q.cap
    }

    ghost function St(): Task
      reads this, q
    {
      Task(cur, latest, token, q.l, sent)
    }

    constructor (cfg: Config, cur: nat)
      ensures Valid() && fresh(q) && this.cfg == cfg && St() == Task(cur, 0, false, [], [])
    {
      this.cfg := cfg;
      q := new BlockQueue(cfg.delay + 1);
      this.cur, latest, token, sent := cur, 0, false, [];
    }

    // Sends a block and then records its height; either can fail.
    method Send(s: Sent, num: nat, fault: Fault) returns (sendErr: bool)
      modifies this`sent, this`cur
      ensures St() == SendOne(old(St()), s, num, fault) && sendErr == fault.SendFails?
    {
      sendErr := fault.SendFails?;
      if !sendErr {
        sent := sent + [s];
        if !fault.UpdateFails? {
          cur := num;
        }
      }
    }

    method AddBlock(b: Block) returns (expected: bool)
      requires Valid()
      modifies q
      ensures Valid()
      ensures expected == DelaySpec.AddBlock(old(q.l), cfg.delay + 1, b).Queue?
      ensures expected ==> q.l == DelaySpec.AddBlock(old(q.l), cfg.delay + 1, b).q
    {
      if q.l == [] {
        q.EnQueue(b);
        return true;
      }
      var front, rear := q.l[0], q.l[|q.l| - 1];
      if b.number < front.number {
        return true;
      } else if b.number > rear.number {
        if b.number != rear.number + 1 {
          return false;
        }
        if |q.l| == q.cap {
          q.DeQueue();
        }
        q.EnQueue(b);
      } else {
        var e := q.FindElement(b.number);
        if e == None {
          return false;
        }
        q.l := q.l[e.value := b];
      }
      expected := true;
    }

    method GetBlock(num: nat, db: Db, dbErr: bool) returns (b: Option<Sent>)
      requires Valid()
      ensures b == DelaySpec.GetBlock(cfg, St(), db, dbErr, num)
    {
      if |q.l| == q.cap {
        return Some(Sent(q.l[0], true));
      }
      var e := q.FindElement(num);
      if e != None {
        return Some(Sent(q.l[e.value], true));
      }
      if dbErr || db.stored < num {
        return None;
      }
      b := Some(Sent(db.at(num), false));
    }

    method OnBlock(b: Block, db: Db, dbErr: bool, fault: Fault) returns (alive: bool)
      requires Valid()
      modifies this`latest, this`sent, this`cur, q
      ensures Valid()
      ensures match OnPush(cfg, old(St()), b, db, dbErr, fault)
              case Alive(t) => alive && St() == t
              case Fatal => !alive
    {
      hide DelaySpec.AddBlock, DelaySpec.GetBlock, SendOne;
      var curNum := cur + 1;
      if b.number < curNum {
        return true;
      }
      alive := AddBlock(b);
      if !alive {
        return;
      }
      latest := q.l[|q.l| - 1].number;
      if curNum + cfg.delay == latest {
        var s := GetBlock(curNum, db, dbErr);
        if s != None {
          var err := Send(s.value, curNum, fault);
        }
      }
    }

    // The stored blocks of a range in ascending order, however they come back from the tables.
    method GetBlocks(db: Db, lo: nat, hi: nat, arrival: Arrival) returns (blocks: seq<Block>)
      requires DbNumbered(db) && Permutes(arrival)
      ensures blocks == ReadRange(db, lo, hi)
    {
      var rows := arrival(ReadRange(db, lo, hi));
      RangeSorted(db, lo, hi, rows);
      blocks := Sorting.Sort((b: Block) => b.number, rows);
    }

    // Sends the next stored blocks that are deep enough.
    method CatchUp(db: Db, dbErr: bool, faults: nat -> Fault, arrival: Arrival)
      requires Valid() && DbNumbered(db) && Permutes(arrival)
      modifies this`sent, this`cur
      ensures Valid() && St() == DelaySpec.CatchUp(cfg, old(St()), db, dbErr, faults)
    {
      hide ReadRange, SendAll, Sub64, DbNumbered, Permutes;
      var curNum := cur + 1;
      var top := Sub64(latest, cfg.delay);
      var end := if curNum + cfg.batch < top then curNum + cfg.batch else top;
      if curNum > end {
        return;
      }
      var blocks := GetBlocks(db, curNum, end, arrival);
      if dbErr {
        return;
      }
      if |blocks| != 0 {
        SendBlocks(blocks, faults);
      } else if !faults(end).UpdateFails? {
        cur := end;
      }
    }

    // Sends one block after the other until a send fails.
    method SendBlocks(blocks: seq<Block>, faults: nat -> Fault)
      requires Valid()
      modifies this`sent, this`cur
      ensures Valid() && St() == SendAll(old(St()), blocks, faults)
    {
      var i := 0;
      assert blocks[0..] == blocks;
      while i < |blocks|
        invariant 0 <= i <= |blocks| && Valid()
        invariant SendAll(St(), blocks[i..], faults) == SendAll(old(St()), blocks, faults)
      {
        assert blocks[i..][0] == blocks[i] && blocks[i..][1..] == blocks[i + 1..];
        var err := Send(Sent(blocks[i], false), blocks[i].number, faults(blocks[i].number));
        if err {
          break;
        }
        i := i + 1;
      }
    }

    // One pass of the loop.
    method Pass(step: Step, arrival: Arrival) returns (alive: bool)
      requires Valid() && DbNumbered(step.db) && Permutes(arrival)
      modifies this`latest, this`sent, this`cur, this`token, q
      ensures Valid()
      ensures match DelaySpec.Pass(cfg, old(St()), step)
              case Alive(t) => alive && St() == t
              case Fatal => !alive
    {
      var curNum := cur + 1;
      if latest > 0 {
        if q.l != [] && curNum + cfg.delay < latest && !token {
          token := true;
        }
      }
      alive := true;
      match step
      case Message(Pop(_), _, _, _) =>
      case Message(Push(b), db, dbErr, fault) =>
        alive := OnBlock(b, db, dbErr, fault);
      case Token(db, dbErr, faults) =>
        if token {
          token := false;
          CatchUp(db, dbErr, faults, arrival);
        }
    }
  }

  lemma RangeSorted(db: Db, lo: nat, hi: nat, rows: seq<Block>)
    requires DbNumbered(db) && multiset(rows) == multiset(ReadRange(db, lo, hi))
    ensures Sorting.Sort((b: Block) => b.number, rows) == ReadRange(db, lo, hi)
  {
    var r := ReadRange(db, lo, hi);
    forall i, j | 0 <= i < j < |r| ensures ((b: Block) => b.number)(r[i]) < ((b: Block) => b.number)(r[j]) {
      assert NumberAt(db, lo + i) && NumberAt(db, lo + j);
    }
    Sorting.SortErasesArrival((b: Block) => b.number, rows, r);
  }
}
