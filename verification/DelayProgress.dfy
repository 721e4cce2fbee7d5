/** What the delayed sender does send: catch-up passes reach as far as the delay lets them, a push sends its block. */
module DelayProgress {
  import opened Chain
  import opened DelaySpec
  import opened DelayNumbering
  import opened DelayCatchUp
  import opened DelayRuns
  import opened Wrappers

  // What was sent since consists of the stored blocks of the heights lo+1 .. hi, in order.
  ghost predicate SentStored(t: Task, r: Task, db: Db, lo: nat, hi: nat) {
    && lo <= hi && |r.sent| == |t.sent| + (hi - lo)
    && forall i: nat :: SentAt(t, r, db, lo, i)
  }

  predicate SentAt(t: Task, r: Task, db: Db, lo: nat, i: nat) {
    i < |r.sent| ==>
      r.sent[i] == if i < |t.sent| then t.sent[i] else Sent(db.at(lo + 1 + (i - |t.sent|)), false)
  }

  // The height of the last block whose row was updated, of the heights lo+1 .. hi.
  function LastUpdated(faults: nat -> Fault, lo: nat, hi: nat, cur: nat): nat
    requires lo <= hi
    decreases hi
  {
    if hi == lo then cur else if faults(hi).UpdateFails? then LastUpdated(faults, lo, hi - 1, cur) else hi
  }

  // The height below the first one whose send fails, hi if there is none.
  function SendsTo(faults: nat -> Fault, lo: nat, hi: nat): (r: nat)
    requires lo <= hi
    ensures lo <= r <= hi && (forall h :: lo < h <= r ==> !faults(h).SendFails?)
    ensures r < hi ==> faults(r + 1).SendFails?
    decreases hi - lo
  {
    if lo == hi || faults(lo + 1).SendFails? then lo else SendsTo(faults, lo + 1, hi)
  }

  lemma {:induction false} LastUpdatedFirst(faults: nat -> Fault, lo: nat, hi: nat, cur: nat)
    requires lo < hi
    ensures LastUpdated(faults, lo, hi, cur)
            == LastUpdated(faults, lo + 1, hi, if faults(lo + 1).UpdateFails? then cur else lo + 1)
    decreases hi
  {
    if lo + 1 < hi {
      LastUpdatedFirst(faults, lo, hi - 1, cur);
    }
  }

  // The stored blocks of the heights above lo and up to hi were sent, those below the first failed send; the height is
  // that of the last update.
  ghost predicate SendsUpTo(t: Task, r: Task, db: Db, faults: nat -> Fault, lo: nat, hi: nat)
    requires lo <= hi
  {
    var to := SendsTo(faults, lo, hi);
    SentStored(t, r, db, lo, to) && r == t.(sent := r.sent, cur := LastUpdated(faults, lo, to, t.cur))
  }

  lemma SentOneMore(t: Task, t': Task, r: Task, db: Db, faults: nat -> Fault, lo: nat, hi: nat)
    requires lo < hi && !faults(lo + 1).SendFails?
    requires t' == SendOne(t, Sent(db.at(lo + 1), false), lo + 1, faults(lo + 1))
    requires SendsUpTo(t', r, db, faults, lo + 1, hi)
    ensures SendsUpTo(t, r, db, faults, lo, hi)
  {
    var to := SendsTo(faults, lo + 1, hi);
    assert SendsTo(faults, lo, hi) == to;
    LastUpdatedFirst(faults, lo, to, t.cur);
    forall i: nat ensures SentAt(t, r, db, lo, i) {
      assert SentAt(t', r, db, lo + 1, i);
    }
  }

  // Whatever fails, that is what sending blocks in a row comes to.
  lemma {:induction false} SendAllExact(t: Task, blocks: seq<Block>, faults: nat -> Fault, db: Db, lo: nat)
    requires DbNumbered(db) && forall i {:trigger blocks[i]} :: 0 <= i < |blocks| ==> blocks[i] == db.at(lo + 1 + i)
    ensures SendsUpTo(t, SendAll(t, blocks, faults), db, faults, lo, lo + |blocks|)
    decreases |blocks|
  {
    if blocks != [] {
      assert blocks[0] == db.at(lo + 1 + 0);
      assert NumberAt(db, lo + 1);
      if !faults(lo + 1).SendFails? {
        var t' := SendOne(t, Sent(blocks[0], false), lo + 1, faults(lo + 1));
        SendAllExact(t', blocks[1..], faults, db, lo + 1);
        SentOneMore(t, t', SendAll(t', blocks[1..], faults), db, faults, lo, lo + |blocks|);
      }
    }
  }

  function Min(a: nat, b: nat): nat {
    if a < b then a else b
  }

  // How far one catch-up pass may go: a batch, what the delay lets be sent, and what is stored.
  function PassEnd(cfg: Config, t: Task, db: Db): nat
    requires cfg.delay <= t.latest
  {
    Min(t.cur + 1 + cfg.batch, Min(t.latest - cfg.delay, db.stored))
  }

  lemma PassBlocks(cfg: Config, t: Task, db: Db)
    requires t.cur + 1 + cfg.delay < t.latest && t.cur < db.stored
    ensures var end := BatchEnd(cfg, t);
            && t.cur + 1 <= end && ReadRange(db, t.cur + 1, end) != []
            && |ReadRange(db, t.cur + 1, end)| == PassEnd(cfg, t, db) - t.cur
  {
  }

  lemma PassReads(cfg: Config, t: Task, db: Db, faults: nat -> Fault)
    requires t.cur + 1 <= BatchEnd(cfg, t) && ReadRange(db, t.cur + 1, BatchEnd(cfg, t)) != []
    ensures CatchUp(cfg, t, db, false, faults) == SendAll(t, ReadRange(db, t.cur + 1, BatchEnd(cfg, t)), faults)
  {
    hide BatchEnd, ReadRange, SendAll;
  }

  lemma BlocksRead(db: Db, lo: nat, hi: nat)
    ensures forall i {:trigger ReadRange(db, lo, hi)[i]} :: 0 <= i < |ReadRange(db, lo, hi)| ==>
              ReadRange(db, lo, hi)[i] == db.at(lo + i)
  {
  }

  // A catch-up pass sends, in order, the stored blocks of all heights up to where it may go, or up to the first failed
  // send.
  lemma PassSends(cfg: Config, t: Task, db: Db, faults: nat -> Fault)
    requires t.cur + 1 + cfg.delay < t.latest && t.cur < db.stored && DbNumbered(db)
    ensures t.cur <= PassEnd(cfg, t, db)
    ensures SendsUpTo(t, CatchUp(cfg, t, db, false, faults), db, faults, t.cur, PassEnd(cfg, t, db))
  {
    hide BatchEnd, PassEnd, SendAll, SendsUpTo, CatchUp, DbNumbered, ReadRange;
    PassBlocks(cfg, t, db);
    PassReads(cfg, t, db, faults);
    BlocksRead(db, t.cur + 1, BatchEnd(cfg, t));
    SendAllExact(t, ReadRange(db, t.cur + 1, BatchEnd(cfg, t)), faults, db, t.cur);
  }

  // Without failures it sends all of them and moves the task to the last.
  lemma FinePassSends(cfg: Config, t: Task, db: Db)
    requires t.cur + 1 + cfg.delay < t.latest && t.cur < db.stored && DbNumbered(db)
    ensures var r := CatchUp(cfg, t, db, false, _ => Fine);
            && SentStored(t, r, db, t.cur, PassEnd(cfg, t, db))
            && r == t.(sent := r.sent, cur := PassEnd(cfg, t, db))
  {
    hide CatchUp, SentStored, DbNumbered;
    PassSends(cfg, t, db, _ => Fine);
    FineSends(t.cur, PassEnd(cfg, t, db));
  }

  lemma FineSends(lo: nat, hi: nat)
    requires lo < hi
    ensures SendsTo(_ => Fine, lo, hi) == hi && LastUpdated(_ => Fine, lo, hi, lo) == hi
  {
  }

  // A failed read, or nothing to do, leaves everything as it is.
  lemma PassIdle(cfg: Config, t: Task, db: Db, dbErr: bool, faults: nat -> Fault)
    requires cfg.delay <= t.latest && (dbErr || t.latest <= t.cur + cfg.delay)
    ensures CatchUp(cfg, t, db, dbErr, faults) == t
  {
  }

  function Tokens(db: Db, n: nat): seq<Step> {
    seq(n, _ => Token(db, false, _ => Fine))
  }

  lemma PassAdvances(cfg: Config, t: Task, db: Db)
    requires t.q != [] && Lags(cfg, t) && DbNumbered(db) && t.latest <= db.stored + cfg.delay
    ensures var r := Pass(cfg, t, Token(db, false, _ => Fine));
            && r.Alive? && SentStored(t, r.task, db, t.cur, r.task.cur)
            && r.task.cur == Min(t.cur + 1 + cfg.batch, t.latest - cfg.delay)
            && r.task == t.(sent := r.task.sent, cur := r.task.cur, token := false)
  {
    var t' := t.(token := false);
    FinePassSends(cfg, t', db);
    var r := CatchUp(cfg, t', db, false, _ => Fine);
    assert forall i: nat :: SentAt(t', r, db, t.cur, i) ==> SentAt(t, r, db, t.cur, i);
  }

  lemma SentMore(t: Task, m: Task, r: Task, db: Db, lo: nat, mid: nat, hi: nat)
    requires SentStored(t, m, db, lo, mid) && SentStored(m, r, db, mid, hi)
    ensures SentStored(t, r, db, lo, hi)
  {
    forall i: nat ensures SentAt(t, r, db, lo, i) {
      assert SentAt(m, r, db, mid, i) && SentAt(t, m, db, lo, i);
    }
  }

  // How many heights n passes can send.
  function Heights(cfg: Config, n: nat): nat {
    n * (1 + cfg.batch)
  }

  lemma HeightsNext(cfg: Config, n: nat)
    requires 0 < n
    ensures Heights(cfg, n) == Heights(cfg, n - 1) + 1 + cfg.batch
  {
  }

  // With everything down to the delay stored, n error-free passes bring the task to the highest block that may be sent,
  // or one below it, if n passes reach that far; what they sent are the stored blocks in between, in order.
  lemma {:induction false} CatchesUp(cfg: Config, t: Task, db: Db, n: nat)
    requires t.q != [] && DbNumbered(db) && t.latest <= db.stored + cfg.delay && (t.token ==> Lags(cfg, t))
    requires 0 < t.latest <= t.cur + 1 + cfg.delay + Heights(cfg, n)
    ensures var r := Run(cfg, t, Tokens(db, n));
            && r.Alive? && t.latest <= r.task.cur + 1 + cfg.delay && r.task.latest == t.latest
            && SentStored(t, r.task, db, t.cur, r.task.cur)
            && (t.cur + cfg.delay <= t.latest ==> r.task.cur + cfg.delay <= t.latest)
    decreases n
  {
    if n == 0 {
      assert SentStored(t, t, db, t.cur, t.cur);
    } else {
      FirstToken(cfg, t, db, n);
      HeightsNext(cfg, n);
      hide SentStored, DbNumbered, Run, Pass, Tokens, Heights;
      var m := if Lags(cfg, t) then Pass(cfg, t, Token(db, false, _ => Fine)).task else t;
      if Lags(cfg, t) {
        PassAdvances(cfg, t, db);
      } else {
        PassNothing(cfg, t, db);
      }
      CatchesUp(cfg, m, db, n - 1);
      var r := Run(cfg, m, Tokens(db, n - 1)).task;
      if Lags(cfg, t) {
        SentMore(t, m, r, db, t.cur, m.cur, r.cur);
      }
    }
  }

  lemma FirstToken(cfg: Config, t: Task, db: Db, n: nat)
    requires 0 < n
    ensures Run(cfg, t, Tokens(db, n)) ==
            match Pass(cfg, t, Token(db, false, _ => Fine))
            case Fatal => Fatal
            case Alive(t') => Run(cfg, t', Tokens(db, n - 1))
  {
    hide Pass;
    assert Tokens(db, n)[1..] == Tokens(db, n - 1);
  }

  lemma PassNothing(cfg: Config, t: Task, db: Db)
    requires !t.token && !Lags(cfg, t)
    ensures Pass(cfg, t, Token(db, false, _ => Fine)) == Alive(t)
  {
  }

  // ------------------------------------------------------------------ the live path

  // The highest height of the queue after block number num was added.
  function Rear(q: seq<Block>, num: nat): nat
    requires q != []
  {
    if num < q[0].number + |q| then q[0].number + |q| - 1 else num
  }

  // The queue after a block was added: it reaches up to the higher of its rear and the block, and loses its front only
  // beyond its capacity.
  lemma AddReaches(q: seq<Block>, cap: nat, b: Block)
    requires 1 <= cap && q != [] && Consecutive(q) && |q| <= cap && b.number <= q[0].number + |q|
    ensures var r := AddBlock(q, cap, b);
            && r.Queue? && Consecutive(r.q)
            && |r.q| == Min(cap, Rear(q, b.number) + 1 - q[0].number)
            && r.q[0].number == Rear(q, b.number) + 1 - |r.q|
  {
    assert q[|q| - 1].number == q[0].number + |q| - 1;
    AddKeeps(q, cap, b);
  }

  // It has at each height the new block or the one it had there.
  lemma AddHolds(q: seq<Block>, cap: nat, b: Block, k: nat)
    requires 1 <= cap && q != [] && Consecutive(q) && |q| <= cap && b.number <= q[0].number + |q|
    requires AddBlock(q, cap, b).Queue? && k < |AddBlock(q, cap, b).q|
    ensures var c := AddBlock(q, cap, b).q[k];
            if c.number == b.number then c == b
            else q[0].number <= c.number < q[0].number + |q| && c == q[c.number - q[0].number]
  {
    AddKeeps(q, cap, b);
    assert q[|q| - 1].number == q[0].number + |q| - 1;
    if q[0].number <= b.number < q[0].number + |q| {
      assert q[b.number - q[0].number].number == b.number;
    }
  }

  lemma AddTakes(q: seq<Block>, cap: nat, b: Block)
    requires 1 <= cap && q != [] && Consecutive(q) && |q| <= cap && b.number <= q[0].number + |q|
    ensures var r := AddBlock(q, cap, b); r.Queue? && (r.q[0].number <= b.number ==> b in r.q)
  {
    AddReaches(q, cap, b);
    var r := AddBlock(q, cap, b).q;
    if r[0].number <= b.number {
      var k := b.number - r[0].number;
      assert r[k].number == r[0].number + k;
      AddHolds(q, cap, b, k);
      assert r[k] == b;
    }
  }

  // The block of a height at hand: in the queue, or stored and readable.
  predicate AtHand(q: seq<Block>, db: Db, dbErr: bool, height: nat)
    requires q != []
  {
    q[0].number <= height || (!dbErr && height <= db.stored)
  }

  function Due(q: seq<Block>, db: Db, height: nat): Sent
    requires q != [] && height < q[0].number + |q|
  {
    if q[0].number <= height then Sent(q[height - q[0].number], true) else Sent(db.at(height), false)
  }

  // A pushed block that brings the rear to exactly delay above the next height has that height's block sent, from the
  // queue if it is there, else from the tables; any other push sends nothing.
  lemma PushSends(cfg: Config, t: Task, b: Block, db: Db, dbErr: bool, fault: Fault, from: nat)
    requires Inv(cfg, t, b.number, from) && DbNumbered(db) && t.cur < b.number
    ensures var r := OnPush(cfg, t, b, db, dbErr, fault);
            && r.Alive? && r.task.q != [] && (r.task.q[0].number <= b.number ==> b in r.task.q)
            && r.task.latest == (if t.latest < b.number then b.number else t.latest)
            && var q, due := r.task.q, t.cur + 1;
               if due + cfg.delay == r.task.latest && AtHand(q, db, dbErr, due) && !fault.SendFails? then
                 && due < q[0].number + |q|
                 && r.task.sent == t.sent + [Due(q, db, due)] && r.task.cur == if fault.Fine? then due else t.cur
               else r.task.sent == t.sent && r.task.cur == t.cur
  {
    hide Inv, Enqueue, DbNumbered, Consecutive, Find;
    Enqueued(cfg, t, b, from);
    var t' := Enqueue(cfg, t, b).task;
    if t.cur + 1 + cfg.delay == t'.latest {
      Found(t'.q, t.cur + 1, cfg.delay);
    }
  }

  lemma Enqueued(cfg: Config, t: Task, b: Block, from: nat)
    requires Inv(cfg, t, b.number, from) && t.cur < b.number
    ensures var r := Enqueue(cfg, t, b);
            && r.Alive? && Consecutive(r.task.q) && |r.task.q| <= cfg.delay + 1
            && (r.task.q[0].number <= b.number ==> b in r.task.q)
            && r.task == t.(q := r.task.q, latest := r.task.latest)
            && r.task.latest == r.task.q[|r.task.q| - 1].number
            && r.task.latest == if t.latest < b.number then b.number else t.latest
  {
    AddKeeps(t.q, cfg.delay + 1, b);
    if t.q != [] {
      AddTakes(t.q, cfg.delay + 1, b);
    }
  }

  lemma Found(q: seq<Block>, height: nat, delay: nat)
    requires q != [] && Consecutive(q) && |q| <= delay + 1 && height + delay == q[|q| - 1].number
    ensures q[0].number <= height <==> |q| == delay + 1
    ensures height < q[0].number + |q|
    ensures Find(q, height) == if q[0].number <= height then Some(height - q[0].number) else None
  {
    if q[0].number <= height {
      assert q[height - q[0].number].number == height;
    }
  }
}
