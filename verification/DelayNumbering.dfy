/** The delayed sender's queue holds consecutive heights, and what it sends comes in order and deep enough. */
module DelayNumbering {
  import opened Chain
  import opened DelaySpec
  import opened Wrappers

  // ------------------------------------------------------------------ numbering

  ghost predicate Consecutive(q: seq<Block>) {
    forall i {:trigger q[i]} :: 0 <= i < |q| ==> q[i].number == q[0].number + i
  }

  // The queue holds consecutive heights, at most delay + 1 of them, up to latest; the chain's top is not above it. The
  // task's height is below the queue, or at least delay below the highest block.
  ghost predicate Numbered(cfg: Config, t: Task, next: nat) {
    && Consecutive(t.q) && |t.q| <= cfg.delay + 1
    && (if t.q == [] then t.latest == 0
        else
          && t.latest == t.q[|t.q| - 1].number
          && next <= t.latest + 1
          && (t.cur < t.q[0].number || t.cur + cfg.delay <= t.latest))
    && (t.token ==> Lags(cfg, t))
  }

  // A block of the next height of the chain finds its place in the queue.
  lemma AddKeeps(q: seq<Block>, cap: nat, b: Block)
    requires 1 <= cap && Consecutive(q) && |q| <= cap
    requires q != [] ==> b.number <= q[|q| - 1].number + 1
    ensures var r := AddBlock(q, cap, b);
            && r.Queue? && Consecutive(r.q) && |q| <= |r.q| <= cap
            && (q == [] ==> r.q == [b])
            && (q != [] ==> q[0].number <= r.q[0].number)
            && r.q[|r.q| - 1].number
               == (if q != [] && b.number <= q[|q| - 1].number then q[|q| - 1].number else b.number)
  {
    if q != [] && q[0].number <= b.number <= q[|q| - 1].number {
      assert q[b.number - q[0].number].number == b.number;
    }
  }

  // On the live path the next block to send is the one of the next height, wherever it comes from.
  lemma GetBlockNumber(cfg: Config, t: Task, db: Db, dbErr: bool, num: nat)
    requires Consecutive(t.q) && t.q != [] && num + cfg.delay == t.q[|t.q| - 1].number
    requires db.at(num).number == num
    ensures var r := GetBlock(cfg, t, db, dbErr, num);
            r.Some? ==> r.value.blk.number == num && (r.value.fromQueue ==> r.value.blk in t.q)
  {
    if |t.q| == cfg.delay + 1 {
      assert t.q[cfg.delay].number == t.q[0].number + cfg.delay;
    }
  }

  predicate Has(sent: seq<Sent>, n: nat, h: nat) {
    exists j :: 0 <= j < n <= |sent| && sent[j].blk.number == h
  }

  // Before a height is sent, every height between the start and it has been sent.
  ghost predicate InOrder(sent: seq<Sent>, from: nat) {
    forall i: nat, h: nat :: i < |sent| && from < h < sent[i].blk.number ==> Has(sent, i, h)
  }

  ghost predicate SentTo(sent: seq<Sent>, from: nat, cur: nat) {
    from <= cur && InOrder(sent, from) && forall h: nat :: from < h <= cur ==> Has(sent, |sent|, h)
  }

  lemma SendKeeps(sent: seq<Sent>, from: nat, cur: nat, s: Sent)
    requires SentTo(sent, from, cur) && s.blk.number == cur + 1
    ensures SentTo(sent + [s], from, cur + 1)
  {
    var sent' := sent + [s];
    forall i: nat, h: nat | i < |sent'| && from < h < sent'[i].blk.number ensures Has(sent', i, h) {
      var n := if i < |sent| then i else |sent|;
      assert Has(sent, n, h);
      var j :| 0 <= j < n && sent[j].blk.number == h;
      assert sent'[j] == sent[j];
    }
    forall h: nat | from < h <= cur + 1 ensures Has(sent', |sent'|, h) {
      if h <= cur {
        assert Has(sent, |sent|, h);
        var j :| 0 <= j < |sent| && sent[j].blk.number == h;
        assert sent'[j] == sent[j];
      } else {
        assert sent'[|sent|].blk.number == h;
      }
    }
  }

  lemma SentToLess(sent: seq<Sent>, from: nat, cur: nat, cur': nat)
    requires SentTo(sent, from, cur) && from <= cur' <= cur
    ensures SentTo(sent, from, cur')
  {
  }

  // Every height sent is at least delay below the highest block.
  ghost predicate Deep(cfg: Config, sent: seq<Sent>, latest: nat) {
    forall i {:trigger sent[i]} :: 0 <= i < |sent| ==> sent[i].blk.number + cfg.delay <= latest
  }

  // What every run keeps: next is the height of the chain's next block, from the task's height at its start.
  ghost predicate Inv(cfg: Config, t: Task, next: nat, from: nat) {
    && Numbered(cfg, t, next) && SentTo(t.sent, from, t.cur) && Deep(cfg, t.sent, t.latest)
    && (t.q == [] ==> t.sent == [])
  }

  lemma DeepSend(cfg: Config, sent: seq<Sent>, latest: nat, s: Sent)
    requires Deep(cfg, sent, latest) && s.blk.number + cfg.delay <= latest
    ensures Deep(cfg, sent + [s], latest)
  {
  }

  // ------------------------------------------------------------------ messages

  lemma SendOneKeeps(cfg: Config, t: Task, s: Sent, fault: Fault, next: nat, from: nat)
    requires Inv(cfg, t, next, from) && !t.token && t.q != [] && s.blk.number == t.cur + 1
    requires t.cur + 1 + cfg.delay <= t.latest
    ensures Inv(cfg, SendOne(t, s, t.cur + 1, fault), next, from)
  {
    if !fault.SendFails? {
      SendKeeps(t.sent, from, t.cur, s);
      DeepSend(cfg, t.sent, t.latest, s);
      SentToLess(t.sent + [s], from, t.cur + 1, t.cur);
    }
  }

  // The queue after the block of the next height was added, and before anything is sent.
  lemma AddNumbered(cfg: Config, t: Task, b: Block, from: nat)
    requires Inv(cfg, t, b.number, from) && t.cur + 1 <= b.number
    ensures var r := Enqueue(cfg, t, b);
            && r.Alive? && r.task.cur == t.cur && Inv(cfg, r.task, b.number + 1, from)
            && (r.task.token ==> t.cur + 1 + cfg.delay < r.task.latest)
  {
    AddKeeps(t.q, cfg.delay + 1, b);
  }

  // The task goes on, and the invariant holds.
  ghost predicate Keeps(cfg: Config, r: Reached, next: nat, from: nat) {
    r.Alive? && Inv(cfg, r.task, next, from)
  }

  lemma PushKeeps(cfg: Config, t: Task, b: Block, db: Db, dbErr: bool, fault: Fault, from: nat)
    requires Inv(cfg, t, b.number, from) && DbNumbered(db)
    ensures Keeps(cfg, OnPush(cfg, t, b, db, dbErr, fault), b.number + 1, from)
  {
    hide Enqueue, GetBlock, SendOne, Inv;
    if t.cur + 1 <= b.number {
      AddNumbered(cfg, t, b, from);
      var t' := Enqueue(cfg, t, b).task;
      if t.cur + 1 + cfg.delay == t'.latest {
        GetBlockDeep(cfg, t', db, dbErr, b.number + 1, from);
        var s := GetBlock(cfg, t', db, dbErr, t.cur + 1);
        if s.Some? {
          SendOneKeeps(cfg, t', s.value, fault, b.number + 1, from);
        }
      }
    } else {
      SkipKeeps(cfg, t, b, from);
    }
  }

  // A block at or below the task's height is not looked at.
  lemma SkipKeeps(cfg: Config, t: Task, b: Block, from: nat)
    requires Inv(cfg, t, b.number, from) && b.number <= t.cur
    ensures Inv(cfg, t, b.number + 1, from)
  {
  }

  lemma GetBlockDeep(cfg: Config, t: Task, db: Db, dbErr: bool, next: nat, from: nat)
    requires Inv(cfg, t, next, from) && t.q != [] && DbNumbered(db) && t.cur + 1 + cfg.delay == t.latest
    ensures var r := GetBlock(cfg, t, db, dbErr, t.cur + 1); r.Some? ==> r.value.blk.number == t.cur + 1
  {
    assert NumberAt(db, t.cur + 1);
    GetBlockNumber(cfg, t, db, dbErr, t.cur + 1);
  }
}
