/** What the delayed sender sends from its queue is final, if reverts stay shallow. */
module DelayFinality {
  import opened Chain
  import opened DelaySpec
  import opened DelayNumbering
  import opened DelayRuns
  import opened Wrappers
  import FetchProofs
  import FetchDepth

  // At every height of the chain that is in the queue, the queue holds the chain's block.
  ghost predicate Agrees(q: seq<Block>, st: Stack) {
    forall i: nat :: AgreesAt(q, st, i)
  }

  ghost predicate AgreesAt(q: seq<Block>, st: Stack, i: nat) {
    i < |q| && q[i].number < st.Next() ==> st.Has(q[i].number) && st.At(q[i].number) == q[i]
  }

  // Every block sent from the queue is the chain's block at its height.
  ghost predicate OnChain(sent: seq<Sent>, st: Stack) {
    forall i: nat :: OnChainAt(sent, st, i)
  }

  ghost predicate OnChainAt(sent: seq<Sent>, st: Stack, i: nat) {
    i < |sent| && sent[i].fromQueue ==> st.Has(sent[i].blk.number) && st.At(sent[i].blk.number) == sent[i].blk
  }

  // high is the highest block of the feed so far.
  ghost predicate Final(cfg: Config, t: Task, st: Stack, high: nat) {
    && st.Contiguous() && Agrees(t.q, st) && OnChain(t.sent, st)
    && (t.q != [] ==> t.latest <= high && t.latest < st.Next() + cfg.delay)
  }

  // No revert reaches delay or more below the highest block of the feed.
  predicate Shallow(cfg: Config, high: nat, feed: seq<Event>)
    decreases |feed|
  {
    feed == []
    || ((feed[0].Pop? ==> high < feed[0].blk.number + cfg.delay)
        && Shallow(cfg, FetchProofs.High(high, [feed[0]]), feed[1..]))
  }

  lemma {:induction false} ReachIsShallow(cfg: Config, w: nat, high: nat, feed: seq<Event>)
    requires FetchDepth.Reach(w, high, feed) && w < cfg.delay
    ensures Shallow(cfg, high, feed)
    decreases |feed|
  {
    if feed != [] {
      ReachIsShallow(cfg, w, FetchProofs.High(high, [feed[0]]), feed[1..]);
    }
  }

  lemma AddAgrees(q: seq<Block>, cap: nat, b: Block, st: Stack)
    requires 1 <= cap && Consecutive(q) && |q| <= cap && st.Contiguous() && Agrees(q, st) && b.number == st.Next()
    requires q != [] ==> b.number <= q[|q| - 1].number + 1
    ensures AddBlock(q, cap, b).Queue? && Agrees(AddBlock(q, cap, b).q, Apply(st, Push(b)))
  {
    AddKeeps(q, cap, b);
    var q', st' := AddBlock(q, cap, b).q, Apply(st, Push(b));
    forall i: nat ensures AgreesAt(q', st', i) {
      assert AgreesAt(q, st, i) && AgreesAt(q, st, i + 1);
    }
  }

  lemma PushOnChain(sent: seq<Sent>, st: Stack, b: Block)
    requires OnChain(sent, st) && b.number == st.Next()
    ensures OnChain(sent, Apply(st, Push(b)))
  {
    var st' := Apply(st, Push(b));
    forall i: nat ensures OnChainAt(sent, st', i) {
      assert OnChainAt(sent, st, i);
    }
  }

  // A revert leaves every block sent from the queue on the chain if and only if it takes back none of their heights.
  lemma RevertSparesIff(sent: seq<Sent>, st: Stack, b: Block)
    requires st.Contiguous() && OnChain(sent, st) && Enabled(st, Pop(b))
    ensures OnChain(sent, Apply(st, Pop(b))) <==>
            forall i {:trigger sent[i]} :: 0 <= i < |sent| && sent[i].fromQueue ==> sent[i].blk.number != b.number
  {
    var st' := Apply(st, Pop(b));
    assert st.NumberedAt(|st.blocks| - 1);
    if forall i {:trigger sent[i]} :: 0 <= i < |sent| && sent[i].fromQueue ==> sent[i].blk.number != b.number {
      forall i: nat ensures OnChainAt(sent, st', i) {
        assert OnChainAt(sent, st, i);
      }
    } else {
      var i :| 0 <= i < |sent| && sent[i].fromQueue && sent[i].blk.number == b.number;
      assert !OnChainAt(sent, st', i);
    }
  }

  // A revert takes nothing off the chain that was sent, and leaves the rest of the queue in agreement.
  lemma PopFinal(cfg: Config, t: Task, st: Stack, high: nat, b: Block, from: nat)
    requires Inv(cfg, t, st.Next(), from) && Final(cfg, t, st, high) && Enabled(st, Pop(b))
    requires high < b.number + cfg.delay
    ensures Final(cfg, t, Apply(st, Pop(b)), high)
  {
    var st' := Apply(st, Pop(b));
    ApplyContiguous(st, Pop(b));
    assert st.NumberedAt(|st.blocks| - 1);
    forall i: nat ensures AgreesAt(t.q, st', i) {
      assert AgreesAt(t.q, st, i);
    }
    RevertSparesIff(t.sent, st, b);
    forall i {:trigger t.sent[i]} | 0 <= i < |t.sent| && t.sent[i].fromQueue ensures t.sent[i].blk.number != b.number {
      assert t.sent[i].blk.number + cfg.delay <= t.latest;
    }
  }

  lemma AddFinal(cfg: Config, t: Task, b: Block, st: Stack, high: nat, from: nat)
    requires Inv(cfg, t, st.Next(), from) && Final(cfg, t, st, high) && b.number == st.Next()
    ensures var r := Enqueue(cfg, t, b);
            r.Alive? && Final(cfg, r.task, Apply(st, Push(b)), if high < b.number then b.number else high)
  {
    ApplyContiguous(st, Push(b));
    PushOnChain(t.sent, st, b);
    AddAgrees(t.q, cfg.delay + 1, b, st);
    AddKeeps(t.q, cfg.delay + 1, b);
  }

  // The block taken from the queue for the next height is the chain's.
  lemma SendFinal(cfg: Config, t: Task, db: Db, dbErr: bool, s: Sent, fault: Fault, st: Stack, high: nat, from: nat)
    requires Inv(cfg, t, st.Next(), from) && Final(cfg, t, st, high) && DbNumbered(db)
    requires t.q != [] && t.cur + 1 + cfg.delay == t.latest && GetBlock(cfg, t, db, dbErr, t.cur + 1) == Some(s)
    ensures Final(cfg, SendOne(t, s, t.cur + 1, fault), st, high)
  {
    GetBlockDeep(cfg, t, db, dbErr, st.Next(), from);
    assert s.fromQueue ==> s.blk in t.q by {
      assert NumberAt(db, t.cur + 1);
      GetBlockNumber(cfg, t, db, dbErr, t.cur + 1);
    }
    var sent' := t.sent + [s];
    forall i: nat ensures OnChainAt(sent', st, i) {
      assert OnChainAt(t.sent, st, i);
      if i == |t.sent| && s.fromQueue {
        var j :| 0 <= j < |t.q| && t.q[j] == s.blk;
        assert AgreesAt(t.q, st, j);
      }
    }
  }

  // A block at or below the task's height is below the queue: had it been in the queue, it would have been too deep
  // to be reverted.
  lemma SkipFinal(cfg: Config, t: Task, b: Block, st: Stack, high: nat, from: nat)
    requires Inv(cfg, t, st.Next(), from) && Final(cfg, t, st, high) && b.number == st.Next() <= t.cur
    ensures Final(cfg, t, Apply(st, Push(b)), if high < b.number then b.number else high)
  {
    var st' := Apply(st, Push(b));
    ApplyContiguous(st, Push(b));
    PushOnChain(t.sent, st, b);
    forall i: nat ensures AgreesAt(t.q, st', i) {
      assert AgreesAt(t.q, st, i);
    }
  }

  lemma PushFinal(cfg: Config, t: Task, b: Block, db: Db, dbErr: bool, fault: Fault, st: Stack, high: nat, from: nat)
    requires Inv(cfg, t, st.Next(), from) && Final(cfg, t, st, high) && b.number == st.Next() && DbNumbered(db)
    ensures var r := OnPush(cfg, t, b, db, dbErr, fault);
            r.Alive? && Final(cfg, r.task, Apply(st, Push(b)), if high < b.number then b.number else high)
  {
    hide Enqueue, GetBlock, SendOne, Inv, Final, DbNumbered;
    var st', high' := Apply(st, Push(b)), if high < b.number then b.number else high;
    if t.cur + 1 <= b.number {
      AddNumbered(cfg, t, b, from);
      AddFinal(cfg, t, b, st, high, from);
      var t' := Enqueue(cfg, t, b).task;
      if t.cur + 1 + cfg.delay == t'.latest {
        GetBlockDeep(cfg, t', db, dbErr, b.number + 1, from);
        var s := GetBlock(cfg, t', db, dbErr, t.cur + 1);
        if s.Some? {
          SendFinal(cfg, t', db, dbErr, s.value, fault, st', high', from);
        }
      }
    } else {
      SkipFinal(cfg, t, b, st, high, from);
    }
  }

  lemma {:induction false} SendAllOnChain(t: Task, blocks: seq<Block>, faults: nat -> Fault, st: Stack)
    requires OnChain(t.sent, st)
    ensures OnChain(SendAll(t, blocks, faults).sent, st)
    decreases |blocks|
  {
    if blocks != [] && !faults(blocks[0].number).SendFails? {
      var sent' := t.sent + [Sent(blocks[0], false)];
      forall i: nat ensures OnChainAt(sent', st, i) {
        assert OnChainAt(t.sent, st, i);
      }
      SendAllOnChain(SendOne(t, Sent(blocks[0], false), blocks[0].number, faults(blocks[0].number)), blocks[1..],
                     faults, st);
    }
  }

  lemma {:induction false} SendAllFrame(t: Task, blocks: seq<Block>, faults: nat -> Fault)
    ensures SendAll(t, blocks, faults).q == t.q && SendAll(t, blocks, faults).latest == t.latest
    decreases |blocks|
  {
    if blocks != [] && !faults(blocks[0].number).SendFails? {
      SendAllFrame(SendOne(t, Sent(blocks[0], false), blocks[0].number, faults(blocks[0].number)), blocks[1..], faults);
    }
  }

  lemma CatchUpFinal(cfg: Config, t: Task, db: Db, dbErr: bool, faults: nat -> Fault, st: Stack, high: nat)
    requires Final(cfg, t, st, high)
    ensures Final(cfg, CatchUp(cfg, t, db, dbErr, faults), st, high)
  {
    hide BatchEnd;
    var blocks := ReadRange(db, t.cur + 1, BatchEnd(cfg, t));
    SendAllOnChain(t, blocks, faults, st);
    SendAllFrame(t, blocks, faults);
  }

  lemma PassFinal(cfg: Config, t: Task, step: Step, st: Stack, high: nat, from: nat)
    requires Inv(cfg, t, st.Next(), from) && Final(cfg, t, st, high) && StepFits(cfg, t, step)
    requires step.Message? ==> Enabled(st, step.event) && (step.event.Pop? ==> high < step.event.blk.number + cfg.delay)
    ensures var r := Pass(cfg, t, step);
            && r.Alive?
            && if step.Message? then Final(cfg, r.task, Apply(st, step.event), FetchProofs.High(high, [step.event]))
               else Final(cfg, r.task, st, high)
  {
    assert st.Contiguous();
    PassKeeps(cfg, t, step, st, from);
    hide Inv, OnPush, CatchUp, DbNumbered, Agrees, OnChain;
    TokenKeeps(cfg, t, st.Next(), from);
    var t' := t.(token := t.token || Lags(cfg, t));
    match step
    case Message(Pop(b), _, _, _) => PopFinal(cfg, t', st, high, b, from);
    case Message(Push(b), db, dbErr, fault) => PushFinal(cfg, t', b, db, dbErr, fault, st, high, from);
    case Token(db, dbErr, faults) =>
      if t'.token {
        CatchUpFinal(cfg, t'.(token := false), db, dbErr, faults, st, high);
      }
  }

  // If no revert reaches delay or more below the highest block, then at every moment each block ever sent from the
  // queue is the chain's block at its height: it was the right version when it was sent, and was not reverted since.
  lemma {:induction false} RunFinal(cfg: Config, t: Task, steps: seq<Step>, st: Stack, high: nat, from: nat)
    requires Inv(cfg, t, st.Next(), from) && Final(cfg, t, st, high) && RunFits(cfg, t, steps)
    requires WellFormed(st, EventsOf(steps)) && Shallow(cfg, high, EventsOf(steps))
    ensures var r := Run(cfg, t, steps);
            r.Alive? && Final(cfg, r.task, Replay(st, EventsOf(steps)), FetchProofs.High(high, EventsOf(steps)))
    decreases |steps|
  {
    assert st.Contiguous();
    hide Inv, Final, Pass, StepFits;
    if steps != [] {
      EventsStep(steps);
      PassKeeps(cfg, t, steps[0], st, from);
      PassFinal(cfg, t, steps[0], st, high, from);
      var t' := Pass(cfg, t, steps[0]).task;
      if steps[0].Message? {
        var e := steps[0].event;
        assert [e] + EventsOf(steps[1..]) == EventsOf(steps);
        FetchProofs.HighConcat(high, [e], EventsOf(steps[1..]));
        RunFinal(cfg, t', steps[1..], Apply(st, e), FetchProofs.High(high, [e]), from);
      } else {
        RunFinal(cfg, t', steps[1..], st, high, from);
      }
    }
  }

  // A task fresh from its start agrees with whatever chain it joins.
  lemma StartFinal(cfg: Config, cur: nat, st: Stack, high: nat)
    requires st.Contiguous()
    ensures Inv(cfg, Task(cur, 0, false, [], []), st.Next(), cur) && Final(cfg, Task(cur, 0, false, [], []), st, high)
  {
  }
}
