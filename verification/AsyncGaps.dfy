/** Runs of the ERC-20 task from its start that skip heights for good, or wait for ever. */
module AsyncGaps {
  import opened Chain
  import opened Table
  import opened AsyncSpec
  import opened AsyncTheorems

  // ------------------------------------------------------------------ a run that leaves a gap

  lemma RunNext(cfg: Config, r: Reached, at: nat -> Block, step: Step, rest: seq<Step>)
    requires 1 <= cfg.bufferSize
    ensures Run(cfg, r, at, [step] + rest) == Run(cfg, Next(cfg, r, at, step), at, rest)
  {
    assert ([step] + rest)[1..] == rest;
  }

  // The first block on the feed has height 3 while heights 1 and 2 are stored; two catch-up rounds without errors
  // follow, and then the feed's next blocks.
  function GapSteps(feed: nat -> Block): seq<Step> {
    var catchUp := Step.Round(Compensate(false, Lives), 2);
    [Step.Round(Messages([Delivery(Push(feed(3)), Lives)]), 2)]
    + ([catchUp] + ([catchUp] + [Step.Round(Messages(GapBlocks(feed, 4)), 8)]))
  }

  function GapBlocks(feed: nat -> Block, height: nat): seq<Delivery>
    decreases 9 - height
  {
    if height > 8 then [] else [Delivery(Push(feed(height)), Lives)] + GapBlocks(feed, height + 1)
  }

  // A fresh task reaches the gap: up to the second catch-up round the feed is as the theorem asks, block 3 waits in the
  // cache, and still the round moves on to height 7. Heights 3 to 7 never get rows, while the task's number passes
  // them.
  lemma GapReached(w: World)
    requires w.Valid() && w.cfg == Config(10, 5, 100, 100, 0) && w.origin == 0 && 8 <= w.bound
    ensures var r := Reached.Alive(Fresh(Store(w.rows0, 0)));
            && RunFits(w, r, 2, true, GapSteps(w.feed)[..2])
            && Run(w.cfg, r, w.at, GapSteps(w.feed)[..3]) == Reached.Alive(SkippedTask(w))
            && Durable(Run(w.cfg, r, w.at, GapSteps(w.feed)))
               == Store(w.rows0 + Part(Transfers, [w.at(1), w.at(2)]) + Part(Transfers, [w.feed(8)]), 8)
  {
    GapFits(w);
    hide Turn, RunFits, GapBlocks, Part;
    var r, steps := Reached.Alive(Fresh(Store(w.rows0, 0))), GapSteps(w.feed);
    var catchUp := Step.Round(Compensate(false, Lives), 2);
    GapStarts(w);
    GapSkips(w);
    GapEnds(w);
    var a1 := Reached.Alive(Task(0, 3, 0, [w.feed(3)], Store(w.rows0, 0)));
    var a2 := Reached.Alive(SkippedTask(w).(cur := 2));
    assert steps[..3] == [steps[0]] + ([catchUp] + ([catchUp] + []));
    RunNext(w.cfg, r, w.at, steps[0], [catchUp] + ([catchUp] + []));
    RunNext(w.cfg, a1, w.at, catchUp, [catchUp] + []);
    RunNext(w.cfg, a2, w.at, catchUp, []);
    RunNext(w.cfg, r, w.at, steps[0], [catchUp] + ([catchUp] + [steps[3]]));
    RunNext(w.cfg, a1, w.at, catchUp, [catchUp] + [steps[3]]);
    RunNext(w.cfg, a2, w.at, catchUp, [steps[3]]);
    RunNext(w.cfg, Reached.Alive(SkippedTask(w)), w.at, steps[3], []);
    assert [steps[3]] + [] == [steps[3]];
  }

  lemma GapFits(w: World)
    requires w.Valid() && w.cfg == Config(10, 5, 100, 100, 0) && w.origin == 0 && 8 <= w.bound
    ensures RunFits(w, Reached.Alive(Fresh(Store(w.rows0, 0))), 2, true, GapSteps(w.feed)[..2])
  {
    var r, steps := Reached.Alive(Fresh(Store(w.rows0, 0))), GapSteps(w.feed)[..2];
    var catchUp := Step.Round(Compensate(false, Lives), 2);
    GapStarts(w);
    GapSkips(w);
    hide Turn, GapBlocks, World.HandledTo;
    var a1 := Reached.Alive(Task(0, 3, 0, [w.feed(3)], Store(w.rows0, 0)));
    assert SameAt(w.feed, w.at, 3);
    assert steps[1..] == [catchUp] && steps[1..][1..] == [];
    assert RunFits(w, Next(w.cfg, a1, w.at, catchUp), 2, false, []);
    assert RunFits(w, a1, 2, false, [catchUp]);
  }

  function SkippedTask(w: World): Task {
    Task(7, 3, 0, [w.feed(3)], Store(w.rows0 + Part(Transfers, [w.at(1), w.at(2)]), 2))
  }

  lemma GapStarts(w: World)
    requires w.Valid() && w.cfg == Config(10, 5, 100, 100, 0) && 8 <= w.bound
    ensures Turn(w.cfg, Fresh(Store(w.rows0, 0)), Db(w.at, 2), GapSteps(w.feed)[0].round)
         == Reached.Alive(Task(0, 3, 0, [w.feed(3)], Store(w.rows0, 0)))
  {
    assert SameAt(w.feed, w.at, 3);
    ReceiveOne(w.cfg, Fresh(Store(w.rows0, 0)), Delivery(Push(w.feed(3)), Lives));
  }

  lemma GapSkips(w: World)
    requires w.Valid() && w.cfg == Config(10, 5, 100, 100, 0) && 8 <= w.bound
    ensures Turn(w.cfg, Task(0, 3, 0, [w.feed(3)], Store(w.rows0, 0)), Db(w.at, 2), Compensate(false, Lives))
         == Reached.Alive(SkippedTask(w).(cur := 2))
    ensures Turn(w.cfg, SkippedTask(w).(cur := 2), Db(w.at, 2), Compensate(false, Lives))
            == Reached.Alive(SkippedTask(w))
  {
    assert SameAt(w.feed, w.at, 2);
    assert ReadRange(Db(w.at, 2), 1, 5) == [w.at(1), w.at(2)];
    assert ReadRange(Db(w.at, 2), 3, 7) == [];
  }

  lemma GapEnds(w: World)
    requires w.Valid() && w.cfg == Config(10, 5, 100, 100, 0) && 8 <= w.bound
    ensures Durable(Turn(w.cfg, SkippedTask(w), Db(w.at, 8), Messages(GapBlocks(w.feed, 4))))
         == Store(SkippedTask(w).store.rows + Part(Transfers, [w.feed(8)]), 8)
  {
    DropsUpTo7(w, SkippedTask(w), 4);
  }

  lemma {:induction false} DropsUpTo7(w: World, a: Task, height: nat)
    requires w.Valid() && w.cfg == Config(10, 5, 100, 100, 0) && a == SkippedTask(w).(latest := a.latest)
    requires 1 <= height <= 8
    ensures Durable(ReceiveAll(w.cfg, a, GapBlocks(w.feed, height)))
         == Store(a.store.rows + Part(Transfers, [w.feed(8)]), 8)
    decreases 8 - height
  {
    var b, ds := w.feed(height), GapBlocks(w.feed, height);
    assert ds[0] == Delivery(Push(b), Lives) && ds[1..] == GapBlocks(w.feed, height + 1);
    assert SameAt(w.feed, w.at, height);
    if height < 8 {
      DropsUpTo7(w, a.(latest := height), height + 1);
    } else {
      ReceiveOne(w.cfg, a, ds[0]);
      assert ds == [ds[0]];
    }
  }

  // ------------------------------------------------------------------ a run that waits for itself

  // One message round for each of n consecutive blocks.
  function PushRounds(feed: nat -> Block, height: nat, n: nat): (r: seq<Step>)
    requires 1 <= height
    ensures |r| == n && forall i {:trigger r[i]} :: 0 <= i < n ==> r[i].Round? && r[i].round.Messages?
    decreases n
  {
    if n == 0 then []
    else [Step.Round(Messages([Delivery(Push(feed(height)), Lives)]), height - 1)] + PushRounds(feed, height + 1, n - 1)
  }

  predicate OneBehind(r: Reached, height: nat) {
    r.Alive? ==> Behind(r.task) && r.task.latest + 1 == height
  }

  lemma {:induction false} PushRoundsFit(w: World, r: Reached, stored: nat, height: nat, n: nat)
    requires w.Valid() && Keeps(w, r, stored, false) && OneBehind(r, height)
    requires 1 <= height && stored < height && height + n <= w.bound + 1
    ensures RunFits(w, r, stored, false, PushRounds(w.feed, height, n))
    decreases n
  {
    hide World.HandledTo, Turn, Inv, StepFits, Transfers;
    if n != 0 {
      var ds := [Delivery(Push(w.feed(height)), Lives)];
      var step := Step.Round(Messages(ds), height - 1);
      assert PushRounds(w.feed, height, n)[0] == step;
      assert PushRounds(w.feed, height, n)[1..] == PushRounds(w.feed, height + 1, n - 1);
      assert SameAt(w.feed, w.at, height);
      if r.Alive? {
        PushFits(w, r.task, stored, height);
        TurnKeeps(w, r.task, step.round, stored, height - 1, false);
        PushTurn(w, r.task, stored, height);
      }
      PushRoundsFit(w, Next(w.cfg, r, w.at, step), height - 1, height + 1, n - 1);
    }
  }

  lemma PushFits(w: World, a: Task, stored: nat, height: nat)
    requires w.Valid() && Inv(w, a, stored, false) && a.latest + 1 == height <= w.bound && stored < height
    ensures StepFits(w, a, stored, false, Step.Round(Messages([Delivery(Push(w.feed(height)), Lives)]), height - 1))
  {
    assert SameAt(w.feed, w.at, height);
  }

  lemma PushTurn(w: World, a: Task, stored: nat, height: nat)
    requires w.Valid() && Inv(w, a, stored, false) && Behind(a) && a.latest + 1 == height <= w.bound
    ensures OneBehind(Turn(w.cfg, a, Db(w.at, height - 1), Messages([Delivery(Push(w.feed(height)), Lives)])),
                      height + 1)
  {
    hide World.HandledTo, Buffered, HandleBlocks;
    assert SameAt(w.feed, w.at, height);
    Add64Fits(a.cur, 1);
    ReceiveOne(w.cfg, a.(tokens := a.tokens + 1), Delivery(Push(w.feed(height)), Lives));
  }

  lemma ReceiveOne(cfg: Config, a: Task, d: Delivery)
    requires 1 <= cfg.bufferSize
    ensures ReceiveAll(cfg, a, [d]) == Receive(cfg, a, d)
  {
    assert [d][1..] == [];
    var r := Receive(cfg, a, d);
    if r.Alive? {
      assert ReceiveAll(cfg, r.task, []) == r;
    }
  }

  // A fresh task whose feed starts one block ahead waits for ever if and only if twelve blocks in a row come in message
  // rounds: the first puts it behind, ten fill the channel, and before the twelfth it waits.
  lemma WedgeReached(w: World, n: nat)
    requires w.Valid() && w.cfg.endNumber == 0 && w.origin == 0 && n + 1 <= w.bound
    ensures var r := Reached.Alive(Fresh(Store(w.rows0, 0)));
            && RunFits(w, r, 1, true, PushRounds(w.feed, 2, n))
            && (Run(w.cfg, r, w.at, PushRounds(w.feed, 2, n)).Wedged? <==> 12 <= n)
  {
    if n != 0 {
      var s := Store(w.rows0, 0);
      var r, ds, steps := Reached.Alive(Fresh(s)), [Delivery(Push(w.feed(2)), Lives)], PushRounds(w.feed, 2, n);
      assert steps[0] == Step.Round(Messages(ds), 1) && steps[1..] == PushRounds(w.feed, 3, n - 1);
      assert SameAt(w.feed, w.at, 2);
      assert w.HandledTo(s) by {
        assert Part(Transfers, []) == [] && w.Versions([], 1, 1);
      }
      hide World.HandledTo;
      ReceiveAllKeeps(w, Fresh(s), ds, 1, true);
      var a := Task(0, 2, 0, [w.feed(2)], s);
      assert ds[1..] == [];
      assert Next(w.cfg, r, w.at, steps[0]) == Reached.Alive(a);
      PushRoundsFit(w, Reached.Alive(a), 1, 3, n - 1);
      MessageRoundsWedge(w, a, 1, steps[1..]);
    }
  }

  // ------------------------------------------------------------------ a reverted block that is handled all the same

  // A revert of the newest block while the task is behind leaves the block waiting in the cache if and only if the
  // cache holds anything: only the latest height steps back.
  lemma StaleIff(w: World, a: Task, stored: nat, fate: Fate)
    requires w.Valid() && Inv(w, a, stored, false) && Behind(a)
    ensures var b := w.feed(a.latest);
            var r := Receive(w.cfg, a, Delivery(Pop(b), fate));
            r == Reached.Alive(a.(latest := a.latest - 1)) && (b in r.task.cache <==> a.cache != [])
  {
    hide World.HandledTo;
    assert SameAt(w.feed, w.at, a.latest);
    if a.cache != [] {
      assert a.cache[|a.cache| - 1] == w.feed(a.latest);
    }
  }

  // Block b of height 2 comes first, is reverted, and c takes its place, while height 1 is stored. Two catch-up rounds
  // without errors follow.
  function StaleSteps(b: Block, c: Block): seq<Step> {
    var catchUp := Step.Round(Compensate(false, Lives), 1);
    [Step.Round(Messages([Delivery(Push(b), Lives)]), 1)]
    + ([Step.Round(Messages([Delivery(Pop(b), Lives), Delivery(Push(c), Lives)]), 1)] + ([catchUp] + [catchUp]))
  }

  // The feed is well-formed and leads to c, and nothing fails; the task ends with the rows of the reverted b for height
  // 2 and none of c.
  lemma StaleReached(at: nat -> Block, b: Block, c: Block)
    requires at(1).number == 1 && b.number == 2 && c.number == 2
    ensures Leads(Stack(2, []), [Push(b), Pop(b), Push(c)], Stack(2, [c]))
    ensures var s := Store(Part(Transfers, [at(1)]) + Part(Transfers, [b]), 2);
            Run(Config(2, 5, 100, 100, 0), Reached.Alive(Fresh(Store([], 0))), at, StaleSteps(b, c))
            == Reached.Alive(Task(2, 2, 0, [c], s))
  {
    var cfg, r, steps := Config(2, 5, 100, 100, 0), Reached.Alive(Fresh(Store([], 0))), StaleSteps(b, c);
    var a1 := Task(0, 2, 0, [b], Store([], 0));
    var a2 := Task(0, 2, 1, [b, c], Store([], 0));
    var a3 := Task(1, 2, 0, [b, c], Store(Part(Transfers, [at(1)]), 1));
    var a4 := Task(2, 2, 0, [c], Store(Part(Transfers, [at(1)]) + Part(Transfers, [b]), 2));
    StaleFeed(b, c);
    StaleArrives(at, b, c);
    assert Turn(cfg, a2, Db(at, 1), Compensate(false, Lives)) == Reached.Alive(a3);
    assert Turn(cfg, a3, Db(at, 1), Compensate(false, Lives)) == Reached.Alive(a4) by {
      assert [b, c][1..] == [c];
    }
    hide Turn, Part, Leads;
    RunNext(cfg, r, at, steps[0], [steps[1]] + ([steps[2]] + [steps[3]]));
    RunNext(cfg, Reached.Alive(a1), at, steps[1], [steps[2]] + [steps[3]]);
    RunNext(cfg, Reached.Alive(a2), at, steps[2], [steps[3]]);
    RunNext(cfg, Reached.Alive(a3), at, steps[3], []);
    assert [steps[3]] + [] == [steps[3]];
  }

  lemma StaleArrives(at: nat -> Block, b: Block, c: Block)
    requires b.number == 2 && c.number == 2
    ensures var cfg := Config(2, 5, 100, 100, 0);
            var a1 := Task(0, 2, 0, [b], Store([], 0));
            && Turn(cfg, Fresh(Store([], 0)), Db(at, 1), StaleSteps(b, c)[0].round) == Reached.Alive(a1)
            && Turn(cfg, a1, Db(at, 1), StaleSteps(b, c)[1].round)
               == Reached.Alive(Task(0, 2, 1, [b, c], Store([], 0)))
  {
    var cfg := Config(2, 5, 100, 100, 0);
    ReceiveOne(cfg, Fresh(Store([], 0)), Delivery(Push(b), Lives));
    var a, ds := Task(0, 2, 1, [b], Store([], 0)), [Delivery(Pop(b), Lives), Delivery(Push(c), Lives)];
    assert ds[1..] == [Delivery(Push(c), Lives)];
    assert Receive(cfg, a, ds[0]) == Reached.Alive(a.(latest := 1));
    ReceiveOne(cfg, a.(latest := 1), Delivery(Push(c), Lives));
    assert [b] + [c] == [b, c];
  }

  lemma StaleFeed(b: Block, c: Block)
    requires b.number == 2 && c.number == 2
    ensures Leads(Stack(2, []), [Push(b), Pop(b), Push(c)], Stack(2, [c]))
  {
    var feed := [Push(b), Pop(b), Push(c)];
    assert feed[1..] == [Pop(b), Push(c)] && feed[1..][1..] == [Push(c)] && feed[1..][1..][1..] == [];
    assert [] + [b] == [b] && [b][..0] == [] && [] + [c] == [c];
    assert Apply(Stack(2, [b]), Pop(b)) == Stack(2, []);
    assert WellFormed(Stack(2, [c]), []) && Leads(Stack(2, []), [Push(c)], Stack(2, [c]));
    assert Leads(Stack(2, [b]), [Pop(b), Push(c)], Stack(2, [c]));
  }
}
