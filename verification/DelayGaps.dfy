/** A run of the delayed sender from its start that skips heights for good. */
module DelayGaps {
  import opened Chain
  import opened DelaySpec
  import opened DelayRuns

  // The tables hold the blocks up to 2 while 3, 4 and 5 come on the feed; sending 3 fails. A catch-up pass without
  // errors follows, and then block 6 comes.
  function GapSteps(feed: nat -> Block, db: Db): seq<Step> {
    [Message(Push(feed(3)), db, false, Fine), Message(Push(feed(4)), db, false, SendFails),
     Message(Push(feed(5)), db, false, Fine),
     Token(db, false, _ => Fine), Message(Push(feed(6)), db, false, Fine)]
  }

  lemma {:induction false} OneMore(cfg: Config, t: Task, steps: seq<Step>, n: nat, t': Task, t'': Task)
    requires n < |steps| && Run(cfg, t, steps[..n]) == Alive(t') && Pass(cfg, t', steps[n]) == Alive(t'')
    ensures Run(cfg, t, steps[..n + 1]) == Alive(t'')
    ensures RunFits(cfg, t, steps[..n]) && StepFits(cfg, t', steps[n]) ==> RunFits(cfg, t, steps[..n + 1])
    decreases n
  {
    hide Pass, StepFits;
    if n == 0 {
      assert steps[..1][1..] == [];
      assert Run(cfg, t'', []) == Alive(t'') && RunFits(cfg, t'', []);
    } else {
      var first := Pass(cfg, t, steps[0]).task;
      assert steps[..n][1..] == steps[1..][..n - 1] && steps[..n + 1][1..] == steps[1..][..n];
      OneMore(cfg, first, steps[1..], n - 1, t', t'');
    }
  }

  // The task after n of the steps.
  function GapTask(feed: nat -> Block, n: nat): Task {
    if n == 0 then Task(2, 0, false, [], [])
    else if n == 1 then Task(2, 3, false, [feed(3)], [])
    else if n == 2 then Task(2, 4, false, [feed(3), feed(4)], [])
    else if n == 3 then Task(2, 5, false, [feed(4), feed(5)], [])
    else if n == 4 then Task(4, 5, false, [feed(4), feed(5)], [])
    else Task(5, 6, false, [feed(5), feed(6)], [Sent(feed(5), true)])
  }

  lemma GapPass(feed: nat -> Block, db: Db, n: nat)
    requires (forall h: nat :: feed(h).number == h) && DbNumbered(db) && db.stored == 2 && n < 5
    ensures Pass(Config(1, 5), GapTask(feed, n), GapSteps(feed, db)[n]) == Alive(GapTask(feed, n + 1))
    ensures n < 3 ==> StepFits(Config(1, 5), GapTask(feed, n), GapSteps(feed, db)[n])
  {
    assert ReadRange(db, 3, 4) == [];
  }

  lemma {:induction false} GapRun(feed: nat -> Block, db: Db, n: nat)
    requires (forall h: nat :: feed(h).number == h) && DbNumbered(db) && db.stored == 2 && n <= 5
    ensures Run(Config(1, 5), GapTask(feed, 0), GapSteps(feed, db)[..n]) == Alive(GapTask(feed, n))
    ensures n <= 3 ==> RunFits(Config(1, 5), GapTask(feed, 0), GapSteps(feed, db)[..n])
  {
    hide Pass, StepFits, GapTask;
    if n != 0 {
      GapRun(feed, db, n - 1);
      GapPass(feed, db, n - 1);
      OneMore(Config(1, 5), GapTask(feed, 0), GapSteps(feed, db), n - 1, GapTask(feed, n - 1), GapTask(feed, n));
    }
  }

  // A sender fresh from its start, with everything up to height 2 sent before, reaches the gap: before the catch-up
  // pass the run is as the theorem asks. The pass moves on to height 4, so heights 3 and 4 are never sent: block 5 is
  // next.
  lemma GapReached(feed: nat -> Block, db: Db)
    requires (forall h: nat :: feed(h).number == h) && DbNumbered(db) && db.stored == 2
    ensures var cfg, t, steps := Config(1, 5), Task(2, 0, false, [], []), GapSteps(feed, db);
            && RunFits(cfg, t, steps[..3])
            && Run(cfg, t, steps[..4]) == Alive(Task(4, 5, false, [feed(4), feed(5)], []))
            && Run(cfg, t, steps) == Alive(Task(5, 6, false, [feed(5), feed(6)], [Sent(feed(5), true)]))
  {
    hide Run, RunFits;
    GapRun(feed, db, 3);
    GapRun(feed, db, 4);
    GapRun(feed, db, 5);
    assert GapSteps(feed, db)[..5] == GapSteps(feed, db);
  }
}
