/** The fetcher and its consumers together, from the stored chain at start-up to what the tables hold. */
module Pipeline {
  import opened Chain
  import FetchSpec
  import FetchProofs
  import FetchTheorems
  import FetchDepth
  import FetchConvergence
  import Storage = StorageSpec
  import StorageProofs
  import StorageTheorems
  import Seqs
  import DelaySpec
  import DelayNumbering
  import DelayRuns
  import DelayFinality
  import AsyncSpec
  import AsyncMirror

  // The fetcher resumes above the stored chain db: the node's genesis block is the stored one, and heights leave room
  // for the window.
  ghost predicate Resumes(cfg: FetchSpec.Config, node: FetchSpec.Node, db: Stack) {
    && 1 <= cfg.blocksSafe && FetchSpec.Numbered(node) && FetchProofs.GenesisAgreed(node, db)
    && db.Contiguous() && 1 <= db.Next() && db.Next() + 2 * cfg.blocksSafe < TWO_64
  }

  // The tables hold the chain db, and a first block can follow.
  ghost predicate Stored(tables: Storage.Tables, db: Stack) {
    StorageProofs.Holds(tables, db) && StorageTheorems.Rooted(db)
  }

  // What the storage task's tables come to when the fetcher's events are all delivered. The tables alone, without the
  // buffer, hold a chain the feed went through.
  ghost predicate StoredAs(r: Storage.Reached, st: Stack, feed: seq<Event>, goal: Stack) {
    && (if r.Alive? then StorageProofs.Holds(StorageTheorems.Settled(r.task), goal) else r.cause == Storage.Database)
    && StorageTheorems.HoldsPart(StorageTheorems.TablesOf(r), st, feed)
  }

  lemma DeliveredRun(limits: Storage.Limits, tables: Storage.Tables, db: Stack, steps: seq<Storage.Step>)
    requires Stored(tables, db) && db.Next() + |steps| < TWO_64
    requires WellFormed(db, Storage.EventsOf(steps))
    ensures StoredAs(Storage.Run(limits, Storage.Resume(tables, 0), steps), db, Storage.EventsOf(steps),
                     Replay(db, Storage.EventsOf(steps)))
  {
    var s, feed := Storage.Resume(tables, 0), Storage.EventsOf(steps);
    StorageTheorems.ResumesIff(limits, tables, 0, db);
    StorageTheorems.RunRefines(limits, s, steps, db, db);
    hide StorageProofs.Holds, StorageTheorems.Settled, StorageTheorems.HoldsPart;
    assert StorageTheorems.Pushes(s.buffer) + feed == feed;
    var r := Storage.Run(limits, s, steps);
    if r.Alive? {
      var db' :| StorageTheorems.Inv(limits, r.task, db', Replay(db, feed));
      StorageTheorems.InvSettled(limits, r.task, db', Replay(db, feed));
    }
  }

  // A run of the fetcher that resumes above db publishes the feed and ends at the given height.
  ghost predicate Feeds(cfg: FetchSpec.Config, node: FetchSpec.Node, db: Stack, end: nat, turns: seq<FetchSpec.Turn>,
          feed: seq<Event>, height: nat) {
    && Resumes(cfg, node, db) && FetchProofs.TargetsFit(cfg, end, turns)
    && var f := FetchSpec.Run(cfg, node, FetchTheorems.Start(db, 2 * cfg.blocksSafe), end, turns);
       f.Alive? && f.events == feed && f.st.height == height
  }

  // Whatever the node answers, the feed takes the stored chain to one whose top is just below the fetcher's height.
  lemma FeedLeads(cfg: FetchSpec.Config, node: FetchSpec.Node, db: Stack, end: nat, turns: seq<FetchSpec.Turn>,
          feed: seq<Event>, height: nat)
    requires Feeds(cfg, node, db, end, turns, feed, height)
    ensures db.Contiguous() && WellFormed(db, feed) && height == Replay(db, feed).Next()
  {
    hide FetchProofs.Inv;
    FetchTheorems.StartFits(db, 2 * cfg.blocksSafe);
    FetchProofs.RunKeeps(cfg, node, FetchTheorems.Start(db, 2 * cfg.blocksSafe), end, turns, db, db.Next() - 1,
                         FetchTheorems.LoadFloor(db, 2 * cfg.blocksSafe));
  }

  // Whatever the node answers and whenever saves fail: the tables, buffer included, hold exactly the chain the
  // fetcher believes in, and its next height is one above their top.
  lemma TablesFollowFetcher(cfg: FetchSpec.Config, node: FetchSpec.Node, limits: Storage.Limits, tables: Storage.Tables,
                            db: Stack, end: nat, turns: seq<FetchSpec.Turn>, steps: seq<Storage.Step>, height: nat)
    requires Feeds(cfg, node, db, end, turns, Storage.EventsOf(steps), height)
    requires Stored(tables, db) && db.Next() + |steps| < TWO_64
    ensures var feed := Storage.EventsOf(steps);
            && WellFormed(db, feed) && height == Replay(db, feed).Next()
            && StoredAs(Storage.Run(limits, Storage.Resume(tables, 0), steps), db, feed, Replay(db, feed))
  {
    FeedLeads(cfg, node, db, end, turns, Storage.EventsOf(steps), height);
    DeliveredRun(limits, tables, db, steps);
  }

  predicate AllFine(steps: seq<Storage.Step>) {
    forall i {:trigger steps[i]} :: 0 <= i < |steps| ==> steps[i].fault.Fine?
  }

  // Without failures the storage task never stops because of the database.
  lemma {:induction false} FineKeepsUp(limits: Storage.Limits, s: Storage.Task, steps: seq<Storage.Step>)
    requires AllFine(steps)
    ensures var r := Storage.Run(limits, s, steps); r.Stopped? ==> r.cause == Storage.Feed
    decreases |steps|
  {
    if steps != [] {
      assert steps[0].fault.Fine?;
      var r := Storage.Handle(limits, s, steps[0].msg, steps[0].fault);
      if r.Alive? {
        FineKeepsUp(limits, r.task, steps[1..]);
      }
    }
  }

  // While the node keeps to one chain and nothing fails, the tables end up holding the node's chain: at every stored
  // height up to end - 1 the node's block, whatever fork among the loaded blocks the process started on.
  lemma TablesConverge(cfg: FetchSpec.Config, node: FetchSpec.Node, chain: nat -> Block, limits: Storage.Limits,
          tables: Storage.Tables, db: Stack, end: nat, fork: nat, steps: seq<Storage.Step>)
    requires Resumes(cfg, node, db) && Stored(tables, db) && 1 <= cfg.blockBatch && db.Next() + |steps| < TWO_64
    requires 2 * cfg.blocksSafe < db.Next()
    requires FetchConvergence.FixedTo(node, chain) && FetchConvergence.NodeChain(chain)
    requires db.Linked() && FetchConvergence.CollisionFree(db, chain) && FetchConvergence.ForkAt(db, chain, fork)
    requires db.Next() < end && end + 2 * cfg.blocksSafe <= TWO_64 && db.Next() <= fork + 2 * cfg.blocksSafe + 1
    requires var f := FetchConvergence.Sync(cfg, node, FetchTheorems.Start(db, 2 * cfg.blocksSafe), end,
                                            end - fork - 1);
             f.Alive? ==> Storage.EventsOf(steps) == f.events
    requires AllFine(steps)
    ensures var r := Storage.Run(limits, Storage.Resume(tables, 0), steps);
            && r.Alive?
            && exists st: Stack ::
                 st.base == db.base && FetchConvergence.IsPrefixOf(st, chain, end)
                 && StorageProofs.Holds(StorageTheorems.Settled(r.task), st)
  {
    hide StorageTheorems.Settled, FetchConvergence.Sync, FetchConvergence.IsPrefixOf, StorageTheorems.HoldsPart;
    var w := 2 * cfg.blocksSafe;
    var s := FetchTheorems.Start(db, w);
    FetchTheorems.StartFits(db, w);
    FetchConvergence.Converges(cfg, node, chain, s, end, db, db.Next() - 1, FetchTheorems.LoadFloor(db, w), fork);
    DeliveredRun(limits, tables, db, steps);
    FineKeepsUp(limits, Storage.Resume(tables, 0), steps);
  }

  // ------------------------------------------------------------------ several lives of the process

  // One life: what the node answers, where the fetcher goes, and what the storage task makes of what it is delivered.
  datatype Life = Life(node: FetchSpec.Node, end: nat, turns: seq<FetchSpec.Turn>, steps: seq<Storage.Step>)

  // The fetcher resumed from the chain db the tables hold, and published what was delivered and then lost.
  ghost predicate Lived(cfg: FetchSpec.Config, tables: Storage.Tables, l: Life, db: Stack, lost: seq<Event>,
          height: nat) {
    && Stored(tables, db) && db.Next() + |l.steps| < TWO_64
    && Feeds(cfg, l.node, db, l.end, l.turns, Storage.EventsOf(l.steps) + lost, height)
  }

  // Each life resumes from a chain the tables hold, which what was delivered in the life before went through.
  ghost predicate AllLived(cfg: FetchSpec.Config, limits: Storage.Limits, tables: Storage.Tables, db: Stack,
          lives: seq<Life>)
    decreases |lives|
  {
    lives == []
    || ((exists lost, height :: Lived(cfg, tables, lives[0], db, lost, height))
        && exists db' ::
             GoesThrough(db, Delivered(lives[0]), db')
             && AllLived(cfg, limits, StorageTheorems.Life(limits, tables, lives[0].steps), db', lives[1..]))
  }

  // The part of the fetcher's feed that reached the storage task.
  function Delivered(l: Life): seq<Event> {
    Storage.EventsOf(l.steps)
  }

  function StepsOf(l: Life): seq<Storage.Step> {
    l.steps
  }

  lemma LivedIsFed(cfg: FetchSpec.Config, tables: Storage.Tables, l: Life, db: Stack, lost: seq<Event>, height: nat)
    requires Lived(cfg, tables, l, db, lost, height)
    ensures StorageTheorems.Fed(tables, db, l.steps)
  {
    FeedLeads(cfg, l.node, db, l.end, l.turns, Delivered(l) + lost, height);
    SplitFeed(db, Delivered(l), lost);
  }

  lemma {:induction false} AllLivedIsFed(cfg: FetchSpec.Config, limits: Storage.Limits, tables: Storage.Tables,
          db: Stack, lives: seq<Life>)
    requires AllLived(cfg, limits, tables, db, lives)
    ensures StorageTheorems.AllFed(limits, tables, db, Seqs.Map(StepsOf, lives))
    ensures Seqs.Map(Storage.EventsOf, Seqs.Map(StepsOf, lives)) == Seqs.Map(Delivered, lives)
    decreases |lives|
  {
    hide Lived, StorageTheorems.Fed, StorageTheorems.Life, GoesThrough;
    if lives != [] {
      var t' := StorageTheorems.Life(limits, tables, lives[0].steps);
      var lost, height :| Lived(cfg, tables, lives[0], db, lost, height);
      LivedIsFed(cfg, tables, lives[0], db, lost, height);
      var db' :| GoesThrough(db, Delivered(lives[0]), db') && AllLived(cfg, limits, t', db', lives[1..]);
      AllLivedIsFed(cfg, limits, t', db', lives[1..]);
      assert Seqs.Map(StepsOf, lives)[0] == lives[0].steps;
      assert Seqs.Map(StepsOf, lives)[1..] == Seqs.Map(StepsOf, lives[1..]);
    }
  }

  // However often the process dies, whatever the node answers in each life, and however much of what was published is
  // lost: the tables hold a chain that the delivered parts of the fetcher's feeds went through, one after the other,
  // with one ok block row a height, and the next life resumes from its top.
  lemma LivesFollowFetcher(cfg: FetchSpec.Config, limits: Storage.Limits, tables: Storage.Tables, db: Stack,
          lives: seq<Life>)
    requires StorageProofs.Holds(tables, db) && AllLived(cfg, limits, tables, db, lives)
    ensures StorageTheorems.HoldsAfter(StorageTheorems.Lives(limits, tables, Seqs.Map(StepsOf, lives)), db,
                                       Seqs.Map(Delivered, lives))
  {
    hide StorageTheorems.AllFed, StorageTheorems.Lives, StorageTheorems.HoldsAfter, StorageProofs.Holds;
    AllLivedIsFed(cfg, limits, tables, db, lives);
    StorageTheorems.LivesHoldChain(limits, tables, db, Seqs.Map(StepsOf, lives));
  }

  // ------------------------------------------------------------------ the other consumers on the same feed

  // The delayed sender meets no unexpected height on anything the fetcher publishes.
  lemma DelayFollowsFetcher(cfg: FetchSpec.Config, node: FetchSpec.Node, db: Stack, end: nat,
                            turns: seq<FetchSpec.Turn>, height: nat, delay: DelaySpec.Config, cur: nat,
                            steps: seq<DelaySpec.Step>)
    requires Feeds(cfg, node, db, end, turns, DelaySpec.EventsOf(steps), height)
    requires DelayRuns.RunFits(delay, DelaySpec.Task(cur, 0, false, [], []), steps)
    ensures DelayNumbering.Keeps(delay, DelaySpec.Run(delay, DelaySpec.Task(cur, 0, false, [], []), steps), height, cur)
  {
    FeedLeads(cfg, node, db, end, turns, DelaySpec.EventsOf(steps), height);
    DelayRuns.RunKeeps(delay, DelaySpec.Task(cur, 0, false, [], []), steps, db, cur);
  }

  // With a delay beyond the fetcher's window, what the delayed sender sends from its queue is never reverted, whatever
  // the node answers: each block sent is the one the chain still has.
  lemma DelayFinalOnFetcher(cfg: FetchSpec.Config, node: FetchSpec.Node, db: Stack, end: nat,
                            turns: seq<FetchSpec.Turn>, height: nat, delay: DelaySpec.Config, cur: nat,
                            steps: seq<DelaySpec.Step>)
    requires Feeds(cfg, node, db, end, turns, DelaySpec.EventsOf(steps), height)
    requires DelayRuns.RunFits(delay, DelaySpec.Task(cur, 0, false, [], []), steps) && 2 * cfg.blocksSafe < delay.delay
    ensures var feed := DelaySpec.EventsOf(steps);
            var r := DelaySpec.Run(delay, DelaySpec.Task(cur, 0, false, [], []), steps);
            && WellFormed(db, feed)
            && r.Alive? && DelayFinality.OnChain(r.task.sent, Replay(db, feed))
  {
    hide DelayNumbering.Inv, FetchProofs.Inv, DelayRuns.RunFits, FetchSpec.Run, DelaySpec.Run;
    var feed, t, w, high := DelaySpec.EventsOf(steps), DelaySpec.Task(cur, 0, false, [], []), 2 * cfg.blocksSafe,
        db.Next() - 1;
    FeedLeads(cfg, node, db, end, turns, feed, height);
    FetchTheorems.StartFits(db, w);
    FetchDepth.RunReach(cfg, node, FetchTheorems.Start(db, w), end, turns, db, high, FetchTheorems.LoadFloor(db, w));
    DelayFinality.ReachIsShallow(delay, w, high, feed);
    DelayFinality.StartFinal(delay, cur, db, high);
    DelayFinality.RunFinal(delay, t, steps, db, high, cur);
  }

  // A caught-up ERC-20 task mirrors whatever the fetcher publishes.
  lemma Erc20FollowsFetcher(cfg: FetchSpec.Config, node: FetchSpec.Node, db: Stack, end: nat,
                            turns: seq<FetchSpec.Turn>, height: nat, async: AsyncSpec.Config, task: AsyncSpec.Task,
                            ds: seq<AsyncSpec.Delivery>, exact: bool)
    requires 1 <= async.bufferSize && AsyncMirror.Mirrored(task, db, exact) && db.Next() + |ds| < TWO_64
    requires Feeds(cfg, node, db, end, turns, AsyncMirror.EventsOf(ds), height)
    ensures AsyncMirror.Follow(AsyncSpec.ReceiveAll(async, task, ds), db, AsyncMirror.EventsOf(ds), exact)
  {
    hide AsyncMirror.Mirrored, AsyncMirror.Follow;
    FeedLeads(cfg, node, db, end, turns, AsyncMirror.EventsOf(ds), height);
    AsyncMirror.MirrorsFeed(async, task, ds, db, exact);
  }
}
