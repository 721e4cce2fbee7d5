/** A caught-up ERC-20 task mirrors the feed through consumed and reverted blocks. */
module AsyncMirror {
  import opened Chain
  import opened Table
  import opened AsyncSpec
  import AsyncRows
  import AsyncTheorems
  import Listing
  import Seqs

  // The ok rows are those of the stack's blocks, and the task's number is the top of the stack. Each block may have
  // been written as the feed or as the tables gave it, its transfers in either order; exact: all as the stack has them.
  ghost predicate Describes(s: Store, st: Stack, exact: bool) {
    && st.Contiguous() && st.Next() < TWO_64 && s.number == Sub64(st.Next(), 1)
    && exists written :: Shows(s.rows, st, exact, written)
  }

  ghost predicate Shows(rows: Rows<Transfer>, st: Stack, exact: bool, written: seq<Block>) {
    && AsyncTheorems.AllAlike(written, st.blocks) && (exact ==> written == st.blocks)
    && Mirrors(rows, Transfers, Stack(st.base, written))
  }

  ghost predicate Mirrored(a: Task, st: Stack, exact: bool) {
    Describes(a.store, st, exact) && a.latest <= a.cur == a.store.number && a.tokens == 0
  }

  // In whatever order a block's transfers were written: every ERC-20 transfer log of the chain has exactly one ok row,
  // and there is no other.
  lemma DescribesOnce(s: Store, st: Stack, exact: bool)
    requires Describes(s, st, exact)
    ensures multiset(Live(s.rows)) == multiset(Part(Transfers, st.blocks))
    ensures Listing.RowsOnce(Listing.OkRows(s.rows), st.blocks, AsyncRows.HasTransfer)
    ensures exact ==> Listing.RowsInOrder(Listing.OkRows(s.rows), st.blocks, AsyncRows.HasTransfer)
  {
    hide Listing.RowsInOrder, Listing.RowsOnce;
    var written :| Shows(s.rows, st, exact, written);
    AsyncTheorems.PartAlike(written, st.blocks);
    Listing.LiveIsOk(s.rows);
    AsyncRows.TransferRowsOnce(Live(s.rows), st.blocks);
    AsyncRows.TransferRows(st.blocks);
  }

  lemma MirrorsMore<T>(rows: Rows<T>, pick: Block -> seq<T>, st: Stack, more: seq<Block>)
    requires Mirrors(rows, pick, st)
    ensures Mirrors(rows + Part(pick, more), pick, Stack(st.base, st.blocks + more))
  {
    hide Live, Part;
    AsyncTheorems.PartConcat(pick, st.blocks, more);
    LiveConcat(rows, Part(pick, more));
    LivePart(pick, more);
  }

  lemma SpanContiguous(w: AsyncTheorems.World, st0: Stack, hi: nat)
    requires w.Valid() && st0.Contiguous() && st0.Next() == w.origin + 1 <= hi
    ensures Stack(st0.base, st0.blocks + Span(w.feed, w.origin + 1, hi)).Contiguous()
  {
    var st := Stack(st0.base, st0.blocks + Span(w.feed, w.origin + 1, hi));
    forall i: nat ensures st.NumberedAt(i) {
      assert st0.NumberedAt(i);
      assert AsyncTheorems.SameAt(w.feed, w.at, st.base + i);
    }
  }

  lemma AlikeConcat(a: seq<Block>, b: seq<Block>, c: seq<Block>, d: seq<Block>)
    requires AsyncTheorems.AllAlike(a, b) && AsyncTheorems.AllAlike(c, d)
    ensures AsyncTheorems.AllAlike(a + c, b + d)
  {
    hide AsyncTheorems.Alike;
    var ac, bd := a + c, b + d;
    forall i: nat ensures AsyncTheorems.AlikeAt(ac, bd, i) {
      assert AsyncTheorems.AlikeAt(a, b, i);
      assert i >= |a| ==> AsyncTheorems.AlikeAt(c, d, i - |a|);
    }
  }

  lemma AlikeSame(a: seq<Block>)
    ensures AsyncTheorems.AllAlike(a, a)
  {
  }

  lemma AlikeContiguous(base: nat, a: seq<Block>, b: seq<Block>)
    requires AsyncTheorems.AllAlike(a, b) && Stack(base, b).Contiguous()
    ensures Stack(base, a).Contiguous()
  {
    forall i: nat ensures Stack(base, a).NumberedAt(i) {
      assert Stack(base, b).NumberedAt(i);
      assert AsyncTheorems.AlikeAt(a, b, i);
    }
  }

  // The rows a catch-up has written mirror the chain it has caught up with.
  lemma CaughtUpDescribes(w: AsyncTheorems.World, s: Store, st0: Stack)
    requires w.Valid() && w.HandledTo(s)
    requires st0.Contiguous() && st0.Next() == w.origin + 1 && Mirrors(w.rows0, Transfers, st0)
    ensures Describes(s, Stack(st0.base, st0.blocks + Span(w.feed, w.origin + 1, s.number + 1)), false)
  {
    var more := Span(w.feed, w.origin + 1, s.number + 1);
    var st := Stack(st0.base, st0.blocks + more);
    hide Live, Part, Span, AsyncTheorems.SameTransfers, AsyncTheorems.AllAlike, AsyncTheorems.World.Versions;
    var read :| w.Versions(read, w.origin + 1, s.number + 1) && s.rows == w.rows0 + Part(Transfers, read);
    AsyncTheorems.VersionsAlike(w, read, w.origin + 1, s.number + 1);
    AlikeSame(st0.blocks);
    AlikeConcat(st0.blocks, st0.blocks, read, more);
    SpanContiguous(w, st0, s.number + 1);
    MirrorsMore(w.rows0, Transfers, st0, read);
    assert Shows(s.rows, st, false, st0.blocks + read);
  }

  // A task that has caught up joins the feed.
  lemma CaughtUpMirrors(w: AsyncTheorems.World, a: Task, stored: nat, first: bool, st0: Stack)
    requires w.Valid() && AsyncTheorems.Inv(w, a, stored, first) && !Behind(a)
    requires st0.Contiguous() && st0.Next() == w.origin + 1 && Mirrors(w.rows0, Transfers, st0)
    ensures Mirrored(a, Stack(st0.base, st0.blocks + Span(w.feed, w.origin + 1, a.cur + 1)), false)
  {
    hide AsyncTheorems.World.HandledTo, Describes;
    CaughtUpDescribes(w, a.store, st0);
  }

  lemma {:induction false} LivePart<T>(pick: Block -> seq<T>, blocks: seq<Block>)
    ensures Live(Part(pick, blocks)) == Part(pick, blocks)
  {
    if blocks != [] {
      var last := blocks[|blocks| - 1];
      LivePart(pick, blocks[..|blocks| - 1]);
      LiveConcat(Part(pick, blocks[..|blocks| - 1]), RowsOf(last.number, pick(last)));
      LiveNew(last.number, pick(last));
    }
  }

  lemma SaveDescribes(s: Store, st: Stack, b: Block, exact: bool)
    requires Describes(s, st, exact) && Enabled(st, Push(b)) && b.number + 1 < TWO_64
    ensures Describes(Saved(s, [b]), Apply(st, Push(b)), exact)
  {
    var written :| Shows(s.rows, st, exact, written);
    PushMirrors(s.rows, Transfers, Stack(st.base, written), b);
    ApplyContiguous(st, Push(b));
    assert [b][..0] == [];
    assert Part(Transfers, [b]) == RowsOf(b.number, Transfers(b));
    AlikeSame([b]);
    AlikeConcat(written, st.blocks, [b], [b]);
    assert Shows(Saved(s, [b]).rows, Apply(st, Push(b)), exact, written + [b]);
  }

  lemma RevertDescribes(s: Store, st: Stack, b: Block, exact: bool)
    requires Describes(s, st, exact) && Enabled(st, Pop(b))
    ensures b.number == st.Next() - 1 == s.number && Describes(RevertStore(s, b.number), Apply(st, Pop(b)), exact)
  {
    hide Live, Part, Flip, AsyncTheorems.Alike;
    assert st.NumberedAt(|st.blocks| - 1);
    var written :| Shows(s.rows, st, exact, written);
    AlikeContiguous(st.base, written, st.blocks);
    PopMirrors(s.rows, Transfers, Stack(st.base, written));
    ApplyContiguous(st, Pop(b));
    AsyncTheorems.AlikeLess(written, st.blocks);
    assert Shows(RevertStore(s, b.number).rows, Apply(st, Pop(b)), exact, written[..|written| - 1]);
  }

  lemma DescribesTop(s: Store, st: Stack, exact: bool)
    requires Describes(s, st, exact)
    ensures st.Next() < TWO_64 && Add64(s.number, 1) == st.Next()
  {
  }

  lemma PushMirrored(cfg: Config, a: Task, b: Block, fate: Fate, st: Stack, exact: bool)
    requires 1 <= cfg.bufferSize && Mirrored(a, st, exact) && Enabled(st, Push(b)) && st.Next() + 1 < TWO_64
    ensures var r := Receive(cfg, a, Delivery(Push(b), fate));
            if r.Alive? then Mirrored(r.task, Apply(st, Push(b)), exact)
            else r.Dead? && (Describes(r.store, st, exact) || Describes(r.store, Apply(st, Push(b)), exact))
  {
    hide Describes, Add64, Part;
    DescribesTop(a.store, st, exact);
    SaveDescribes(a.store, st, b, exact);
    assert [b][..0] == [] && [b][..1] == [b];
  }

  lemma PopMirrored(cfg: Config, a: Task, b: Block, fate: Fate, st: Stack, exact: bool)
    requires 1 <= cfg.bufferSize && Mirrored(a, st, exact) && Enabled(st, Pop(b))
    ensures var r := Receive(cfg, a, Delivery(Pop(b), fate));
            if r.Alive? then Mirrored(r.task, Apply(st, Pop(b)), exact)
            else r.Dead? && Describes(r.store, st, exact)
  {
    hide Describes, Flip;
    RevertDescribes(a.store, st, b, exact);
  }

  // One event: the task mirrors the stack after it, or stops with a store that describes the stack before or after.
  lemma ReceiveMirrors(cfg: Config, a: Task, d: Delivery, st: Stack, exact: bool)
    requires 1 <= cfg.bufferSize && Mirrored(a, st, exact) && Enabled(st, d.event) && st.Next() + 1 < TWO_64
    ensures var r := Receive(cfg, a, d);
            if r.Alive? then Mirrored(r.task, Apply(st, d.event), exact)
            else r.Dead? && (Describes(r.store, st, exact) || Describes(r.store, Apply(st, d.event), exact))
  {
    hide Mirrored, Describes, Receive, Enabled, Apply;
    match d.event
    case Push(b) => PushMirrored(cfg, a, b, d.fate, st, exact);
    case Pop(b) => PopMirrored(cfg, a, b, d.fate, st, exact);
  }

  function EventsOf(ds: seq<Delivery>): (r: seq<Event>)
    ensures |r| == |ds|
  {
    if ds == [] then [] else [ds[0].event] + EventsOf(ds[1..])
  }

  // What a stretch of the feed comes to: the task mirrors the chain it leads to, or stops with a store that describes a
  // chain the feed went through.
  ghost predicate Follow(r: Reached, st: Stack, feed: seq<Event>, exact: bool) {
    if r.Alive? then exists st' :: Leads(st, feed, st') && Mirrored(r.task, st', exact)
    else DescribesPart(Durable(r), st, feed, exact)
  }

  ghost predicate DescribesPart(s: Store, st: Stack, feed: seq<Event>, exact: bool) {
    exists st' :: GoesThrough(st, feed, st') && Describes(s, st', exact)
  }

  lemma FollowNow(s: Store, st: Stack, feed: seq<Event>, exact: bool)
    requires Describes(s, st, exact)
    ensures DescribesPart(s, st, feed, exact)
  {
    ThroughStart(st, feed);
  }

  lemma FollowLater(r: Reached, st: Stack, e: Event, feed: seq<Event>, exact: bool)
    requires Enabled(st, e) && Follow(r, Apply(st, e), feed, exact)
    ensures Follow(r, st, [e] + feed, exact)
  {
    hide Mirrored, Describes, Leads, GoesThrough;
    LeadsOne(st, e);
    if r.Alive? {
      var st' :| Leads(Apply(st, e), feed, st') && Mirrored(r.task, st', exact);
      LeadsConcat(st, [e], Apply(st, e), feed, st');
    } else {
      var st' :| GoesThrough(Apply(st, e), feed, st') && Describes(Durable(r), st', exact);
      ThroughLater(st, [e], Apply(st, e), feed, st');
    }
  }

  // A caught-up task mirrors the feed exactly, event by event, whatever saves or reverts are cut short.
  lemma {:induction false} MirrorsFeed(cfg: Config, a: Task, ds: seq<Delivery>, st: Stack, exact: bool)
    requires 1 <= cfg.bufferSize && Mirrored(a, st, exact) && WellFormed(st, EventsOf(ds)) && st.Next() + |ds| < TWO_64
    ensures Follow(ReceiveAll(cfg, a, ds), st, EventsOf(ds), exact)
    decreases |ds|
  {
    LeadsNowhere(st);
    hide Mirrored, Describes, Leads, Receive;
    if ds == [] {
    } else {
      var e, rest := ds[0].event, EventsOf(ds[1..]);
      assert EventsOf(ds)[0] == e && EventsOf(ds)[1..] == rest;
      ReceiveMirrors(cfg, a, ds[0], st, exact);
      var r := Receive(cfg, a, ds[0]);
      assert ReceiveAll(cfg, a, ds) == if r.Alive? then ReceiveAll(cfg, r.task, ds[1..]) else r;
      if r.Alive? {
        MirrorsFeed(cfg, r.task, ds[1..], Apply(st, e), exact);
      } else if Describes(r.store, st, exact) {
        FollowNow(r.store, st, EventsOf(ds), exact);
      } else {
        FollowNow(r.store, Apply(st, e), rest, exact);
      }
      if r.Alive? || !Describes(r.store, st, exact) {
        FollowLater(ReceiveAll(cfg, a, ds), st, e, rest, exact);
      }
    }
  }

  // A caught-up task never runs a catch-up round, so a round of messages is all it does.
  lemma RoundMirrors(cfg: Config, a: Task, db: Db, round: Round, st: Stack, exact: bool)
    requires 1 <= cfg.bufferSize && Mirrored(a, st, exact) && cfg.endNumber == 0
    ensures Turn(cfg, a, db, round) == if round.Messages? then ReceiveAll(cfg, a, round.ds) else Reached.Alive(a)
  {
  }

  // A restart from what was committed last mirrors the chain the store describes.
  lemma RestartMirrors(s: Store, st: Stack, exact: bool)
    requires Describes(s, st, exact)
    ensures Mirrored(Fresh(s), st, exact)
  {
  }

  // ------------------------------------------------------------------ whole runs and restarts

  predicate AllRounds(steps: seq<Step>) {
    forall i {:trigger steps[i]} :: 0 <= i < |steps| ==> steps[i].Round?
  }

  // The messages of a run, in order.
  function Received(steps: seq<Step>): seq<Delivery> {
    if steps == [] then []
    else (if steps[0].Round? && steps[0].round.Messages? then steps[0].round.ds else []) + Received(steps[1..])
  }

  lemma {:induction false} ReceiveAllConcat(cfg: Config, a: Task, ds: seq<Delivery>, more: seq<Delivery>)
    requires 1 <= cfg.bufferSize
    ensures var r := ReceiveAll(cfg, a, ds);
            ReceiveAll(cfg, a, ds + more) == if r.Alive? then ReceiveAll(cfg, r.task, more) else r
    decreases |ds|
  {
    hide Receive;
    if ds == [] {
      assert ds + more == more;
    } else {
      assert (ds + more)[0] == ds[0] && (ds + more)[1..] == ds[1..] + more;
      var r := Receive(cfg, a, ds[0]);
      if r.Alive? {
        ReceiveAllConcat(cfg, r.task, ds[1..], more);
      }
    }
  }

  lemma {:induction false} EventsConcat(ds: seq<Delivery>, more: seq<Delivery>)
    ensures EventsOf(ds + more) == EventsOf(ds) + EventsOf(more)
  {
    if ds == [] {
      assert ds + more == more;
    } else {
      assert (ds + more)[0] == ds[0] && (ds + more)[1..] == ds[1..] + more;
      EventsConcat(ds[1..], more);
    }
  }

  lemma {:induction false} StaysDown(cfg: Config, r: Reached, at: nat -> Block, steps: seq<Step>)
    requires 1 <= cfg.bufferSize && !r.Alive? && AllRounds(steps)
    ensures Run(cfg, r, at, steps) == r
    decreases |steps|
  {
    if steps != [] {
      StaysDown(cfg, r, at, steps[1..]);
    }
  }

  // The feed of a life continues the chain st.
  ghost predicate Continues(st: Stack, steps: seq<Step>) {
    AllRounds(steps) && WellFormed(st, EventsOf(Received(steps))) && st.Next() + |Received(steps)| < TWO_64
  }

  // Between two restarts the rounds of a caught-up task come to its messages, one after the other: whatever catch-up
  // rounds the channel lets in between, they do nothing.
  lemma {:induction false} RoundsAreFeed(cfg: Config, a: Task, at: nat -> Block, steps: seq<Step>, st: Stack,
          exact: bool)
    requires 1 <= cfg.bufferSize && cfg.endNumber == 0 && Mirrored(a, st, exact) && Continues(st, steps)
    ensures Run(cfg, Reached.Alive(a), at, steps) == ReceiveAll(cfg, a, Received(steps))
    decreases |steps|
  {
    hide Mirrored, Describes, Turn;
    if steps != [] {
      var db := Db(at, steps[0].stored);
      RoundMirrors(cfg, a, db, steps[0].round, st, exact);
      if steps[0].round.Messages? {
        var ds, more := steps[0].round.ds, Received(steps[1..]);
        ReceiveAllConcat(cfg, a, ds, more);
        EventsConcat(ds, more);
        SplitFeed(st, EventsOf(ds), EventsOf(more));
        MirrorsFeed(cfg, a, ds, st, exact);
        var r := ReceiveAll(cfg, a, ds);
        if r.Alive? {
          var st' :| Leads(st, EventsOf(ds), st') && Mirrored(r.task, st', exact);
          NextAtMost(st, EventsOf(ds));
          RoundsAreFeed(cfg, r.task, at, steps[1..], st', exact);
        } else {
          StaysDown(cfg, r, at, steps[1..]);
        }
      } else {
        assert Received(steps) == Received(steps[1..]);
        RoundsAreFeed(cfg, a, at, steps[1..], st, exact);
      }
    }
  }

  // What several lives of the process leave: each starts from the committed rows alone.
  function Lives(cfg: Config, s: Store, at: nat -> Block, lives: seq<seq<Step>>): Store
    requires 1 <= cfg.bufferSize
    decreases |lives|
  {
    if lives == [] then s else Lives(cfg, Durable(Run(cfg, Reached.Alive(Fresh(s)), at, lives[0])), at, lives[1..])
  }

  function FeedOf(steps: seq<Step>): seq<Event> {
    EventsOf(Received(steps))
  }

  // Each life is fed from a chain that the committed rows describe when it starts, and that the feed of the life before
  // went through.
  ghost predicate AllFed(cfg: Config, s: Store, at: nat -> Block, st: Stack, lives: seq<seq<Step>>, exact: bool)
    requires 1 <= cfg.bufferSize
    decreases |lives|
  {
    lives == []
    || (Describes(s, st, exact) && Continues(st, lives[0])
        && exists st' ::
             GoesThrough(st, FeedOf(lives[0]), st')
             && AllFed(cfg, Durable(Run(cfg, Reached.Alive(Fresh(s)), at, lives[0])), at, st', lives[1..], exact))
  }

  // However a life ends, the committed rows describe a chain that its feed went through.
  lemma LifeDescribes(cfg: Config, s: Store, at: nat -> Block, steps: seq<Step>, st: Stack, exact: bool)
    requires 1 <= cfg.bufferSize && cfg.endNumber == 0 && Describes(s, st, exact) && Continues(st, steps)
    ensures DescribesPart(Durable(Run(cfg, Reached.Alive(Fresh(s)), at, steps)), st, FeedOf(steps), exact)
  {
    RestartMirrors(s, st, exact);
    RoundsAreFeed(cfg, Fresh(s), at, steps, st, exact);
    var feed, r := FeedOf(steps), Run(cfg, Reached.Alive(Fresh(s)), at, steps);
    hide Describes, Run, Continues;
    MirrorsFeed(cfg, Fresh(s), Received(steps), st, exact);
    if r.Alive? {
      var st' :| Leads(st, feed, st') && Mirrored(r.task, st', exact);
      assert feed[..|feed|] == feed;
      assert GoesThrough(st, feed, st');
    }
  }

  // After any number of lives, each cut short anywhere: the committed rows and number describe a chain that the feeds
  // of the lives went through, one after the other.
  lemma {:induction false} LivesDescribe(cfg: Config, s: Store, at: nat -> Block, st: Stack, lives: seq<seq<Step>>,
          exact: bool)
    requires 1 <= cfg.bufferSize && cfg.endNumber == 0 && Describes(s, st, exact)
    requires AllFed(cfg, s, at, st, lives, exact)
    ensures exists goal ::
              Passes(st, Seqs.Map(FeedOf, lives), goal) && Describes(Lives(cfg, s, at, lives), goal, exact)
    decreases |lives|
  {
    hide Describes, Continues, Run, GoesThrough, FeedOf;
    if lives == [] {
      assert Passes(st, Seqs.Map(FeedOf, lives), st);
    } else {
      var s' := Durable(Run(cfg, Reached.Alive(Fresh(s)), at, lives[0]));
      LifeDescribes(cfg, s, at, lives[0], st, exact);
      var st' :| GoesThrough(st, FeedOf(lives[0]), st') && (lives[1..] == [] ==> Describes(s', st', exact))
                 && AllFed(cfg, s', at, st', lives[1..], exact);
      LivesDescribe(cfg, s', at, st', lives[1..], exact);
      var goal :| Passes(st', Seqs.Map(FeedOf, lives[1..]), goal)
                  && Describes(Lives(cfg, s', at, lives[1..]), goal, exact);
      assert Seqs.Map(FeedOf, lives)[0] == FeedOf(lives[0])
             && Seqs.Map(FeedOf, lives)[1..] == Seqs.Map(FeedOf, lives[1..]);
      assert Passes(st, Seqs.Map(FeedOf, lives), goal);
    }
  }
}
