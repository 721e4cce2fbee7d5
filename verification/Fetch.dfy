/** The fetcher as the program runs it. Each method is proved to do what FetchSpec says. */
module Fetch {
  import opened Chain
  import opened FetchSpec
  import opened FetchProofs
  import FetchTheorems
  import FetchConvergence
  import Seqs
  import Sorting

  // The heights from..to in ascending order.
  function Heights(from: nat, to: nat): (r: seq<nat>)
    requires from <= to
    ensures |r| == to - from && forall i {:trigger r[i]} :: 0 <= i < |r| ==> r[i] == from + i
  {
    seq(to - from, i requires 0 <= i < to - from => from + i)
  }

  // The fetcher's invariant.
  ghost predicate Sound(cfg: Config, node: Node, s: State, st: Stack, high: nat, floor: nat) {
    GenesisAgreed(node, st) && Inv(2 * cfg.blocksSafe, s.height, s.cache, st, high, floor)
  }

  // The order in which the workers deliver the blocks of a range: any permutation.
  type Arrival = (nat, nat) -> seq<nat>

  ghost predicate Complete(arrival: Arrival) {
    forall from: nat, to: nat {:trigger arrival(from, to)} :: from <= to ==>
        multiset(arrival(from, to)) == multiset(Heights(from, to))
  }

  class Fetcher {
    const cfg: Config
    var height: nat
    var startNum: nat
    var firstLoop: bool
    var blockCache: map<nat, Block>
    var clock: nat
    var feed: seq<Event>

    ghost function St(): State
      reads this
    {
      State(height, startNum, firstLoop, blockCache, clock)
    }

    // A fetcher that resumes above the stored chain, with the end of that chain in its cache.
    constructor (cfg: Config, db: Stack)
      ensures this.cfg == cfg && St() == FetchTheorems.Start(db, 2 * cfg.blocksSafe) && feed == []
    {
      this.cfg := cfg;
      height := db.Next();
      startNum := db.Next();
      firstLoop := true;
      clock := 0;
      feed := [];
      var endHeight := if db.blocks == [] then 0 else db.Next() - 1;
      if endHeight > 0 {
        var startHeight := 0;
        if startHeight < Sub64(endHeight, 2 * cfg.blocksSafe) {
          startHeight := Sub64(endHeight, 2 * cfg.blocksSafe);
        }
        blockCache := FetchTheorems.Rows(db, startHeight, endHeight);
      } else {
        blockCache := map[];
      }
    }

    // Walks the cache down against the parent hashes the node reports.
    method GetLatestNormalBlock(node: Node, start: nat) returns (w: WalkResult)
      requires start < TWO_64 && MAX_64 !in blockCache
      modifies this`clock
      ensures w == Walk(blockCache, height == startNum, start, "", [], node, old(clock))
      ensures w.Found? ==> clock == w.clock
    {
      hide Walk, Disagree, Add64, Sub64;
      var local: nat := start;
      var localHash: Hash := "";
      var reverts: seq<Block> := [];
      while true
        invariant local < TWO_64
        invariant Walk(blockCache, height == startNum, local, localHash, reverts, node, clock)
               == Walk(blockCache, height == startNum, start, "", [], node, old(clock))
        decreases Add64(local, 1)
      {
        WalkStep(blockCache, height == startNum, local, localHash, reverts, node, clock);
        var ok := local in blockCache;
        if !ok && height != startNum {
          return Fatal;
        }
        if ok {
          localHash := blockCache[local].hash;
        }
        var blockChain := node(clock, Add64(local, 1));
        clock := clock + 1;
        if ok && Disagree(blockCache[local], blockChain) {
          reverts := reverts + [blockCache[local]];
          local := Sub64(local, 1);
        } else {
          return Found(local, localHash, reverts, clock);
        }
      }
    }

    // Fetches a range of blocks with a pool of workers and puts the answers in order.
    method GetBlocks(node: Node, from: nat, to: nat, arrival: Arrival) returns (blocks: seq<Block>)
      requires from <= to && Numbered(node) && Complete(arrival)
      modifies this`clock
      ensures blocks == Fetched(node, old(clock), from, to - from)
      ensures clock == old(clock) + (to - from)
    {
      var order := arrival(from, to);
      ArrivesInRange(arrival, from, to);
      var arrived: seq<Block> := [];
      var i := 0;
      while i < |order|
        invariant 0 <= i <= |order| && |arrived| == i
        invariant forall k :: 0 <= k < i ==> arrived[k] == node(clock + (order[k] - from), order[k])
      {
        arrived := arrived + [node(clock + (order[i] - from), order[i])];
        i := i + 1;
      }
      ArrivedPermutes(node, clock, from, to, order, arrived);
      FetchedSorted(node, clock, from, to - from);
      var expected := Fetched(node, clock, from, to - from);
      Sorting.SortErasesArrival((b: Block) => b.number, arrived, expected);
      blocks := Sorting.Sort((b: Block) => b.number, arrived);
      clock := clock + (to - from);
    }

    // Walks back to the last block the node still has, and takes the blocks above it off the feed.
    method Rewind(node: Node) returns (w: WalkResult)
      requires height < TWO_64 && MAX_64 !in blockCache
      modifies this`height, this`firstLoop, this`blockCache, this`clock, this`feed
      ensures w == WalkFrom(old(St()), node)
      ensures w.Found? ==> St() == AfterWalk(old(St()), w).st && feed == old(feed) + AfterWalk(old(St()), w).events
    {
      firstLoop := false;
      w := GetLatestNormalBlock(node, Sub64(height, 1));
      if w.Found? {
        if w.height < Sub64(height, 1) {
          SendReverts(w.reverts);
        }
        height := Add64(w.height, 1);
      }
    }

    // Fetches the next batch and publishes it.
    method PublishNext(node: Node, prevHash: Hash, end: nat, fetchErr: bool, arrival: Arrival)
      requires Numbered(node) && Complete(arrival)
      modifies this`height, this`blockCache, this`clock, this`feed
      ensures var p := PublishBatch(cfg, node, old(St()), prevHash, end, fetchErr);
              St() == p.st && feed == old(feed) + p.events
    {
      var heightEnd := height + cfg.blockBatch;
      if heightEnd > end {
        heightEnd := if end < height then height else end;
      }
      var blocks := GetBlocks(node, height, heightEnd, arrival);
      if !fetchErr {
        PublishBlocks(prevHash, blocks);
      }
    }

    // One iteration of the inner loop of Run.
    method Iteration(node: Node, end: nat, fetchErr: bool, arrival: Arrival) returns (alive: bool)
      requires height < TWO_64 && MAX_64 !in blockCache && Numbered(node) && Complete(arrival)
      modifies this`height, this`firstLoop, this`blockCache, this`clock, this`feed
      ensures match Iterate(cfg, node, old(St()), end, fetchErr)
              case Died => !alive
              case Alive(st', events) => alive && St() == st' && feed == old(feed) + events
    {
      hide WalkFrom, Numbered, Complete;
      var prevHash: Hash := "";
      ghost var pops: seq<Event> := [];
      if firstLoop || height + cfg.blocksSafe > end {
        var w := Rewind(node);
        if w.Fatal? {
          return false;
        }
        prevHash := w.hash;
        pops := AfterWalk(old(St()), w).events;
      }
      ghost var batch := PublishBatch(cfg, node, St(), prevHash, end, fetchErr);
      PublishNext(node, prevHash, end, fetchErr, arrival);
      assert old(feed) + pops + batch.events == old(feed) + (pops + batch.events);
      assert [] + batch.events == batch.events;
      alive := true;
    }

    method OneTurn(node: Node, end: nat, turn: Turn, arrival: Arrival, ghost st: Stack, ghost high: nat,
            ghost floor: nat)
      returns (alive: bool, ghost events: seq<Event>, ghost st': Stack, ghost high': nat)
      requires 1 <= cfg.blocksSafe && Numbered(node) && Complete(arrival)
      requires Sound(cfg, node, St(), st, high, floor) && end + 2 * cfg.blocksSafe <= TWO_64
      modifies this`height, this`firstLoop, this`blockCache, this`clock, this`feed
      ensures TakeTurn(cfg, node, old(St()), end, turn) == if alive then Alive(St(), events) else Died
      ensures alive ==> feed == old(feed) + events && Sound(cfg, node, St(), st', high', floor)
    {
      TurnKeeps(cfg, node, St(), end, turn, st, high, floor);
      ghost var r := TakeTurn(cfg, node, St(), end, turn);
      alive := true;
      if turn.Fetch? && height < end {
        InvBounds(2 * cfg.blocksSafe, height, blockCache, st, high, floor);
        alive := Iteration(node, end, turn.fetchErr, arrival);
      }
      if alive {
        events, st', high' := r.events, Replay(st, r.events), High(high, r.events);
      } else {
        events, st', high' := [], st, high;
      }
    }

    // The loops of Run, for as many turns as the script lists.
    method Run(node: Node, firstEnd: nat, turns: seq<Turn>, arrival: Arrival, ghost st0: Stack, ghost high0: nat,
            ghost floor: nat)
      returns (alive: bool)
      requires 1 <= cfg.blocksSafe && Numbered(node) && Complete(arrival)
      requires Sound(cfg, node, St(), st0, high0, floor) && TargetsFit(cfg, firstEnd, turns)
      modifies this`height, this`firstLoop, this`blockCache, this`clock, this`feed
      ensures match FetchSpec.Run(cfg, node, old(St()), firstEnd, turns)
              case Died => !alive
              case Alive(st', events) => alive && St() == st' && feed == old(feed) + events
    {
      hide Sound, TakeTurn;
      var end := firstEnd;
      var i := 0;
      ghost var st, high := st0, high0;
      ghost var sent: seq<Event> := [];
      assert turns[0..] == turns;
      AfterNothing(FetchSpec.Run(cfg, node, St(), firstEnd, turns));
      while i < |turns|
        invariant 0 <= i <= |turns|
        invariant TargetsFit(cfg, end, turns) && Sound(cfg, node, St(), st, high, floor)
        invariant feed == old(feed) + sent
        invariant FetchSpec.Run(cfg, node, old(St()), firstEnd, turns)
                  == After(sent, FetchSpec.Run(cfg, node, St(), end, turns[i..]))
      {
        assert turns[i..][0] == turns[i] && turns[i..][1..] == turns[i + 1..];
        ghost var events;
        alive, events, st, high := OneTurn(node, end, turns[i], arrival, st, high, floor);
        if !alive {
          return;
        }
        end := EndAfter(end, turns[i]);
        AfterTwice(sent, events, FetchSpec.Run(cfg, node, St(), end, turns[i + 1..]));
        sent := sent + events;
        i := i + 1;
      }
      alive := true;
    }

    // One error-free iteration while the node keeps to one chain.
    method SyncIteration(node: Node, chain: nat -> Block, end: nat, arrival: Arrival,
                         ghost st: Stack, ghost high: nat, ghost floor: nat, ghost fork: nat)
      returns (ghost events: seq<Event>, ghost mid: Stack)
      requires Complete(arrival) && height < end
      requires FetchConvergence.OnTrack(cfg, node, chain, St(), end, st, high, floor, fork)
      modifies this`height, this`firstLoop, this`blockCache, this`clock, this`feed
      ensures fork + 1 < height <= end && feed == old(feed) + events && st.base <= fork + 1 <= st.Next()
      ensures mid == FetchConvergence.Extend(Below(st, fork + 1), chain, height) && Leads(st, events, mid)
      ensures mid.base <= mid.Next() == height
      ensures FetchConvergence.OnTrack(cfg, node, chain, St(), end, mid, High(high, events), floor, height - 1)
    {
      ghost var next;
      next, events, mid := SyncStep(cfg, node, chain, St(), end, st, high, floor, fork);
      var ok := Iteration(node, end, false, arrival);
      assert St() == next;
    }

    // The inner loop of Run while the node keeps to one chain: it ends, and the feed then describes that chain.
    method SyncTo(node: Node, chain: nat -> Block, end: nat, arrival: Arrival,
                  ghost st0: Stack, ghost high0: nat, ghost floor: nat, ghost fork0: nat)
      requires Complete(arrival) && height < end
      requires FetchConvergence.OnTrack(cfg, node, chain, St(), end, st0, high0, floor, fork0)
      requires st0.base <= fork0 + 1 <= st0.Next() && fork0 < end
      modifies this`height, this`firstLoop, this`blockCache, this`clock, this`feed
      ensures height == end && |old(feed)| <= |feed| && feed[..|old(feed)|] == old(feed)
      ensures Leads(st0, feed[|old(feed)|..], FetchConvergence.Extend(Below(st0, fork0 + 1), chain, end))
    {
      ghost var st, high, fork := st0, high0, fork0;
      ghost var sent: seq<Event> := [];
      ghost var goal := FetchConvergence.Extend(Below(st0, fork0 + 1), chain, end);
      SyncStarts(st0, chain, fork0, end);
      hide Leads, FetchConvergence.OnTrack, FetchConvergence.Extend, Synced, Below, High, Complete;
      while height < end
        invariant height <= end && feed == old(feed) + sent
        invariant Synced(st0, sent, st, chain, fork, end, goal) && (height == end ==> st.Next() == end == fork + 1)
        invariant FetchConvergence.OnTrack(cfg, node, chain, St(), end, st, high, floor, fork)
        decreases end - fork
      {
        SyncedShape(st0, sent, st, chain, fork, end, goal);
        ghost var events, mid := SyncIteration(node, chain, end, arrival, st, high, floor, fork);
        SyncMore(st0, sent, st, chain, fork, end, goal, events, mid, height);
        FeedGrows(old(feed), sent, events);
        sent := sent + events;
        st, high, fork := mid, High(high, events), height - 1;
      }
      SyncEnds(st0, sent, st, chain, fork, end, goal);
      FeedTail(old(feed), sent);
    }

    method SendReverts(reverts: seq<Block>)
      modifies this`blockCache, this`feed
      ensures blockCache == old(blockCache) - Numbers(reverts)
      ensures feed == old(feed) + Pops(reverts)
    {
      var i := 0;
      while i < |reverts|
        invariant 0 <= i <= |reverts|
        invariant blockCache == old(blockCache) - Numbers(reverts[..i])
        invariant feed == old(feed) + Pops(reverts[..i])
      {
        blockCache := blockCache - {reverts[i].number};
        feed := feed + [Pop(reverts[i])];
        assert reverts[..i + 1] == reverts[..i] + [reverts[i]];
        assert Pops(reverts[..i + 1]) == Pops(reverts[..i]) + [Pop(reverts[i])];
        i := i + 1;
      }
      assert reverts[..|reverts|] == reverts;
    }

    // Publishes the blocks as long as each one names the previous one as its parent.
    method PublishBlocks(first: Hash, blocks: seq<Block>)
      modifies this`height, this`blockCache, this`feed
      ensures var p := Publish(cfg, old(height), old(blockCache), first, blocks);
              height == p.height && blockCache == p.cache && feed == old(feed) + p.events
    {
      var prevHash := first;
      var i := 0;
      ghost var sent: seq<Event> := [];
      assert blocks[0..] == blocks;
      hide Publish, Sub64, Sending;
      SendingNone(Publish(cfg, height, blockCache, first, blocks));
      while i < |blocks|
        invariant 0 <= i <= |blocks|
        invariant feed == old(feed) + sent
        invariant Publish(cfg, old(height), old(blockCache), first, blocks)
               == Sending(sent, Publish(cfg, height, blockCache, prevHash, blocks[i..]))
      {
        var b := blocks[i];
        PublishStep(cfg, height, blockCache, prevHash, blocks, i);
        if prevHash != "" && b.parentHash != prevHash {
          break;
        }
        prevHash := b.hash;
        blockCache := (blockCache - {Sub64(b.number, cfg.blocksSafe * 2)})[b.number := b];
        feed := feed + [Push(b)];
        height := b.number + 1;
        SendingMore(sent, b, Publish(cfg, height, blockCache, prevHash, blocks[i + 1..]));
        sent := sent + [Push(b)];
        i := i + 1;
      }
      if i == |blocks| {
        PublishNothing(cfg, height, blockCache, prevHash, blocks);
      }
      SendingAll(sent, height, blockCache);
    }
  }

  // What was sent so far leads from st0 to st, from where the chain goes on to the goal.
  ghost predicate Synced(st0: Stack, sent: seq<Event>, st: Stack, chain: nat -> Block, fork: nat, end: nat,
          goal: Stack) {
    && st.base <= fork + 1 <= st.Next() && fork < end
    && Leads(st0, sent, st) && FetchConvergence.Extend(Below(st, fork + 1), chain, end) == goal
  }

  lemma FeedTail(feed: seq<Event>, sent: seq<Event>)
    ensures (feed + sent)[..|feed|] == feed && (feed + sent)[|feed|..] == sent
  {
  }

  lemma FeedGrows(feed: seq<Event>, sent: seq<Event>, events: seq<Event>)
    ensures feed + sent + events == feed + (sent + events)
  {
  }

  lemma SyncStarts(st0: Stack, chain: nat -> Block, fork: nat, end: nat)
    requires st0.base <= fork + 1 <= st0.Next() && fork < end
    ensures Synced(st0, [], st0, chain, fork, end, FetchConvergence.Extend(Below(st0, fork + 1), chain, end))
  {
  }

  lemma SyncedShape(st0: Stack, sent: seq<Event>, st: Stack, chain: nat -> Block, fork: nat, end: nat, goal: Stack)
    requires Synced(st0, sent, st, chain, fork, end, goal)
    ensures st.base <= fork + 1 <= st.Next() && fork < end
  {
  }

  lemma SyncMore(st0: Stack, sent: seq<Event>, st: Stack, chain: nat -> Block, fork: nat, end: nat, goal: Stack,
          events: seq<Event>, mid: Stack, height: nat)
    requires Synced(st0, sent, st, chain, fork, end, goal) && fork + 1 < height <= end && Leads(st, events, mid)
    requires st.base <= fork + 1 <= st.Next() && mid == FetchConvergence.Extend(Below(st, fork + 1), chain, height)
    ensures Synced(st0, sent + events, mid, chain, height - 1, end, goal)
  {
    LeadsConcat(st0, sent, st, events, mid);
    FetchConvergence.SameGoal(mid, Below(st, fork + 1), chain, height, end);
  }

  lemma SyncEnds(st0: Stack, sent: seq<Event>, st: Stack, chain: nat -> Block, fork: nat, end: nat, goal: Stack)
    requires Synced(st0, sent, st, chain, fork, end, goal) && st.Next() == end == fork + 1
    ensures Leads(st0, sent, goal)
  {
    FetchConvergence.AtEnd(st, chain, end);
  }

  // One turn of the walking loop, whose heights wrap around.
  lemma WalkStep(cache: map<nat, Block>, mayMiss: bool, local: nat, hash: Hash, reverts: seq<Block>, node: Node, t: nat)
    requires local < TWO_64 && MAX_64 !in cache
    ensures var w := Walk(cache, mayMiss, local, hash, reverts, node, t);
            if local !in cache && !mayMiss then w == Fatal
            else if local in cache && Disagree(cache[local], node(t, Add64(local, 1))) then
              && Sub64(local, 1) < TWO_64 && Add64(Sub64(local, 1), 1) < Add64(local, 1)
              && w == Walk(cache, mayMiss, Sub64(local, 1), cache[local].hash, reverts + [cache[local]], node, t + 1)
            else w == Found(local, if local in cache then cache[local].hash else hash, reverts, t + 1)
  {
    hide Disagree;
  }

  // What is published after the given events were sent.
  function Sending(sent: seq<Event>, p: Published): Published {
    p.(events := sent + p.events)
  }

  lemma SendingNone(p: Published)
    ensures Sending([], p) == p
  {
  }

  lemma SendingMore(sent: seq<Event>, b: Block, rest: Published)
    ensures Sending(sent, Sending([Push(b)], rest)) == Sending(sent + [Push(b)], rest)
  {
    assert sent + ([Push(b)] + rest.events) == sent + [Push(b)] + rest.events;
  }

  lemma SendingAll(sent: seq<Event>, height: nat, cache: map<nat, Block>)
    ensures Sending(sent, Published(height, cache, [])) == Published(height, cache, sent)
  {
  }

  lemma PublishNothing(cfg: Config, height: nat, cache: map<nat, Block>, prevHash: Hash, blocks: seq<Block>)
    ensures Publish(cfg, height, cache, prevHash, blocks[|blocks|..]) == Published(height, cache, [])
  {
  }

  lemma PublishStep(cfg: Config, height: nat, cache: map<nat, Block>, prevHash: Hash, blocks: seq<Block>, i: nat)
    requires i < |blocks|
    ensures var b := blocks[i];
            var p := Publish(cfg, height, cache, prevHash, blocks[i..]);
            if prevHash != "" && b.parentHash != prevHash then p == Published(height, cache, [])
            else
              var rest := Publish(cfg, b.number + 1, (cache - {Sub64(b.number, 2 * cfg.blocksSafe)})[b.number := b],
                                  b.hash, blocks[i + 1..]);
              p == Sending([Push(b)], rest)
  {
    assert blocks[i..][0] == blocks[i] && blocks[i..][1..] == blocks[i + 1..];
  }

  // What one error-free iteration on one chain does.
  lemma SyncStep(cfg: Config, node: Node, chain: nat -> Block, s: State, end: nat, st: Stack, high: nat, floor: nat,
          fork: nat)
    returns (next: State, events: seq<Event>, mid: Stack)
    requires s.height < end && FetchConvergence.OnTrack(cfg, node, chain, s, end, st, high, floor, fork)
    ensures Iterate(cfg, node, s, end, false) == Alive(next, events)
    ensures s.height < TWO_64 && MAX_64 !in s.cache && Numbered(node)
    ensures fork + 1 < next.height <= end && st.base <= fork + 1 <= st.Next()
    ensures mid == FetchConvergence.Extend(Below(st, fork + 1), chain, next.height) && Leads(st, events, mid)
    ensures FetchConvergence.OnTrack(cfg, node, chain, next, end, mid, High(high, events), floor, next.height - 1)
  {
    hide Iterate, Leads, FetchConvergence.Extend;
    FetchConvergence.NumberedFixed(node, chain);
    InvBounds(2 * cfg.blocksSafe, s.height, s.cache, st, high, floor);
    FetchConvergence.StaysOnTrack(cfg, node, chain, s, end, st, high, floor, fork);
    var r := Iterate(cfg, node, s, end, false);
    next, events, mid := r.st, r.events, FetchConvergence.Extend(Below(st, fork + 1), chain, r.st.height);
  }

  lemma AfterNothing(r: Outcome)
    ensures After([], r) == r
  {
    if r.Alive? {
      assert [] + r.events == r.events;
    }
  }

  lemma AfterTwice(a: seq<Event>, b: seq<Event>, r: Outcome)
    ensures After(a, After(b, r)) == After(a + b, r)
  {
    if r.Alive? {
      assert a + (b + r.events) == a + b + r.events;
    }
  }

  lemma InvBounds(w: nat, height: nat, cache: map<nat, Block>, st: Stack, high: nat, floor: nat)
    requires 1 <= w && Inv(w, height, cache, st, high, floor)
    ensures height < TWO_64 && MAX_64 !in cache
  {
    assert Entry(w, cache, st, high, floor, MAX_64);
  }

  lemma ArrivesInRange(arrival: Arrival, from: nat, to: nat)
    requires Complete(arrival) && from <= to
    ensures forall k :: 0 <= k < |arrival(from, to)| ==> from <= arrival(from, to)[k] < to
  {
    var order := arrival(from, to);
    forall k | 0 <= k < |order| ensures from <= order[k] < to {
      assert order[k] in multiset(order);
      assert order[k] in multiset(Heights(from, to));
    }
  }

  function AnswerFor(node: Node, t: nat, from: nat, h: nat): Block {
    node(if from <= h then t + (h - from) else t, h)
  }

  lemma FetchedIsMap(node: Node, t: nat, from: nat, to: nat)
    requires from <= to
    ensures Fetched(node, t, from, to - from) == Seqs.Map((h: nat) => AnswerFor(node, t, from, h), Heights(from, to))
  {
    var m := Seqs.Map((h: nat) => AnswerFor(node, t, from, h), Heights(from, to));
    var r := Fetched(node, t, from, to - from);
    forall i | 0 <= i < |r| ensures r[i] == m[i] {
      assert Heights(from, to)[i] == from + i;
    }
  }

  lemma ArrivedPermutes(node: Node, t: nat, from: nat, to: nat, order: seq<nat>, arrived: seq<Block>)
    requires from <= to && multiset(order) == multiset(Heights(from, to)) && |arrived| == |order|
    requires forall k :: 0 <= k < |order| ==>
               from <= order[k] < to && arrived[k] == node(t + (order[k] - from), order[k])
    ensures multiset(arrived) == multiset(Fetched(node, t, from, to - from))
  {
    var f := (h: nat) => AnswerFor(node, t, from, h);
    Seqs.MapPermutes(f, order, Heights(from, to));
    FetchedIsMap(node, t, from, to);
    assert arrived == Seqs.Map(f, order) by {
      forall k | 0 <= k < |order| ensures arrived[k] == f(order[k]) {
      }
    }
  }

  lemma FetchedSorted(node: Node, t: nat, from: nat, count: nat)
    requires Numbered(node)
    ensures Sorting.StrictlySorted((b: Block) => b.number, Fetched(node, t, from, count))
  {
    FetchedConsecutive(node, t, from, count);
  }
}
