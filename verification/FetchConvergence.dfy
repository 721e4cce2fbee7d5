/** What the fetcher does while the node keeps to one chain: it finds the fork point and then catches up. */
module FetchConvergence {
  import opened Chain
  import opened FetchSpec
  import opened FetchProofs
  import opened FetchTheorems

  ghost predicate FixedTo(node: Node, chain: nat -> Block) {
    forall t: nat, h: nat :: node(t, h) == chain(h)
  }

  // A chain as a node holds it: numbered, parent-linked, with proper hashes.
  ghost predicate NodeChain(chain: nat -> Block) {
    forall h: nat :: ChainLink(chain, h)
  }

  ghost predicate ChainLink(chain: nat -> Block, h: nat) {
    chain(h).number == h && chain(h).hash != "" && chain(h).hash != ZERO_HASH
        && chain(h + 1).parentHash == chain(h).hash
  }

  // The highest height at which the local stack and the node's chain have the same block hash.
  ghost predicate ForkAt(st: Stack, chain: nat -> Block, fork: nat) {
    && st.Has(fork) && st.At(fork).hash == chain(fork).hash
    && forall k: nat :: fork < k ==> Differ(st, chain, k)
  }

  ghost predicate Differ(st: Stack, chain: nat -> Block, k: nat) {
    st.Has(k) ==> st.At(k).hash != chain(k).hash
  }

  lemma DisagreeIsFork(local: Block, chain: nat -> Block, h: nat)
    requires NodeChain(chain)
    ensures Disagree(local, chain(h + 1)) <==> local.hash != chain(h).hash
  {
    assert ChainLink(chain, h);
  }

  // Fork-point exactness: on a fixed chain the walk ends, returns the highest agreeing height with that block's
  // hash, and lists exactly the local blocks above it, once each, top-down.
  lemma ForkExact(cfg: Config, node: Node, chain: nat -> Block, s: State, st: Stack, high: nat, floor: nat, fork: nat)
    requires 1 <= cfg.blocksSafe && FixedTo(node, chain) && NodeChain(chain) && GenesisAgreed(node, st)
    requires Inv(2 * cfg.blocksSafe, s.height, s.cache, st, high, floor)
    requires ForkAt(st, chain, fork) && fork in s.cache && high <= fork + 2 * cfg.blocksSafe
    ensures var w := WalkFrom(s, node);
            && w.Found? && w.height == fork && w.hash == chain(fork).hash
            && |w.reverts| == s.height - 1 - fork
            && forall i :: 0 <= i < |w.reverts| ==> w.reverts[i] == st.blocks[|st.blocks| - 1 - i]
  {
    assert Entry(2 * cfg.blocksSafe, s.cache, st, high, floor, fork);
    DisagreeIsFork(st.At(fork), chain, fork);
    assert node(s.clock + (s.height - 1 - fork), fork + 1) == chain(fork + 1);
    ForkInWindowFound(cfg, node, s, st, high, floor, fork);
    var w := WalkFrom(s, node);
    InvCache(2 * cfg.blocksSafe, s.height, s.cache, st, high, floor);
    WalkDescends(s.cache, s.height == s.startNum, s.height - 1, "", [], node, s.clock, st, s.height - 1);
    assert Mirrors(s.cache, st, w.height) && Mirrors(s.cache, st, fork);
    DisagreeIsFork(st.At(w.height), chain, w.height);
    assert node(s.clock + (s.height - 1 - w.height), w.height + 1) == chain(w.height + 1);
    assert !Differ(st, chain, w.height);
    assert w.height == fork;
    forall i | 0 <= i < |w.reverts| ensures w.reverts[i] == st.blocks[|st.blocks| - 1 - i] {
      assert IsAt(st, w.reverts[i], s.height - 1 - i);
    }
  }

  // ------------------------------------------------------------------ catching up

  function Extend(st: Stack, chain: nat -> Block, to: nat): Stack
    requires st.Next() <= to
  {
    Stack(st.base, st.blocks + seq(to - st.Next(), i requires 0 <= i < to - st.Next() => chain(st.Next() + i)))
  }

  lemma ExtendStep(st: Stack, chain: nat -> Block, to: nat)
    requires st.Next() < to && chain(st.Next()).number == st.Next()
    ensures Extend(Apply(st, Push(chain(st.Next()))), chain, to) == Extend(st, chain, to)
  {
    assert Extend(Apply(st, Push(chain(st.Next()))), chain, to).blocks == Extend(st, chain, to).blocks;
  }

  lemma PublishHead(cfg: Config, height: nat, cache: map<nat, Block>, prevHash: Hash, blocks: seq<Block>, st: Stack,
          goal: Stack)
    requires blocks != [] && (prevHash == "" || blocks[0].parentHash == prevHash) && blocks[0].number == st.Next()
    requires var b := blocks[0];
             var p := Publish(cfg, b.number + 1, (cache - {Sub64(b.number, 2 * cfg.blocksSafe)})[b.number := b],
                              b.hash, blocks[1..]);
             && p.height == goal.Next() && WellFormed(Apply(st, Push(b)), p.events)
             && Replay(Apply(st, Push(b)), p.events) == goal
    ensures var p := Publish(cfg, height, cache, prevHash, blocks);
            p.height == goal.Next() && WellFormed(st, p.events) && Replay(st, p.events) == goal
  {
    var b := blocks[0];
    var rest := Publish(cfg, b.number + 1, (cache - {Sub64(b.number, 2 * cfg.blocksSafe)})[b.number := b], b.hash,
                        blocks[1..]);
    assert ([Push(b)] + rest.events)[1..] == rest.events;
  }

  // A stretch of the node's chain is published whole.
  lemma {:induction false} PublishChain(cfg: Config, chain: nat -> Block, height: nat, cache: map<nat, Block>,
          prevHash: Hash,
                                        blocks: seq<Block>, st: Stack)
    requires NodeChain(chain) && height == st.Next()
    requires forall i :: 0 <= i < |blocks| ==> blocks[i] == chain(height + i)
    requires prevHash == "" || (1 <= height && prevHash == chain(height - 1).hash)
    ensures var p := Publish(cfg, height, cache, prevHash, blocks);
            && p.height == Extend(st, chain, height + |blocks|).Next()
            && WellFormed(st, p.events) && Replay(st, p.events) == Extend(st, chain, height + |blocks|)
    decreases |blocks|
  {
    if blocks == [] {
      assert Extend(st, chain, height).blocks == st.blocks;
    } else {
      var b := blocks[0];
      assert b == chain(height + 0);
      assert ChainLink(chain, height);
      if 1 <= height {
        assert ChainLink(chain, height - 1);
      }
      var cache' := (cache - {Sub64(b.number, 2 * cfg.blocksSafe)})[b.number := b];
      PublishChain(cfg, chain, height + 1, cache', b.hash, blocks[1..], Apply(st, Push(b)));
      ExtendStep(st, chain, height + |blocks|);
      PublishHead(cfg, height, cache, prevHash, blocks, st, Extend(st, chain, height + |blocks|));
    }
  }

  lemma PublishAll(cfg: Config, node: Node, chain: nat -> Block, t: nat, height: nat, cache: map<nat, Block>,
                   prevHash: Hash, count: nat, st: Stack)
    requires FixedTo(node, chain) && NodeChain(chain) && height == st.Next()
    requires prevHash == "" || (1 <= height && prevHash == chain(height - 1).hash)
    ensures var p := Publish(cfg, height, cache, prevHash, Fetched(node, t, height, count));
            p.height == height + count && Leads(st, p.events, Extend(st, chain, height + count))
  {
    PublishChain(cfg, chain, height, cache, prevHash, Fetched(node, t, height, count), st);
  }

  // The fetcher can resume from height fork: either that is the fork point and lies in the cache's window, or the
  // fetcher has just started above a block its cache does not hold.
  ghost predicate Ready(w: nat, s: State, st: Stack, high: nat, floor: nat, chain: nat -> Block, fork: int) {
    || (0 <= fork && fork in s.cache && high <= fork + w && ForkAt(st, chain, fork))
    || (fork + 1 == s.height == s.startNum && high + 1 == s.height && fork !in s.cache)
  }

  lemma ReadyWalk(cfg: Config, node: Node, chain: nat -> Block, s: State, st: Stack, high: nat, floor: nat, fork: nat)
    requires 1 <= cfg.blocksSafe && FixedTo(node, chain) && NodeChain(chain) && GenesisAgreed(node, st)
    requires Inv(2 * cfg.blocksSafe, s.height, s.cache, st, high, floor)
    requires Ready(2 * cfg.blocksSafe, s, st, high, floor, chain, fork)
    ensures var w := WalkFrom(s, node);
            w.Found? && w.height == fork && (w.hash == "" || w.hash == chain(fork).hash)
  {
    if fork in s.cache || fork + 1 != s.height || s.height != s.startNum || high + 1 != s.height {
      ForkExact(cfg, node, chain, s, st, high, floor, fork);
    }
  }

  lemma AllAfterPops(cfg: Config, node: Node, chain: nat -> Block, s: State, pops: seq<Event>, prevHash: Hash, end: nat,
                     st: Stack, st': Stack)
    requires FixedTo(node, chain) && NodeChain(chain) && s.height == st'.Next() && Leads(st, pops, st')
    requires prevHash == "" || (1 <= s.height && prevHash == chain(s.height - 1).hash)
    ensures var p := PublishBatch(cfg, node, s, prevHash, end, false);
            && p.st.height == s.height + BatchSize(cfg, s.height, end) && p.st.firstLoop == s.firstLoop
            && Leads(st, pops + p.events, Extend(st', chain, p.st.height))
  {
    var p := PublishBatch(cfg, node, s, prevHash, end, false);
    PublishAll(cfg, node, chain, s.clock, s.height, s.cache, prevHash, BatchSize(cfg, s.height, end), st');
    LeadsConcat(st, pops, st', p.events, Extend(st', chain, p.st.height));
  }

  // What the walk of an iteration does to the stack, the pops folded.
  lemma WalkLeads(cfg: Config, node: Node, s: State, st: Stack, high: nat, floor: nat)
    requires 1 <= cfg.blocksSafe && GenesisAgreed(node, st)
    requires Inv(2 * cfg.blocksSafe, s.height, s.cache, st, high, floor)
    requires WalkFrom(s, node).Found?
    ensures var w := WalkFrom(s, node);
            var a := AfterWalk(s, w);
            && st.base <= w.height + 1 <= st.Next()
            && a.st.height == w.height + 1 && a.st.clock == w.clock && !a.st.firstLoop
            && Leads(st, a.events, Below(st, w.height + 1))
  {
    WalkingIteration(cfg, node, s, st, high, floor);
    var w := WalkFrom(s, node);
  }

  // What an error-free iteration on a fixed chain makes of the stack: the fork point stays, the chain's next
  // batch goes on top.
  ghost predicate Resumed(r: Outcome, st: Stack, chain: nat -> Block, fork: nat, size: nat) {
    && r.Alive? && st.base <= fork + 1 <= st.Next()
    && r.st.height == fork + 1 + size && !r.st.firstLoop
    && Leads(st, r.events, Extend(Below(st, fork + 1), chain, r.st.height))
  }

  lemma IterateFixedWalking(cfg: Config, node: Node, chain: nat -> Block, s: State, end: nat, st: Stack, high: nat,
          floor: nat, fork: nat)
    requires 1 <= cfg.blocksSafe && FixedTo(node, chain) && NodeChain(chain) && GenesisAgreed(node, st)
    requires Inv(2 * cfg.blocksSafe, s.height, s.cache, st, high, floor)
    requires Ready(2 * cfg.blocksSafe, s, st, high, floor, chain, fork)
    requires fork < s.height < end && Walks(cfg, s, end)
    ensures WalkFrom(s, node).Found? && AfterWalk(s, WalkFrom(s, node)).st.height == fork + 1
    ensures Resumed(Iterate(cfg, node, s, end, false), st, chain, fork, BatchSize(cfg, fork + 1, end))
  {
    ReadyWalk(cfg, node, chain, s, st, high, floor, fork);
    WalkLeads(cfg, node, s, st, high, floor);
    var w := WalkFrom(s, node);
    var a := AfterWalk(s, w);
    AllAfterPops(cfg, node, chain, a.st, a.events, w.hash, end, st, Below(st, fork + 1));
  }

  lemma IterateFixedFree(cfg: Config, node: Node, chain: nat -> Block, s: State, end: nat, st: Stack)
    requires FixedTo(node, chain) && NodeChain(chain) && s.height == st.Next() && 1 <= s.height
    requires !Walks(cfg, s, end)
    ensures Resumed(Iterate(cfg, node, s, end, false), st, chain, s.height - 1, BatchSize(cfg, s.height, end))
  {
    assert Below(st, s.height) == st;
    PublishAll(cfg, node, chain, s.clock, s.height, s.cache, "", BatchSize(cfg, s.height, end), st);
  }

  // One iteration on a fixed chain reverts to the fork point and then publishes the next batch of the chain.
  lemma IterateFixed(cfg: Config, node: Node, chain: nat -> Block, s: State, end: nat, st: Stack, high: nat,
          floor: nat, fork: nat)
    requires 1 <= cfg.blocksSafe && FixedTo(node, chain) && NodeChain(chain) && GenesisAgreed(node, st)
    requires Inv(2 * cfg.blocksSafe, s.height, s.cache, st, high, floor)
    requires Ready(2 * cfg.blocksSafe, s, st, high, floor, chain, fork)
    requires fork < s.height < end
    requires fork + 1 == s.height || s.firstLoop || end < s.height + cfg.blocksSafe
    ensures Resumed(Iterate(cfg, node, s, end, false), st, chain, fork, BatchSize(cfg, fork + 1, end))
    ensures PushesBelow(Iterate(cfg, node, s, end, false))
  {
    if Walks(cfg, s, end) {
      IterateFixedWalking(cfg, node, chain, s, end, st, high, floor, fork);
    } else {
      IterateFixedFree(cfg, node, chain, s, end, st);
    }
    NumberedFixed(node, chain);
    IteratePushes(cfg, node, s, end);
  }

  // The iteration published no block at or above the height it ends at.
  predicate PushesBelow(r: Outcome) {
    r.Alive? ==> forall i :: 0 <= i < |r.events| && r.events[i].Push? ==> r.events[i].blk.number < r.st.height
  }

  lemma ExtendAt(st: Stack, chain: nat -> Block, to: nat, h: nat)
    requires st.Next() <= to && Extend(st, chain, to).Has(h)
    ensures Extend(st, chain, to).At(h) == if h < st.Next() then st.At(h) else chain(h)
  {
  }

  lemma ExtendTwice(st: Stack, chain: nat -> Block, mid: nat, to: nat)
    requires st.Next() <= mid <= to
    ensures Below(Extend(st, chain, mid), mid) == Extend(st, chain, mid)
    ensures Extend(Extend(st, chain, mid), chain, to) == Extend(st, chain, to)
  {
    assert Extend(Extend(st, chain, mid), chain, to).blocks == Extend(st, chain, to).blocks;
  }

  lemma SameGoal(mid: Stack, st: Stack, chain: nat -> Block, h: nat, to: nat)
    requires st.Next() <= h <= to && mid == Extend(st, chain, h)
    ensures Extend(Below(mid, h), chain, to) == Extend(st, chain, to)
  {
    ExtendTwice(st, chain, h, to);
  }

  lemma AtEnd(st: Stack, chain: nat -> Block, end: nat)
    requires st.Next() == end
    ensures Extend(Below(st, end), chain, end) == st
  {
  }

  lemma BelowExtend(st: Stack, chain: nat -> Block, to: nat)
    requires st.Next() < to
    ensures Extend(st, chain, to).Has(to - 1) && Extend(st, chain, to).At(to - 1) == chain(to - 1)
    ensures Below(Extend(st, chain, to), to) == Extend(st, chain, to)
  {
  }

  lemma {:induction false} HighAtMost(high: nat, feed: seq<Event>, m: nat)
    requires forall i :: 0 <= i < |feed| && feed[i].Push? ==> feed[i].blk.number <= m
    ensures High(high, feed) <= if high < m then m else high
    decreases |feed|
  {
    if feed != [] {
      HighAtMost(if feed[0].Push? && feed[0].blk.number > high then feed[0].blk.number else high, feed[1..], m);
    }
  }

  lemma IteratePushes(cfg: Config, node: Node, s: State, end: nat)
    requires Numbered(node) && Iterate(cfg, node, s, end, false).Alive?
    requires Iterate(cfg, node, s, end, false).st.height ==
             (var walked := Walks(cfg, s, end) && WalkFrom(s, node).Found?;
              var from := if walked then AfterWalk(s, WalkFrom(s, node)).st.height else s.height;
              from + BatchSize(cfg, from, end))
    ensures PushesBelow(Iterate(cfg, node, s, end, false))
  {
    if Walks(cfg, s, end) {
      var w := WalkFrom(s, node);
      var a := AfterWalk(s, w);
      PublishPushes(cfg, a.st.height, a.st.cache, w.hash,
                    Fetched(node, a.st.clock, a.st.height, BatchSize(cfg, a.st.height, end)));
    } else {
      PublishPushes(cfg, s.height, s.cache, "", Fetched(node, s.clock, s.height, BatchSize(cfg, s.height, end)));
    }
  }

  lemma ReadyLow(w: nat, s: State, st: Stack, high: nat, floor: nat, chain: nat -> Block, fork: nat)
    requires Inv(w, s.height, s.cache, st, high, floor) && Ready(w, s, st, high, floor, chain, fork)
    ensures floor <= fork + 1 && high <= fork + w
  {
    assert Entry(w, s.cache, st, high, floor, fork);
  }

  // A stack that ends on the chain's block height - 1 is ready to resume from there.
  lemma NextReady(w: nat, s: State, r: Outcome, st: Stack, high: nat, floor: nat, chain: nat -> Block, fork: nat,
          size: nat)
    requires 1 <= w && floor <= fork + 1 && high <= fork + w
    requires Resumed(r, st, chain, fork, size) && 1 <= size && PushesBelow(r)
    requires Inv(w, r.st.height, r.st.cache, Extend(Below(st, fork + 1), chain, r.st.height), High(high, r.events),
                 floor)
    ensures Ready(w, r.st, Extend(Below(st, fork + 1), chain, r.st.height), High(high, r.events), floor, chain,
                  r.st.height - 1)
  {
    BelowExtend(Below(st, fork + 1), chain, r.st.height);
    HighAtMost(high, r.events, r.st.height - 1);
    assert Entry(w, r.st.cache, Extend(Below(st, fork + 1), chain, r.st.height), High(high, r.events), floor,
                 r.st.height - 1);
  }

  // The state of the loop while the node keeps to one chain: the stack agrees with it at height fork, and the
  // fetcher is one above, except while the next iteration looks for a fork: the first one, and one near the target.
  ghost predicate OnTrack(cfg: Config, node: Node, chain: nat -> Block, s: State, end: nat, st: Stack, high: nat,
          floor: nat, fork: nat) {
    && 1 <= cfg.blocksSafe && 1 <= cfg.blockBatch && FixedTo(node, chain) && NodeChain(chain) && GenesisAgreed(node, st)
    && Inv(2 * cfg.blocksSafe, s.height, s.cache, st, high, floor) && end + 2 * cfg.blocksSafe <= TWO_64
    && Ready(2 * cfg.blocksSafe, s, st, high, floor, chain, fork) && st.base <= fork + 1
    && fork < s.height <= end && (s.firstLoop ==> s.height < end)
    && (fork + 1 == s.height || (s.height < end && (s.firstLoop || end < s.height + cfg.blocksSafe)))
  }

  lemma IterateInv(cfg: Config, node: Node, s: State, end: nat, st: Stack, high: nat, floor: nat, goal: Stack)
    requires 1 <= cfg.blocksSafe && Numbered(node) && GenesisAgreed(node, st)
    requires Inv(2 * cfg.blocksSafe, s.height, s.cache, st, high, floor)
    requires s.height < end && end + 2 * cfg.blocksSafe <= TWO_64
    requires Iterate(cfg, node, s, end, false).Alive? && Leads(st, Iterate(cfg, node, s, end, false).events, goal)
    ensures var r := Iterate(cfg, node, s, end, false);
            && Inv(2 * cfg.blocksSafe, r.st.height, r.st.cache, goal, High(high, r.events), floor)
            && GenesisAgreed(node, goal)
  {
    IterateKeeps(cfg, node, s, end, false, st, high, floor);
  }

  // One error-free iteration keeps the loop on track and moves the fork point up to the new top.
  lemma StaysOnTrack(cfg: Config, node: Node, chain: nat -> Block, s: State, end: nat, st: Stack, high: nat,
          floor: nat, fork: nat)
    requires OnTrack(cfg, node, chain, s, end, st, high, floor, fork) && s.height < end
    ensures var r := Iterate(cfg, node, s, end, false);
            && r.Alive? && Resumed(r, st, chain, fork, BatchSize(cfg, fork + 1, end)) && fork + 1 < r.st.height <= end
            && r.st.height == (if fork + 1 + cfg.blockBatch <= end then fork + 1 + cfg.blockBatch else end)
            && OnTrack(cfg, node, chain, r.st, end, Extend(Below(st, fork + 1), chain, r.st.height),
                       High(high, r.events), floor, r.st.height - 1)
  {
    hide Iterate, Leads, Entry, Extend;
    IterateFixed(cfg, node, chain, s, end, st, high, floor, fork);
    ReadyLow(2 * cfg.blocksSafe, s, st, high, floor, chain, fork);
    NumberedFixed(node, chain);
    var r := Iterate(cfg, node, s, end, false);
    IterateInv(cfg, node, s, end, st, high, floor, Extend(Below(st, fork + 1), chain, r.st.height));
    NextReady(2 * cfg.blocksSafe, s, r, st, high, floor, chain, fork, BatchSize(cfg, fork + 1, end));
  }

  // At most n turns of a loop that runs while the height is below `end`.
  function Loop(step: State -> Outcome, s: State, end: nat, n: nat): Outcome
    decreases n
  {
    if n == 0 || end <= s.height then Alive(s, [])
    else
      match step(s)
      case Died => Died
      case Alive(s', events) =>
        match Loop(step, s', end, n - 1)
        case Died => Died
        case Alive(s'', events') => Alive(s'', events + events')
  }

  // The inner loop of Run, at most n iterations of it, none of which fails to fetch.
  function Sync(cfg: Config, node: Node, s: State, end: nat, n: nat): Outcome {
    Loop(s => Iterate(cfg, node, s, end, false), s, end, n)
  }

  lemma {:induction false} SyncIsRun(cfg: Config, node: Node, s: State, end: nat, n: nat)
    ensures Sync(cfg, node, s, end, n) == Run(cfg, node, s, end, seq(n, _ => Fetch(false)))
    decreases n
  {
    if n != 0 {
      assert seq(n, _ => Fetch(false))[1..] == seq(n - 1, _ => Fetch(false));
      if end <= s.height {
        SyncIsRun(cfg, node, s, end, n - 1);
        assert Sync(cfg, node, s, end, n - 1) == Alive(s, []);
      } else {
        var i := Iterate(cfg, node, s, end, false);
        if i.Alive? {
          SyncIsRun(cfg, node, i.st, end, n - 1);
        }
      }
    }
  }

  ghost predicate CaughtUp(r: Outcome, st: Stack, goal: Stack, end: nat) {
    r.Alive? && r.st.height == end && Leads(st, r.events, goal)
  }

  lemma LoopStep(step: State -> Outcome, s: State, end: nat, n: nat, st: Stack, mid: Stack, goal: Stack)
    requires s.height < end && 0 < n
    requires step(s).Alive? && Leads(st, step(s).events, mid)
    requires CaughtUp(Loop(step, step(s).st, end, n - 1), mid, goal, end)
    ensures CaughtUp(Loop(step, s, end, n), st, goal, end)
  {
    LeadsConcat(st, step(s).events, mid, Loop(step, step(s).st, end, n - 1).events, goal);
  }

  ghost predicate StepsLike(step: State -> Outcome, cfg: Config, node: Node, end: nat) {
    forall s: State :: StepsAt(step, cfg, node, end, s)
  }

  ghost predicate StepsAt(step: State -> Outcome, cfg: Config, node: Node, end: nat, s: State) {
    step(s) == Iterate(cfg, node, s, end, false)
  }

  lemma StepOnTrack(step: State -> Outcome, cfg: Config, node: Node, chain: nat -> Block, s: State, end: nat, st: Stack,
                    high: nat, floor: nat, fork: nat)
    requires StepsLike(step, cfg, node, end) && OnTrack(cfg, node, chain, s, end, st, high, floor, fork)
    requires s.height < end
    ensures var r := step(s);
            && r.Alive? && Resumed(r, st, chain, fork, BatchSize(cfg, fork + 1, end)) && fork + 1 < r.st.height <= end
            && OnTrack(cfg, node, chain, r.st, end, Extend(Below(st, fork + 1), chain, r.st.height),
                       High(high, r.events), floor, r.st.height - 1)
  {
    hide Iterate, Resumed, OnTrack, Extend;
    assert StepsAt(step, cfg, node, end, s);
    StaysOnTrack(cfg, node, chain, s, end, st, high, floor, fork);
  }

  // Iterations on a fixed chain without errors bring the fetcher to `end`: every iteration after the walk lowers
  // end - Height, so n of them are enough when `end` is at most n blocks above the fork.
  lemma {:induction false} Advances(step: State -> Outcome, cfg: Config, node: Node, chain: nat -> Block, s: State,
          end: nat, st: Stack,
                                    high: nat, floor: nat, fork: nat, n: nat)
    requires StepsLike(step, cfg, node, end) && OnTrack(cfg, node, chain, s, end, st, high, floor, fork)
    requires end <= fork + 1 + n
    ensures CaughtUp(Loop(step, s, end, n), st, Extend(Below(st, fork + 1), chain, end), end)
    decreases n
  {
    if s.height == end {
      assert Below(st, fork + 1) == st && Extend(st, chain, end) == st;
    } else {
      hide Inv, FixedTo, NodeChain, GenesisAgreed, Ready, Leads, CaughtUp, Loop, StepsLike;
      StepOnTrack(step, cfg, node, chain, s, end, st, high, floor, fork);
      var i := step(s);
      var mid := Extend(Below(st, fork + 1), chain, i.st.height);
      Advances(step, cfg, node, chain, i.st, end, mid, High(high, i.events), floor, i.st.height - 1, n - 1);
      SameGoal(mid, Below(st, fork + 1), chain, i.st.height, end);
      LoopStep(step, s, end, n, st, mid, Extend(Below(mid, i.st.height), chain, end));
    }
  }

  lemma NumberedFixed(node: Node, chain: nat -> Block)
    requires FixedTo(node, chain) && NodeChain(chain)
    ensures Numbered(node) && HashesSet(node)
  {
    forall t: nat, h: nat ensures node(t, h).number == h && node(t, h).hash != "" {
      assert node(t, h) == chain(h) && ChainLink(chain, h);
    }
  }

  // ------------------------------------------------------------------ the whole chain

  // A local block with the hash of the node's block at its height is that block.
  ghost predicate CollisionFree(st: Stack, chain: nat -> Block) {
    forall h: nat :: SameHashSameBlock(st, chain, h)
  }

  ghost predicate SameHashSameBlock(st: Stack, chain: nat -> Block, h: nat) {
    st.Has(h) && st.At(h).hash == chain(h).hash ==> st.At(h) == chain(h)
  }

  lemma {:induction false} SharedPrefix(st: Stack, chain: nat -> Block, fork: nat, h: nat)
    requires st.Linked() && NodeChain(chain) && CollisionFree(st, chain)
    requires st.Has(fork) && st.At(fork).hash == chain(fork).hash && st.base <= h <= fork
    ensures st.At(h) == chain(h)
    decreases fork - h
  {
    if h < fork {
      SharedPrefix(st, chain, fork, h + 1);
      assert st.LinkedAt(h + 1 - st.base);
      assert ChainLink(chain, h);
      assert st.At(h).hash == chain(h).hash;
    }
    assert SameHashSameBlock(st, chain, h);
  }

  // The stack holds the chain's blocks up to height end - 1.
  ghost predicate IsPrefixOf(st: Stack, chain: nat -> Block, end: nat) {
    st.Next() == end && forall h: nat :: IsBlockOf(st, chain, h)
  }

  ghost predicate IsBlockOf(st: Stack, chain: nat -> Block, h: nat) {
    st.Has(h) ==> st.At(h) == chain(h)
  }

  lemma WholeChain(chain: nat -> Block, end: nat, st: Stack, fork: nat)
    requires NodeChain(chain) && st.Linked() && CollisionFree(st, chain) && ForkAt(st, chain, fork) && fork < end
    ensures IsPrefixOf(Extend(Below(st, fork + 1), chain, end), chain, end)
  {
    var st' := Extend(Below(st, fork + 1), chain, end);
    forall h: nat ensures IsBlockOf(st', chain, h) {
      if st'.Has(h) {
        ExtendAt(Below(st, fork + 1), chain, end, h);
        if h <= fork {
          SharedPrefix(st, chain, fork, h);
        }
      }
    }
  }

  // An iteration that does not look for a fork goes on from the top it has, and leaves the loop on track from there.
  lemma BlindStep(cfg: Config, node: Node, chain: nat -> Block, s: State, end: nat, st: Stack, high: nat, floor: nat)
    requires 1 <= cfg.blocksSafe && 1 <= cfg.blockBatch && FixedTo(node, chain) && NodeChain(chain)
    requires GenesisAgreed(node, st) && end + 2 * cfg.blocksSafe <= TWO_64
    requires Inv(2 * cfg.blocksSafe, s.height, s.cache, st, high, floor) && high < s.height + 2 * cfg.blocksSafe
    requires !s.firstLoop && s.height + cfg.blocksSafe <= end
    ensures var r := Iterate(cfg, node, s, end, false);
            && r.Alive? && s.height < r.st.height <= end && Leads(st, r.events, Extend(st, chain, r.st.height))
            && OnTrack(cfg, node, chain, r.st, end, Extend(st, chain, r.st.height), High(high, r.events), floor,
                       r.st.height - 1)
  {
    hide Iterate, Inv;
    InvShape(2 * cfg.blocksSafe, s, st, high, floor);
    assert Below(st, s.height) == st;
    NumberedFixed(node, chain);
    FreeStep(cfg, node, chain, s, end, st);
    var r := Iterate(cfg, node, s, end, false);
    IterateInv(cfg, node, s, end, st, high, floor, Extend(st, chain, r.st.height));
    NextReady(2 * cfg.blocksSafe, s, r, st, high, floor, chain, s.height - 1, BatchSize(cfg, s.height, end));
  }

  lemma InvShape(w: nat, s: State, st: Stack, high: nat, floor: nat)
    requires Inv(w, s.height, s.cache, st, high, floor)
    ensures s.height == st.Next() && 1 <= s.height && floor <= s.height && st.base <= s.height
  {
  }

  lemma FreeStep(cfg: Config, node: Node, chain: nat -> Block, s: State, end: nat, st: Stack)
    requires FixedTo(node, chain) && NodeChain(chain) && s.height == st.Next() && 1 <= s.height && Numbered(node)
    requires !s.firstLoop && s.height + cfg.blocksSafe <= end
    ensures Resumed(Iterate(cfg, node, s, end, false), st, chain, s.height - 1, BatchSize(cfg, s.height, end))
    ensures PushesBelow(Iterate(cfg, node, s, end, false))
  {
    IterateFixedFree(cfg, node, chain, s, end, st);
    IteratePushes(cfg, node, s, end);
  }

  // Such an iteration and those after it put the node's chain on top of what there is.
  lemma BlindRun(step: State -> Outcome, cfg: Config, node: Node, chain: nat -> Block, s: State, end: nat, st: Stack,
          high: nat, floor: nat, n: nat)
    requires StepsLike(step, cfg, node, end) && s.height < end <= s.height + n
    requires 1 <= cfg.blocksSafe && 1 <= cfg.blockBatch && FixedTo(node, chain) && NodeChain(chain)
    requires GenesisAgreed(node, st) && end + 2 * cfg.blocksSafe <= TWO_64
    requires Inv(2 * cfg.blocksSafe, s.height, s.cache, st, high, floor) && high < s.height + 2 * cfg.blocksSafe
    requires !s.firstLoop && s.height + cfg.blocksSafe <= end
    ensures st.Next() <= end && CaughtUp(Loop(step, s, end, n), st, Extend(st, chain, end), end)
  {
    InvShape(2 * cfg.blocksSafe, s, st, high, floor);
    BlindStep(cfg, node, chain, s, end, st, high, floor);
    assert StepsAt(step, cfg, node, end, s);
    hide Iterate, OnTrack, Leads, Inv, CaughtUp, Loop, FixedTo, NodeChain, GenesisAgreed, StepsLike;
    var r := step(s);
    var mid := Extend(st, chain, r.st.height);
    Advances(step, cfg, node, chain, r.st, end, mid, High(high, r.events), floor, r.st.height - 1, n - 1);
    SameGoal(mid, st, chain, r.st.height, end);
    LoopStep(step, s, end, n, st, mid, Extend(st, chain, end));
  }

  // A fork below the top that the next iteration does not look for stays below everything published afterwards.
  lemma ForkMissed(cfg: Config, node: Node, chain: nat -> Block, s: State, end: nat, st: Stack, high: nat, floor: nat,
          fork: nat)
    requires 1 <= cfg.blocksSafe && 1 <= cfg.blockBatch && FixedTo(node, chain) && NodeChain(chain)
    requires GenesisAgreed(node, st) && end + 2 * cfg.blocksSafe <= TWO_64
    requires Inv(2 * cfg.blocksSafe, s.height, s.cache, st, high, floor) && high < s.height + 2 * cfg.blocksSafe
    requires !s.firstLoop && s.height + cfg.blocksSafe <= end && ForkAt(st, chain, fork) && fork + 1 < s.height
    ensures var r := Sync(cfg, node, s, end, end - fork - 1);
            && st.Next() <= end && CaughtUp(r, st, Extend(st, chain, end), end)
            && !IsPrefixOf(Extend(st, chain, end), chain, end)
  {
    var step := s => Iterate(cfg, node, s, end, false);
    assert StepsLike(step, cfg, node, end);
    InvShape(2 * cfg.blocksSafe, s, st, high, floor);
    hide Iterate, Inv, FixedTo, NodeChain, GenesisAgreed, CaughtUp, Loop, IsPrefixOf, ForkAt, Extend;
    BlindRun(step, cfg, node, chain, s, end, st, high, floor, end - fork - 1);
    StillForked(st, chain, end, fork);
  }

  lemma StillForked(st: Stack, chain: nat -> Block, end: nat, fork: nat)
    requires ForkAt(st, chain, fork) && fork + 1 < st.Next() <= end
    ensures !IsPrefixOf(Extend(st, chain, end), chain, end)
  {
    assert Differ(st, chain, fork + 1);
    ExtendAt(st, chain, end, fork + 1);
    assert !IsBlockOf(Extend(st, chain, end), chain, fork + 1);
  }

  // The loop ends up with the node's chain if and only if there is nothing to revert, or the next iteration looks for
  // the fork: it is the first one, or the target is less than BlocksSafe above the height.
  lemma ConvergesIff(cfg: Config, node: Node, chain: nat -> Block, s: State, end: nat, st: Stack, high: nat, floor: nat,
          fork: nat)
    requires 1 <= cfg.blocksSafe && 1 <= cfg.blockBatch && FixedTo(node, chain) && NodeChain(chain)
    requires GenesisAgreed(node, st)
    requires Inv(2 * cfg.blocksSafe, s.height, s.cache, st, high, floor) && end + 2 * cfg.blocksSafe <= TWO_64
    requires st.Linked() && CollisionFree(st, chain) && s.height < end
    requires ForkAt(st, chain, fork) && fork in s.cache && high <= fork + 2 * cfg.blocksSafe
    ensures var r := Sync(cfg, node, s, end, end - fork - 1);
            && r.Alive? && r.st.height == end && WellFormed(st, r.events)
            && (IsPrefixOf(Replay(st, r.events), chain, end)
                <==> fork + 1 == s.height || s.firstLoop || end < s.height + cfg.blocksSafe)
  {
    hide Iterate, FixedTo, NodeChain, GenesisAgreed, Loop, IsPrefixOf, Extend;
    assert fork < s.height;
    if fork + 1 == s.height || s.firstLoop || end < s.height + cfg.blocksSafe {
      var step := s => Iterate(cfg, node, s, end, false);
      assert StepsLike(step, cfg, node, end);
      Advances(step, cfg, node, chain, s, end, st, high, floor, fork, end - fork - 1);
      WholeChain(chain, end, st, fork);
    } else {
      ForkMissed(cfg, node, chain, s, end, st, high, floor, fork);
    }
  }

  // Convergence: from any local fork inside the window, while the node keeps to one chain and no fetch fails,
  // the fetcher's first end - fork - 1 iterations bring it to `end`, and the chain its events describe is then the
  // node's chain up to end - 1.
  lemma Converges(cfg: Config, node: Node, chain: nat -> Block, s: State, end: nat, st: Stack, high: nat, floor: nat,
          fork: nat)
    requires 1 <= cfg.blocksSafe && 1 <= cfg.blockBatch && FixedTo(node, chain) && NodeChain(chain)
    requires GenesisAgreed(node, st)
    requires Inv(2 * cfg.blocksSafe, s.height, s.cache, st, high, floor) && end + 2 * cfg.blocksSafe <= TWO_64
    requires st.Linked() && CollisionFree(st, chain)
    requires s.height < end && (s.firstLoop || end < s.height + cfg.blocksSafe)
    requires ForkAt(st, chain, fork) && fork in s.cache
    requires high <= fork + 2 * cfg.blocksSafe
    ensures var r := Sync(cfg, node, s, end, end - fork - 1);
            && r.Alive? && r.st.height == end
            && WellFormed(st, r.events) && IsPrefixOf(Replay(st, r.events), chain, end)
  {
    ConvergesIff(cfg, node, chain, s, end, st, high, floor, fork);
  }
}
