/** What every run of the fetcher keeps, whatever the node answers. */
module FetchProofs {
  import opened Chain
  import opened FetchSpec

  // The stack cut down to the blocks below height n.
  function Below(st: Stack, n: nat): Stack
    requires st.base <= n <= st.Next()
  {
    Stack(st.base, st.blocks[..n - st.base])
  }

  // The highest number on the feed, starting from high.
  function High(high: nat, feed: seq<Event>): (r: nat)
    ensures high <= r
    decreases |feed|
  {
    if feed == [] then high
    else High(if feed[0].Push? && feed[0].blk.number > high then feed[0].blk.number else high, feed[1..])
  }

  lemma {:induction false} HighConcat(high: nat, a: seq<Event>, b: seq<Event>)
    ensures High(high, a + b) == High(High(high, a), b)
    decreases |a|
  {
    if a == [] {
      assert a + b == b;
    } else {
      assert (a + b)[0] == a[0] && (a + b)[1..] == a[1..] + b;
      HighConcat(if a[0].Push? && a[0].blk.number > high then a[0].blk.number else high, a[1..], b);
    }
  }

  // ------------------------------------------------------------------ the invariant

  // What the cache says about height k.
  ghost predicate Entry(w: nat, cache: map<nat, Block>, st: Stack, high: nat, floor: nat, k: nat) {
    && (k in cache ==> st.Has(k) && cache[k] == st.At(k) && (k == floor || (floor < k && high < k + w)))
    && (floor <= k < st.Next() && high < k + w ==> k in cache)
  }

  // w is the window 2 * BlocksSafe, high the highest height ever loaded or published, and floor the lowest
  // height the cache was loaded with (or, after an empty load, the first height to fetch).
  ghost predicate Inv(w: nat, height: nat, cache: map<nat, Block>, st: Stack, high: nat, floor: nat) {
    && st.Contiguous()
    && height == st.Next()
    && 1 <= height <= high + 1
    && st.base <= floor <= height
    && high + w < TWO_64
    && (forall k: nat :: Entry(w, cache, st, high, floor, k))
    && (high < height + w || (height == floor && high == height + w))
  }

  // The process only starts when the node's genesis block is the stored one.
  ghost predicate GenesisAgreed(node: Node, st: Stack) {
    st.base == 0 ==> st.blocks != [] && forall t: nat :: !Disagree(st.blocks[0], node(t, 1))
  }

  // ------------------------------------------------------------------ the walk

  // The blocks of the stack from height `from` down to height `to + 1`.
  ghost predicate Descends(st: Stack, revs: seq<Block>, from: int, to: int) {
    && to <= from && |revs| == from - to
    && forall i {:trigger revs[i]} :: 0 <= i < |revs| ==> IsAt(st, revs[i], from - i)
  }

  predicate IsAt(st: Stack, b: Block, height: int) {
    0 <= height && st.Has(height) && b == st.At(height)
  }

  ghost predicate Mirrors(cache: map<nat, Block>, st: Stack, k: nat) {
    k in cache ==> st.Has(k) && cache[k] == st.At(k)
  }

  ghost predicate CacheOf(cache: map<nat, Block>, st: Stack) {
    forall k: nat :: Mirrors(cache, st, k)
  }

  lemma InvCache(w: nat, height: nat, cache: map<nat, Block>, st: Stack, high: nat, floor: nat)
    requires Inv(w, height, cache, st, high, floor)
    ensures CacheOf(cache, st)
  {
    forall k: nat ensures Mirrors(cache, st, k) {
      assert Entry(w, cache, st, high, floor, k);
    }
  }

  // In a walk that started at height local with request t, height k was compared and disagreed.
  ghost predicate Reverted(cache: map<nat, Block>, node: Node, t: nat, local: nat, k: nat) {
    k <= local && k in cache && Disagree(cache[k], node(t + (local - k), k + 1))
  }

  // The walk reports exactly the blocks between the top and the height it stops at; each of them disagreed with
  // the node when it was compared. It stops on a cached block that agreed, or where the cache ends.
  lemma {:induction false} WalkDescends(cache: map<nat, Block>, mayMiss: bool, local: nat, hash: Hash,
          reverts: seq<Block>,
                                        node: Node, t: nat, st: Stack, top: nat)
    requires CacheOf(cache, st) && GenesisAgreed(node, st)
    requires top < st.Next() && local < MAX_64 && local <= top && Descends(st, reverts, top, local)
    ensures var w := Walk(cache, mayMiss, local, hash, reverts, node, t);
            w.Found? ==>
              && w.height <= local
              && Descends(st, w.reverts, top, w.height)
              && (forall k :: w.height < k <= local ==> Reverted(cache, node, t, local, k))
              && (w.height in cache ==>
                    && w.hash == cache[w.height].hash
                    && !Disagree(cache[w.height], node(t + (local - w.height), w.height + 1)))
              && (w.height !in cache ==>
                    && mayMiss
                    && w.hash == (if w.height + 1 in cache && w.height < local then cache[w.height + 1].hash else hash))
  {
    assert Mirrors(cache, st, local);
    if local in cache && Disagree(cache[local], node(t, local + 1)) {
      var reverts' := reverts + [cache[local]];
      assert local != 0;
      forall i | 0 <= i < |reverts'| ensures IsAt(st, reverts'[i], top - i) {
        if i < |reverts| {
          assert reverts'[i] == reverts[i];
        }
      }
      WalkDescends(cache, mayMiss, local - 1, cache[local].hash, reverts', node, t + 1, st, top);
      var w := Walk(cache, mayMiss, local, hash, reverts, node, t);
      if w.Found? {
        forall k | w.height < k <= local ensures Reverted(cache, node, t, local, k) {
          if k < local {
            assert Reverted(cache, node, t + 1, local - 1, k);
          }
        }
        assert Reverted(cache, node, t, local, w.height + 1);
      }
    }
  }

  // A walk that meets a cached block agreeing with the node on its way through cached blocks never dies.
  lemma {:induction false} WalkSurvives(cache: map<nat, Block>, mayMiss: bool, local: nat, hash: Hash,
          reverts: seq<Block>,
                                        node: Node, t: nat, fork: nat)
    requires fork <= local && (forall k :: fork <= k <= local ==> k in cache)
    requires !Disagree(cache[fork], node(t + (local - fork), fork + 1))
    ensures var w := Walk(cache, mayMiss, local, hash, reverts, node, t);
            w.Found? && fork <= w.height <= local && w.height in cache
  {
    if Disagree(cache[local], node(t, local + 1)) {
      WalkSurvives(cache, mayMiss, local - 1, cache[local].hash, reverts + [cache[local]], node, t + 1, fork);
    }
  }

  lemma {:induction false} PopsReplay(st: Stack, revs: seq<Block>, to: nat)
    requires st.base <= to + 1 <= st.Next() && 1 <= st.Next()
    requires Descends(st, revs, st.Next() - 1, to)
    ensures WellFormed(st, Pops(revs)) && Replay(st, Pops(revs)) == Below(st, to + 1)
    decreases |revs|
  {
    var pops := Pops(revs);
    if revs == [] {
      assert st.blocks[..|st.blocks|] == st.blocks;
    } else {
      assert IsAt(st, revs[0], st.Next() - 1);
      var st' := Apply(st, pops[0]);
      forall i | 0 <= i < |revs[1..]| ensures IsAt(st', revs[1..][i], st'.Next() - 1 - i) {
        assert IsAt(st, revs[i + 1], st.Next() - 1 - (i + 1));
      }
      PopsReplay(st', revs[1..], to);
      assert Pops(revs[1..]) == pops[1..];
      assert Below(st', to + 1) == Below(st, to + 1);
    }
  }

  lemma {:induction false} PopsKeepHigh(high: nat, revs: seq<Block>)
    ensures High(high, Pops(revs)) == high
    decreases |revs|
  {
    if revs != [] {
      assert Pops(revs)[1..] == Pops(revs[1..]);
      PopsKeepHigh(high, revs[1..]);
    }
  }

  // ------------------------------------------------------------------ the publish loop

  ghost predicate ConsecutiveFrom(blocks: seq<Block>, height: nat) {
    forall i :: 0 <= i < |blocks| ==> blocks[i].number == height + i
  }

  lemma PublishOne(cfg: Config, height: nat, cache: map<nat, Block>, b: Block, st: Stack, high: nat, floor: nat)
    requires 1 <= cfg.blocksSafe
    requires Inv(2 * cfg.blocksSafe, height, cache, st, high, floor)
    requires b.number == height && height + 2 * cfg.blocksSafe < TWO_64
    ensures var w := 2 * cfg.blocksSafe;
            && Enabled(st, Push(b))
            && Inv(w, height + 1, (cache - {Sub64(height, w)})[height := b], Apply(st, Push(b)),
                   if high < height then height else high, floor)
  {
    var w := 2 * cfg.blocksSafe;
    var cache' := (cache - {Sub64(height, w)})[height := b];
    var st' := Apply(st, Push(b));
    var high' := if high < height then height else high;
    ApplyContiguous(st, Push(b));
    forall k: nat ensures Entry(w, cache', st', high', floor, k) {
      assert Entry(w, cache, st, high, floor, k);
    }
  }

  lemma {:induction false} PublishKeeps(cfg: Config, height: nat, cache: map<nat, Block>, prevHash: Hash,
          blocks: seq<Block>,
                                        st: Stack, high: nat, floor: nat)
    requires 1 <= cfg.blocksSafe
    requires Inv(2 * cfg.blocksSafe, height, cache, st, high, floor)
    requires ConsecutiveFrom(blocks, height) && height + |blocks| + 2 * cfg.blocksSafe <= TWO_64
    ensures var p := Publish(cfg, height, cache, prevHash, blocks);
            && WellFormed(st, p.events)
            && Inv(2 * cfg.blocksSafe, p.height, p.cache, Replay(st, p.events), High(high, p.events), floor)
            && height <= p.height <= height + |blocks|
    decreases |blocks|
  {
    if blocks != [] && !(prevHash != "" && blocks[0].parentHash != prevHash) {
      var b := blocks[0];
      var w := 2 * cfg.blocksSafe;
      PublishOne(cfg, height, cache, b, st, high, floor);
      var cache' := (cache - {Sub64(b.number, w)})[b.number := b];
      var high' := if high < height then height else high;
      PublishKeeps(cfg, height + 1, cache', b.hash, blocks[1..], Apply(st, Push(b)), high', floor);
      var p := Publish(cfg, height, cache, prevHash, blocks);
      assert p.events[1..] == Publish(cfg, height + 1, cache', b.hash, blocks[1..]).events;
    }
  }

  // ------------------------------------------------------------------ one iteration

  lemma DescentNumbers(st: Stack, revs: seq<Block>, to: nat)
    requires st.Contiguous() && st.base <= to + 1 <= st.Next() && 1 <= st.Next()
    requires Descends(st, revs, st.Next() - 1, to)
    ensures forall k :: k in Numbers(revs) <==> to < k < st.Next()
  {
    var top := st.Next() - 1;
    forall k | to < k <= top ensures k in Numbers(revs) {
      var b := revs[top - k];
      assert IsAt(st, b, top - (top - k)) && st.NumberedAt(k - st.base);
      assert b in revs;
    }
    forall k | k in Numbers(revs) ensures to < k <= top {
      var b :| b in revs && b.number == k;
      var i :| 0 <= i < |revs| && revs[i] == b;
      assert IsAt(st, b, top - i) && st.NumberedAt(top - i - st.base);
    }
  }

  // Taking the walked blocks out of the cache leaves what the shorter stack needs.
  lemma CacheAfterPops(w: nat, height: nat, cache: map<nat, Block>, st: Stack, high: nat, floor: nat, gone: set<nat>,
          to: nat)
    requires Inv(w, height, cache, st, high, floor)
    requires st.base <= to + 1 <= height && (forall k :: k in gone <==> to < k < height)
    requires forall k: nat :: to < k < height ==> k in cache
    ensures Inv(w, to + 1, cache - gone, Below(st, to + 1), high, floor)
    ensures to in cache ==> to in cache - gone
  {
    var st' := Below(st, to + 1);
    assert st'.Contiguous() by {
      forall i: nat ensures st'.NumberedAt(i) {
        assert st.NumberedAt(i);
      }
    }
    forall k: nat ensures Entry(w, cache - gone, st', high, floor, k) {
      assert Entry(w, cache, st, high, floor, k);
    }
    if to + 1 < height {
      assert Entry(w, cache, st, high, floor, to + 1);
      if to + 2 < height {
        assert Entry(w, cache, st, high, floor, to + 2);
      }
    }
  }

  // Where the walk of an iteration stops: on a cached block whose hash it returns, or, only while the fetcher
  // has not moved since it started, on a height the cache does not hold.
  ghost predicate Stops(s: State, w: WalkResult, st: Stack) {
    && w.Found? && st.base <= w.height + 1 <= s.height
    && Descends(st, w.reverts, s.height - 1, w.height)
    && (forall k: nat :: w.height < k < s.height ==> k in s.cache)
    && (w.height in s.cache ==> w.hash == s.cache[w.height].hash)
    && (w.height !in s.cache ==> s.height == s.startNum)
    && (w.height !in s.cache && w.height + 1 == s.height ==> w.hash == "")
  }

  lemma WalkFromStops(cfg: Config, node: Node, s: State, st: Stack, high: nat, floor: nat)
    requires 1 <= cfg.blocksSafe && Inv(2 * cfg.blocksSafe, s.height, s.cache, st, high, floor)
    requires GenesisAgreed(node, st)
    requires WalkFrom(s, node).Found?
    ensures Stops(s, WalkFrom(s, node), st)
  {
    var w := WalkFrom(s, node);
    InvCache(2 * cfg.blocksSafe, s.height, s.cache, st, high, floor);
    WalkDescends(s.cache, s.height == s.startNum, s.height - 1, "", [], node, s.clock, st, s.height - 1);
    forall k: nat | w.height < k < s.height ensures k in s.cache {
      assert Reverted(s.cache, node, s.clock, s.height - 1, k);
    }
    if w.height + 1 < s.height {
      assert Mirrors(s.cache, st, w.height + 1);
    }
  }

  lemma AfterWalkShape(s: State, w: WalkResult)
    requires w.Found? && w.height < s.height < TWO_64 && |w.reverts| == s.height - 1 - w.height
    ensures var a := AfterWalk(s, w);
            && a.st == State(w.height + 1, s.startNum, false, s.cache - Numbers(w.reverts), w.clock)
            && a.events == Pops(w.reverts)
  {
    if w.height + 1 == s.height {
      assert w.reverts == [];
    }
  }

  // The events of a walk pop the stack down to the height it reports.
  lemma PopsKeep(win: nat, height: nat, cache: map<nat, Block>, st: Stack, high: nat, floor: nat, revs: seq<Block>,
          to: nat)
    requires Inv(win, height, cache, st, high, floor)
    requires st.base <= to + 1 <= height && Descends(st, revs, height - 1, to)
    requires forall k: nat :: to < k < height ==> k in cache
    ensures WellFormed(st, Pops(revs)) && Replay(st, Pops(revs)) == Below(st, to + 1)
    ensures High(high, Pops(revs)) == high
    ensures Inv(win, to + 1, cache - Numbers(revs), Below(st, to + 1), high, floor)
    ensures to in cache ==> to in cache - Numbers(revs)
  {
    PopsReplay(st, revs, to);
    PopsKeepHigh(high, revs);
    DescentNumbers(st, revs, to);
    CacheAfterPops(win, height, cache, st, high, floor, Numbers(revs), to);
  }

  // The events of walk w pop the stack down to w.height, and the state after it fits that shorter stack.
  ghost predicate Walked(win: nat, s: State, w: WalkResult, st: Stack, high: nat, floor: nat) {
    && w.Found? && st.base <= w.height + 1 <= s.height <= st.Next()
    && AfterWalk(s, w) == Alive(State(w.height + 1, s.startNum, false, s.cache - Numbers(w.reverts), w.clock),
                                Pops(w.reverts))
    && WellFormed(st, Pops(w.reverts)) && Replay(st, Pops(w.reverts)) == Below(st, w.height + 1)
    && High(high, Pops(w.reverts)) == high
    && Inv(win, w.height + 1, s.cache - Numbers(w.reverts), Below(st, w.height + 1), high, floor)
    && (w.height in s.cache ==> w.height in s.cache - Numbers(w.reverts))
  }

  lemma StopsWalked(win: nat, s: State, w: WalkResult, st: Stack, high: nat, floor: nat)
    requires 1 <= win && Inv(win, s.height, s.cache, st, high, floor) && Stops(s, w, st)
    ensures Walked(win, s, w, st, high, floor)
  {
    AfterWalkShape(s, w);
    PopsKeep(win, s.height, s.cache, st, high, floor, w.reverts, w.height);
  }

  lemma AfterWalkKeeps(cfg: Config, node: Node, s: State, st: Stack, high: nat, floor: nat)
    requires 1 <= cfg.blocksSafe && Inv(2 * cfg.blocksSafe, s.height, s.cache, st, high, floor)
    requires GenesisAgreed(node, st)
    requires WalkFrom(s, node).Found?
    ensures Walked(2 * cfg.blocksSafe, s, WalkFrom(s, node), st, high, floor)
  {
    WalkFromStops(cfg, node, s, st, high, floor);
    StopsWalked(2 * cfg.blocksSafe, s, WalkFrom(s, node), st, high, floor);
  }

  lemma FetchedConsecutive(node: Node, t: nat, from: nat, count: nat)
    requires Numbered(node)
    ensures ConsecutiveFrom(Fetched(node, t, from, count), from)
  {
  }

  lemma BatchKeeps(cfg: Config, node: Node, s: State, prevHash: Hash, end: nat, fetchErr: bool, st: Stack, high: nat,
          floor: nat)
    requires 1 <= cfg.blocksSafe && Numbered(node)
    requires Inv(2 * cfg.blocksSafe, s.height, s.cache, st, high, floor)
    requires s.height <= end && end + 2 * cfg.blocksSafe <= TWO_64
    ensures var p := PublishBatch(cfg, node, s, prevHash, end, fetchErr);
            && WellFormed(st, p.events)
            && Inv(2 * cfg.blocksSafe, p.st.height, p.st.cache, Replay(st, p.events), High(high, p.events), floor)
            && s.height <= p.st.height <= end
  {
    var count := BatchSize(cfg, s.height, end);
    FetchedConsecutive(node, s.clock, s.height, count);
    PublishKeeps(cfg, s.height, s.cache, prevHash, Fetched(node, s.clock, s.height, count), st, high, floor);
  }

  lemma GenesisKept(node: Node, st: Stack, n: nat)
    requires GenesisAgreed(node, st) && st.base <= n <= st.Next() && 1 <= n
    ensures GenesisAgreed(node, Below(st, n))
  {
  }

  lemma {:induction false} GenesisReplay(node: Node, st: Stack, feed: seq<Event>)
    requires GenesisAgreed(node, st) && WellFormed(st, feed) && (forall i :: 0 <= i < |feed| ==> feed[i].Push?)
    ensures GenesisAgreed(node, Replay(st, feed))
    decreases |feed|
  {
    if feed != [] {
      GenesisReplay(node, Apply(st, feed[0]), feed[1..]);
    }
  }

  lemma {:induction false} PublishPushes(cfg: Config, height: nat, cache: map<nat, Block>, prevHash: Hash,
          blocks: seq<Block>)
    ensures var events := Publish(cfg, height, cache, prevHash, blocks).events;
            |events| <= |blocks| && forall i :: 0 <= i < |events| ==> events[i] == Push(blocks[i])
    decreases |blocks|
  {
    if blocks != [] && !(prevHash != "" && blocks[0].parentHash != prevHash) {
      var b := blocks[0];
      PublishPushes(cfg, b.number + 1, (cache - {Sub64(b.number, 2 * cfg.blocksSafe)})[b.number := b], b.hash,
                    blocks[1..]);
    }
  }

  // A batch published on top of a stack that the events sent so far have cut down to st'.
  lemma BatchAfterPops(cfg: Config, node: Node, s: State, pops: seq<Event>, prevHash: Hash, end: nat, fetchErr: bool,
                       st: Stack, st': Stack, high: nat, floor: nat)
    requires 1 <= cfg.blocksSafe && Numbered(node) && GenesisAgreed(node, st')
    requires WellFormed(st, pops) && Replay(st, pops) == st' && High(high, pops) == high
    requires Inv(2 * cfg.blocksSafe, s.height, s.cache, st', high, floor)
    requires s.height <= end && end + 2 * cfg.blocksSafe <= TWO_64
    ensures var p := PublishBatch(cfg, node, s, prevHash, end, fetchErr);
            var events := pops + p.events;
            && WellFormed(st, events)
            && Inv(2 * cfg.blocksSafe, p.st.height, p.st.cache, Replay(st, events), High(high, events), floor)
            && GenesisAgreed(node, Replay(st, events))
            && p.st.height <= end
  {
    BatchIteration(cfg, node, s, prevHash, end, fetchErr, st', high, floor);
    var p := PublishBatch(cfg, node, s, prevHash, end, fetchErr);
    ReplayConcat(st, pops, p.events);
    HighConcat(high, pops, p.events);
  }

  lemma WalkingIterationKeeps(cfg: Config, node: Node, s: State, end: nat, fetchErr: bool, st: Stack, high: nat,
          floor: nat)
    requires 1 <= cfg.blocksSafe && Numbered(node) && GenesisAgreed(node, st)
    requires Inv(2 * cfg.blocksSafe, s.height, s.cache, st, high, floor)
    requires s.height < end && end + 2 * cfg.blocksSafe <= TWO_64 && WalkFrom(s, node).Found?
    ensures var w := WalkFrom(s, node);
            var a := AfterWalk(s, w);
            var p := PublishBatch(cfg, node, a.st, w.hash, end, fetchErr);
            var events := a.events + p.events;
            && WellFormed(st, events)
            && Inv(2 * cfg.blocksSafe, p.st.height, p.st.cache, Replay(st, events), High(high, events), floor)
            && GenesisAgreed(node, Replay(st, events))
            && p.st.height <= end
  {
    var w := WalkFrom(s, node);
    AfterWalkKeeps(cfg, node, s, st, high, floor);
    GenesisKept(node, st, w.height + 1);
    var a := AfterWalk(s, w);
    BatchAfterPops(cfg, node, a.st, a.events, w.hash, end, fetchErr, st, Below(st, w.height + 1), high, floor);
  }

  // Event stack discipline, one iteration: every block published has the next free number, every block
  // reverted is the current top, and Height is again the next free number.
  lemma IterateKeeps(cfg: Config, node: Node, s: State, end: nat, fetchErr: bool, st: Stack, high: nat, floor: nat)
    requires 1 <= cfg.blocksSafe && Numbered(node) && GenesisAgreed(node, st)
    requires Inv(2 * cfg.blocksSafe, s.height, s.cache, st, high, floor)
    requires s.height < end && end + 2 * cfg.blocksSafe <= TWO_64
    ensures var r := Iterate(cfg, node, s, end, fetchErr);
            r.Alive? ==>
              && WellFormed(st, r.events)
              && Inv(2 * cfg.blocksSafe, r.st.height, r.st.cache, Replay(st, r.events), High(high, r.events), floor)
              && GenesisAgreed(node, Replay(st, r.events))
              && r.st.height <= end
  {
    if Walks(cfg, s, end) {
      if WalkFrom(s, node).Found? {
        WalkingIterationKeeps(cfg, node, s, end, fetchErr, st, high, floor);
      }
    } else {
      BatchIteration(cfg, node, s, "", end, fetchErr, st, high, floor);
    }
  }

  lemma BatchIteration(cfg: Config, node: Node, s: State, prevHash: Hash, end: nat, fetchErr: bool, st: Stack,
          high: nat, floor: nat)
    requires 1 <= cfg.blocksSafe && Numbered(node) && GenesisAgreed(node, st)
    requires Inv(2 * cfg.blocksSafe, s.height, s.cache, st, high, floor)
    requires s.height <= end && end + 2 * cfg.blocksSafe <= TWO_64
    ensures var p := PublishBatch(cfg, node, s, prevHash, end, fetchErr);
            && WellFormed(st, p.events)
            && Inv(2 * cfg.blocksSafe, p.st.height, p.st.cache, Replay(st, p.events), High(high, p.events), floor)
            && GenesisAgreed(node, Replay(st, p.events))
            && s.height <= p.st.height <= end
  {
    BatchKeeps(cfg, node, s, prevHash, end, fetchErr, st, high, floor);
    PublishPushes(cfg, s.height, s.cache, prevHash, Fetched(node, s.clock, s.height, BatchSize(cfg, s.height, end)));
    GenesisReplay(node, st, PublishBatch(cfg, node, s, prevHash, end, fetchErr).events);
  }

  // ------------------------------------------------------------------ whole runs

  predicate TargetsFit(cfg: Config, end: nat, turns: seq<Turn>) {
    && end + 2 * cfg.blocksSafe <= TWO_64
    && forall i :: 0 <= i < |turns| && turns[i].NewEnd? ==> turns[i].end + 2 * cfg.blocksSafe <= TWO_64
  }

  lemma TurnKeeps(cfg: Config, node: Node, s: State, end: nat, turn: Turn, st: Stack, high: nat, floor: nat)
    requires 1 <= cfg.blocksSafe && Numbered(node) && GenesisAgreed(node, st)
    requires Inv(2 * cfg.blocksSafe, s.height, s.cache, st, high, floor)
    requires end + 2 * cfg.blocksSafe <= TWO_64
    ensures var r := TakeTurn(cfg, node, s, end, turn);
            r.Alive? ==>
              && WellFormed(st, r.events)
              && Inv(2 * cfg.blocksSafe, r.st.height, r.st.cache, Replay(st, r.events), High(high, r.events), floor)
              && GenesisAgreed(node, Replay(st, r.events))
  {
    if turn.Fetch? && s.height < end {
      IterateKeeps(cfg, node, s, end, turn.fetchErr, st, high, floor);
    }
  }

  // Event stack discipline over every run.
  lemma {:induction false} RunKeeps(cfg: Config, node: Node, s: State, end: nat, turns: seq<Turn>, st: Stack,
          high: nat, floor: nat)
    requires 1 <= cfg.blocksSafe && Numbered(node) && GenesisAgreed(node, st)
    requires Inv(2 * cfg.blocksSafe, s.height, s.cache, st, high, floor)
    requires TargetsFit(cfg, end, turns)
    ensures var r := Run(cfg, node, s, end, turns);
            r.Alive? ==>
              && WellFormed(st, r.events)
              && r.st.height == Replay(st, r.events).Next()
              && Inv(2 * cfg.blocksSafe, r.st.height, r.st.cache, Replay(st, r.events), High(high, r.events), floor)
              && GenesisAgreed(node, Replay(st, r.events))
    decreases |turns|
  {
    if turns != [] {
      TurnKeeps(cfg, node, s, end, turns[0], st, high, floor);
      var i := TakeTurn(cfg, node, s, end, turns[0]);
      if i.Alive? {
        RunKeeps(cfg, node, i.st, EndAfter(end, turns[0]), turns[1..], Replay(st, i.events), High(high, i.events),
                 floor);
        var r := Run(cfg, node, i.st, EndAfter(end, turns[0]), turns[1..]);
        if r.Alive? {
          ReplayConcat(st, i.events, r.events);
          HighConcat(high, i.events, r.events);
        }
      }
    }
  }
}
