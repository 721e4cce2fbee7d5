/** The fetcher's promises: its cache window, when it gives up, parent links, the fork point and convergence. */
module FetchTheorems {
  import opened Chain
  import opened FetchSpec
  import opened FetchProofs

  // ------------------------------------------------------------------ start-up

  // The rows GetBlocksByRange finds between two heights, keyed by height.
  function Rows(db: Stack, start: nat, end: nat): (r: map<nat, Block>)
    ensures forall k: nat :: k in r <==> db.Has(k) && start <= k <= end
    ensures forall k :: k in r ==> r[k] == db.At(k)
  {
    map k | db.base <= k < db.Next() && start <= k <= end :: db.At(k)
  }

  function LoadCache(db: Stack, w: nat): map<nat, Block> {
    var end := if db.blocks == [] then 0 else db.Next() - 1;
    if end == 0 then map[]
    else
      var start := if 0 < Sub64(end, w) then Sub64(end, w) else 0;
      Rows(db, start, end)
  }

  function Start(db: Stack, w: nat): State {
    State(db.Next(), db.Next(), true, LoadCache(db, w), 0)
  }

  function LoadFloor(db: Stack, w: nat): nat {
    if w < db.Next() then (if db.base < db.Next() - 1 - w then db.Next() - 1 - w else db.base) else db.Next()
  }

  // The stored chain is loaded only if it reaches up to height w: below that the unsigned subtraction wraps
  // and the range read comes back empty.
  lemma LoadIsFullWindow(db: Stack, w: nat)
    requires db.Contiguous() && 1 <= db.Next() && db.blocks != [] && 1 <= w && db.Next() + w < TWO_64
    ensures (forall k: nat {:trigger db.Has(k)} :: db.Has(k) && db.Next() <= k + w + 1 ==> k in LoadCache(db, w))
            <==> w < db.Next()
    ensures db.Next() <= w ==> LoadCache(db, w) == map[]
  {
    assert db.Has(db.Next() - 1);
  }

  lemma StartFits(db: Stack, w: nat)
    requires db.Contiguous() && 1 <= db.Next() && 1 <= w && db.Next() + w < TWO_64
    ensures Inv(w, db.Next(), LoadCache(db, w), db, db.Next() - 1, LoadFloor(db, w))
  {
  }

  // ------------------------------------------------------------------ cache window

  lemma {:induction false} IntervalSize(s: set<nat>, lo: int, hi: int)
    requires lo <= hi && forall k :: k in s ==> lo < k <= hi
    ensures |s| <= hi - lo
    decreases hi - lo
  {
    if lo == hi {
      assert s == {};
    } else if hi >= 0 && hi in s {
      IntervalSize(s - {hi}, lo, hi - 1);
    } else {
      IntervalSize(s, lo, hi - 1);
    }
  }

  lemma CacheBounded(w: nat, height: nat, cache: map<nat, Block>, st: Stack, high: nat, floor: nat)
    requires Inv(w, height, cache, st, high, floor)
    ensures |cache| <= w + 1
  {
    forall k: nat | k in cache ensures k == floor || high - w < k <= high {
      assert Entry(w, cache, st, high, floor, k);
    }
    var rest := cache.Keys - {floor};
    IntervalSize(rest, high - w, high);
    assert cache.Keys <= rest + {floor};
    SubsetSize(cache.Keys, rest + {floor});
  }

  lemma {:induction false} SubsetSize<T>(a: set<T>, b: set<T>)
    requires a <= b
    ensures |a| <= |b|
  {
    if a != {} {
      var x :| x in a;
      SubsetSize(a - {x}, b - {x});
    }
  }

  // The cache window over every run: the cache holds published blocks only, every published height of the last
  // w below the highest height ever published, and never more than w + 1 blocks.
  lemma CacheWindow(cfg: Config, node: Node, db: Stack, end: nat, turns: seq<Turn>)
    requires 1 <= cfg.blocksSafe && Numbered(node) && GenesisAgreed(node, db)
    requires db.Contiguous() && 1 <= db.Next() && db.Next() + 2 * cfg.blocksSafe < TWO_64 && TargetsFit(cfg, end, turns)
    ensures var w := 2 * cfg.blocksSafe;
            var r := Run(cfg, node, Start(db, w), end, turns);
            r.Alive? ==>
              && WellFormed(db, r.events)
              && var st := Replay(db, r.events);
                 var high := High(db.Next() - 1, r.events);
                 && (forall k :: k in r.st.cache ==> st.Has(k) && r.st.cache[k] == st.At(k))
                 && (forall k: nat {:trigger k in r.st.cache} ::
                       st.Has(k) && LoadFloor(db, w) <= k && high < k + w ==> k in r.st.cache)
                 && |r.st.cache| <= w + 1
  {
    var w := 2 * cfg.blocksSafe;
    var s := Start(db, w);
    StartFits(db, w);
    RunKeeps(cfg, node, s, end, turns, db, db.Next() - 1, LoadFloor(db, w));
    var r := Run(cfg, node, s, end, turns);
    if r.Alive? {
      var st := Replay(db, r.events);
      var high := High(db.Next() - 1, r.events);
      CacheBounded(w, r.st.height, r.st.cache, st, high, LoadFloor(db, w));
      forall k: nat ensures k in r.st.cache ==> st.Has(k) && r.st.cache[k] == st.At(k)
                    ensures st.Has(k) && LoadFloor(db, w) <= k && high < k + w ==> k in r.st.cache {
        assert Entry(w, r.st.cache, st, high, LoadFloor(db, w), k);
      }
    }
  }

  // With BlocksSafe = 0 nothing is ever evicted: publishing n blocks leaves n blocks in the cache.
  lemma {:induction false} NoWindowNoBound(batch: nat, height: nat, cache: map<nat, Block>, blocks: seq<Block>)
    requires ConsecutiveFrom(blocks, height)
    requires forall k :: k in cache ==> k < height
    ensures var p := Publish(Config(0, batch), height, cache, "", blocks);
            |p.cache| == |cache| + |p.events| && (forall k :: k in p.cache ==> k < height + |p.events|)
  {
    NoWindowGrows(batch, height, cache, "", blocks);
  }

  lemma {:induction false} NoWindowGrows(batch: nat, height: nat, cache: map<nat, Block>, prevHash: Hash,
          blocks: seq<Block>)
    requires ConsecutiveFrom(blocks, height)
    requires forall k :: k in cache ==> k < height
    ensures var p := Publish(Config(0, batch), height, cache, prevHash, blocks);
            |p.cache| == |cache| + |p.events| && (forall k :: k in p.cache ==> k < height + |p.events|)
    decreases |blocks|
  {
    if blocks != [] && !(prevHash != "" && blocks[0].parentHash != prevHash) {
      var b := blocks[0];
      var cache' := (cache - {Sub64(b.number, 0)})[b.number := b];
      assert cache - {height} == cache;
      NoWindowGrows(batch, height + 1, cache', b.hash, blocks[1..]);
    }
  }

  // ------------------------------------------------------------------ when the fetcher gives up

  // Height k agrees with the node when the walk of an iteration would compare it, and the cache reaches down to it.
  ghost predicate ForkInCache(s: State, node: Node, k: nat) {
    && k < s.height
    && (forall j :: k <= j < s.height ==> j in s.cache)
    && !Disagree(s.cache[k], node(s.clock + (s.height - 1 - k), k + 1))
  }

  // "local block not found" is reached exactly when the fetcher has moved and no agreeing block is in reach.
  lemma GivesUpIff(s: State, node: Node)
    requires 1 <= s.height <= TWO_64
    ensures WalkFrom(s, node).Fatal? <==> s.height != s.startNum && !(exists k: nat :: ForkInCache(s, node, k))
  {
    if exists k: nat :: ForkInCache(s, node, k) {
      var k: nat :| ForkInCache(s, node, k);
      WalkSurvives(s.cache, s.height == s.startNum, s.height - 1, "", [], node, s.clock, k);
    } else if s.height != s.startNum {
      WalkFails(s, node, s.height - 1, "", []);
    } else {
      MissAllowed(s.cache, s.height - 1, "", [], node, s.clock);
    }
  }

  lemma {:induction false} WalkFails(s: State, node: Node, local: nat, hash: Hash, reverts: seq<Block>)
    requires local < s.height && (forall j :: local < j < s.height ==> j in s.cache)
    requires !(exists k: nat :: ForkInCache(s, node, k))
    ensures Walk(s.cache, false, local, hash, reverts, node, s.clock + (s.height - 1 - local)).Fatal?
  {
    if local in s.cache {
      assert !ForkInCache(s, node, local);
      if local != 0 {
        WalkFails(s, node, local - 1, s.cache[local].hash, reverts + [s.cache[local]]);
        assert s.clock + (s.height - 1 - (local - 1)) == s.clock + (s.height - 1 - local) + 1;
      }
    }
  }

  lemma {:induction false} MissAllowed(cache: map<nat, Block>, local: nat, hash: Hash, reverts: seq<Block>,
          node: Node, t: nat)
    ensures Walk(cache, true, local, hash, reverts, node, t).Found?
  {
    if local in cache && local != 0 {
      MissAllowed(cache, local - 1, cache[local].hash, reverts + [cache[local]], node, t + 1);
    }
  }

  // Fork points inside the window are always found, the lowest block loaded at start-up included, and the walk stops at
  // or above them.
  lemma ForkInWindowFound(cfg: Config, node: Node, s: State, st: Stack, high: nat, floor: nat, fork: nat)
    requires Inv(2 * cfg.blocksSafe, s.height, s.cache, st, high, floor)
    requires fork in s.cache && fork < s.height && high <= fork + 2 * cfg.blocksSafe
    requires !Disagree(s.cache[fork], node(s.clock + (s.height - 1 - fork), fork + 1))
    ensures var w := WalkFrom(s, node);
            w.Found? && fork <= w.height < s.height && w.height in s.cache
  {
    assert Entry(2 * cfg.blocksSafe, s.cache, st, high, floor, fork);
    forall k: nat | fork <= k < s.height ensures k in s.cache {
      assert Entry(2 * cfg.blocksSafe, s.cache, st, high, floor, k);
    }
    WalkSurvives(s.cache, s.height == s.startNum, s.height - 1, "", [], node, s.clock, fork);
  }

  // ------------------------------------------------------------------ when an iteration reverts

  // The node no longer builds on the block: it names another parent for the next height.
  predicate Abandoned(b: Block, next: Block) {
    next.parentHash != ZERO_HASH && next.parentHash != "" && next.parentHash != b.hash
  }

  ghost predicate NoPops(events: seq<Event>) {
    forall i :: 0 <= i < |events| ==> events[i].Push?
  }

  // An iteration takes back the top if and only if the node has abandoned it and the iteration is the first one or the
  // target is less than BlocksSafe above the height; otherwise it takes back nothing.
  lemma RevertsIff(cfg: Config, node: Node, s: State, end: nat, fetchErr: bool, st: Stack, high: nat, floor: nat)
    requires 1 <= cfg.blocksSafe && GenesisAgreed(node, st)
    requires Inv(2 * cfg.blocksSafe, s.height, s.cache, st, high, floor)
    requires st.blocks != [] && s.height - 1 in s.cache
    ensures var r := Iterate(cfg, node, s, end, fetchErr);
            var top := st.blocks[|st.blocks| - 1];
            var reverts := Abandoned(top, node(s.clock, s.height))
                           && (s.firstLoop || end < s.height + cfg.blocksSafe);
            && (r.Died? ==> reverts && s.height != s.startNum)
            && (r.Alive? && reverts ==> r.events != [] && r.events[0] == Pop(top))
            && (!reverts ==> r.Alive? && NoPops(r.events))
  {
    assert Entry(2 * cfg.blocksSafe, s.cache, st, high, floor, s.height - 1);
    GivesUpOnly(s, node);
    if !Abandoned(s.cache[s.height - 1], node(s.clock, s.height)) {
      WalkOnce(s, node);
    }
    if WalkFrom(s, node).Found? && Abandoned(s.cache[s.height - 1], node(s.clock, s.height)) {
      TopReverted(cfg, node, s, st, high, floor);
    }
    BatchPushes(cfg, node, s, "", end, fetchErr);
    if WalkFrom(s, node).Found? {
      var w := WalkFrom(s, node);
      BatchPushes(cfg, node, AfterWalk(s, w).st, w.hash, end, fetchErr);
    }
  }

  lemma GivesUpOnly(s: State, node: Node)
    requires 1 <= s.height <= TWO_64
    ensures WalkFrom(s, node).Fatal? ==> s.height != s.startNum
  {
    GivesUpIff(s, node);
  }

  // A top the node still builds on ends the walk at once.
  lemma WalkOnce(s: State, node: Node)
    requires 1 <= s.height && s.height - 1 in s.cache && !Abandoned(s.cache[s.height - 1], node(s.clock, s.height))
    ensures var w := WalkFrom(s, node); w.Found? && AfterWalk(s, w).events == []
  {
  }

  lemma TopReverted(cfg: Config, node: Node, s: State, st: Stack, high: nat, floor: nat)
    requires 1 <= cfg.blocksSafe && GenesisAgreed(node, st)
    requires Inv(2 * cfg.blocksSafe, s.height, s.cache, st, high, floor)
    requires s.height - 1 in s.cache && Abandoned(s.cache[s.height - 1], node(s.clock, s.height))
    requires WalkFrom(s, node).Found?
    ensures var a := AfterWalk(s, WalkFrom(s, node));
            a.events != [] && a.events[0] == Pop(s.cache[s.height - 1])
  {
    var w := WalkFrom(s, node);
    InvCache(2 * cfg.blocksSafe, s.height, s.cache, st, high, floor);
    WalkDescends(s.cache, s.height == s.startNum, s.height - 1, "", [], node, s.clock, st, s.height - 1);
    AfterWalkShape(s, w);
    assert IsAt(st, w.reverts[0], s.height - 1 - 0);
    assert Mirrors(s.cache, st, s.height - 1);
  }

  lemma BatchPushes(cfg: Config, node: Node, s: State, prevHash: Hash, end: nat, fetchErr: bool)
    ensures NoPops(PublishBatch(cfg, node, s, prevHash, end, fetchErr).events)
  {
    PublishPushes(cfg, s.height, s.cache, prevHash, Fetched(node, s.clock, s.height, BatchSize(cfg, s.height, end)));
  }

  lemma {:induction false} WalkRequests(cache: map<nat, Block>, mayMiss: bool, local: nat, hash: Hash,
          reverts: seq<Block>, node: Node, t: nat)
    ensures var w := Walk(cache, mayMiss, local, hash, reverts, node, t);
            w.Found? ==> |reverts| <= |w.reverts| && w.clock == t + |w.reverts| - |reverts| + 1
  {
    if local in cache && Disagree(cache[local], node(t, local + 1)) && 0 < local {
      WalkRequests(cache, mayMiss, local - 1, cache[local].hash, reverts + [cache[local]], node, t + 1);
    }
  }

  function Popped(events: seq<Event>): nat {
    if events == [] then 0 else (if events[0].Pop? then 1 else 0) + Popped(events[1..])
  }

  lemma {:induction false} PoppedAll(revs: seq<Block>)
    ensures Popped(Pops(revs)) == |revs|
  {
    if revs != [] {
      assert Pops(revs)[1..] == Pops(revs[1..]);
      PoppedAll(revs[1..]);
    }
  }

  lemma {:induction false} PoppedConcat(a: seq<Event>, b: seq<Event>)
    requires NoPops(b)
    ensures Popped(a + b) == Popped(a)
    decreases |a| + |b|
  {
    if a == [] {
      assert a + b == b;
      if b != [] {
        assert [] + b[1..] == b[1..];
        PoppedConcat([], b[1..]);
      }
    } else {
      assert (a + b)[0] == a[0] && (a + b)[1..] == a[1..] + b;
      PoppedConcat(a[1..], b);
    }
  }

  // The requests of an iteration: if it looks for a fork, one for each block it takes back and one more; and one for
  // each height of the batch from there, which ends at the target. If one of these fails, nothing is published.
  lemma RequestsCounted(cfg: Config, node: Node, s: State, end: nat, fetchErr: bool, st: Stack, high: nat, floor: nat)
    requires 1 <= cfg.blocksSafe && GenesisAgreed(node, st) && s.height < end
    requires Inv(2 * cfg.blocksSafe, s.height, s.cache, st, high, floor)
    ensures var r := Iterate(cfg, node, s, end, fetchErr);
            r.Alive? ==>
              var n := Popped(r.events);
              var looks := s.firstLoop || end < s.height + cfg.blocksSafe;
              && n <= s.height && (!looks ==> n == 0)
              && var batch := if s.height - n + cfg.blockBatch <= end then cfg.blockBatch else end - (s.height - n);
                 && r.st.clock == s.clock + (if looks then n + 1 else 0) + batch
                 && (fetchErr ==> |r.events| == n && r.st.height == s.height - n)
  {
    if s.firstLoop || end < s.height + cfg.blocksSafe {
      WalkRequests(s.cache, s.height == s.startNum, Sub64(s.height, 1), "", [], node, s.clock);
      var w := WalkFrom(s, node);
      if w.Found? {
        WalkFromStops(cfg, node, s, st, high, floor);
        AfterWalkShape(s, w);
        var a := AfterWalk(s, w);
        BatchPushes(cfg, node, a.st, w.hash, end, fetchErr);
        PoppedAll(w.reverts);
        PoppedConcat(a.events, PublishBatch(cfg, node, a.st, w.hash, end, fetchErr).events);
      }
    } else {
      var p := PublishBatch(cfg, node, s, "", end, fetchErr);
      BatchPushes(cfg, node, s, "", end, fetchErr);
      PoppedConcat([], p.events);
      assert [] + p.events == p.events;
    }
  }

  // A new target counts from the next turn on.
  lemma NewTarget(cfg: Config, node: Node, s: State, end: nat, target: nat, turns: seq<Turn>)
    ensures Run(cfg, node, s, end, [NewEnd(target)] + turns) == Run(cfg, node, s, target, turns)
  {
    assert ([NewEnd(target)] + turns)[1..] == turns;
    var r := Run(cfg, node, s, target, turns);
    if r.Alive? {
      assert [] + r.events == r.events;
    }
  }

  // ------------------------------------------------------------------ a fork below the first block

  // Every height from local down to 0 is cached and disagreed when it was compared.
  ghost predicate AllReverted(cache: map<nat, Block>, node: Node, t: nat, local: nat) {
    forall k: nat :: k <= local ==> Reverted(cache, node, t, local, k)
  }

  lemma {:induction false} WalkWraps(cache: map<nat, Block>, mayMiss: bool, local: nat, hash: Hash,
          reverts: seq<Block>, node: Node, t: nat)
    requires local < MAX_64
    ensures var w := Walk(cache, mayMiss, local, hash, reverts, node, t);
            (w.Found? && w.height == MAX_64) <==> (mayMiss && AllReverted(cache, node, t, local))
  {
    if local !in cache || !Disagree(cache[local], node(t, local + 1)) {
      assert !Reverted(cache, node, t, local, local);
    } else if 0 < local {
      WalkWraps(cache, mayMiss, local - 1, cache[local].hash, reverts + [cache[local]], node, t + 1);
      AllRevertedStep(cache, node, t, local);
    }
  }

  lemma AllRevertedStep(cache: map<nat, Block>, node: Node, t: nat, local: nat)
    requires 0 < local && local in cache && Disagree(cache[local], node(t, local + 1))
    ensures AllReverted(cache, node, t, local) <==> AllReverted(cache, node, t + 1, local - 1)
  {
    var t', below := t + 1, local - 1;
    if AllReverted(cache, node, t, local) {
      forall k: nat | k <= below ensures Reverted(cache, node, t', below, k) {
        assert Reverted(cache, node, t, local, k);
      }
    }
    if AllReverted(cache, node, t', below) {
      forall k: nat | k <= local ensures Reverted(cache, node, t, local, k) {
        assert k <= below ==> Reverted(cache, node, t', below, k);
      }
    }
  }

  // Before its first move the fetcher loses a fork that reaches below block 0, and only such a fork: the height wraps
  // around, nothing is reverted, and fetching starts over at height 0 on top of blocks that are still published.
  lemma GenesisForkLosesReverts(s: State, node: Node)
    requires 1 <= s.height <= MAX_64
    ensures var w := WalkFrom(s, node);
            (w.Found? && AfterWalk(s, w).st.height == 0) <==>
            (s.height == s.startNum && AllReverted(s.cache, node, s.clock, s.height - 1))
    ensures var w := WalkFrom(s, node); w.Found? && AfterWalk(s, w).st.height == 0 ==> AfterWalk(s, w).events == []
  {
    WalkWraps(s.cache, s.height == s.startNum, s.height - 1, "", [], node, s.clock);
    WalkHeight(s.cache, s.height == s.startNum, s.height - 1, "", [], node, s.clock);
  }

  lemma {:induction false} WalkHeight(cache: map<nat, Block>, mayMiss: bool, local: nat, hash: Hash,
          reverts: seq<Block>, node: Node, t: nat)
    ensures var w := Walk(cache, mayMiss, local, hash, reverts, node, t);
            w.Found? ==> w.height <= local || w.height == MAX_64
  {
    if local in cache && Disagree(cache[local], node(t, local + 1)) && 0 < local {
      WalkHeight(cache, mayMiss, local - 1, cache[local].hash, reverts + [cache[local]], node, t + 1);
    }
  }

  // ------------------------------------------------------------------ parent links

  ghost predicate HashesSet(node: Node) {
    forall t: nat, h: nat :: node(t, h).hash != ""
  }

  predicate Fits(st: Stack, b: Block) {
    st.blocks == [] || b.parentHash == st.blocks[|st.blocks| - 1].hash
  }

  lemma {:induction false} PublishLinks(cfg: Config, height: nat, cache: map<nat, Block>, prevHash: Hash,
          blocks: seq<Block>, st: Stack)
    requires st.Linked() && height == st.Next() && ConsecutiveFrom(blocks, height)
    requires forall i :: 0 <= i < |blocks| ==> blocks[i].hash != ""
    requires blocks != [] && (prevHash == "" || blocks[0].parentHash == prevHash) ==> Fits(st, blocks[0])
    ensures var p := Publish(cfg, height, cache, prevHash, blocks);
            WellFormed(st, p.events) && Replay(st, p.events).Linked()
    decreases |blocks|
  {
    if blocks != [] && !(prevHash != "" && blocks[0].parentHash != prevHash) {
      var b := blocks[0];
      var cache' := (cache - {Sub64(b.number, 2 * cfg.blocksSafe)})[b.number := b];
      var st' := Apply(st, Push(b));
      assert st'.Linked() by {
        forall i: nat ensures st'.LinkedAt(i) {
          assert st.LinkedAt(i);
        }
      }
      PublishLinks(cfg, height + 1, cache', b.hash, blocks[1..], st');
      var p := Publish(cfg, height, cache, prevHash, blocks);
      assert p.events[1..] == Publish(cfg, height + 1, cache', b.hash, blocks[1..]).events;
    }
  }

  lemma LinkedBelow(st: Stack, n: nat)
    requires st.Linked() && st.base <= n <= st.Next()
    ensures Below(st, n).Linked()
  {
    var st' := Below(st, n);
    forall i: nat ensures st'.LinkedAt(i) {
      assert st.LinkedAt(i);
    }
  }

  // Where an iteration starts publishing, and at which request.
  function PublishPoint(cfg: Config, node: Node, s: State, end: nat): (nat, nat) {
    if Walks(cfg, s, end) && WalkFrom(s, node).Found? then
      (WalkFrom(s, node).height + 1, WalkFrom(s, node).clock)
    else (s.height, s.clock)
  }

  // The iteration knows the hash beneath the first block it publishes: it walked and stopped on a cached block.
  predicate Checked(cfg: Config, node: Node, s: State, end: nat) {
    Walks(cfg, s, end) && WalkFrom(s, node).Found? && WalkFrom(s, node).height in s.cache
        && WalkFrom(s, node).hash != ""
  }

  // "if height long behind from current height, revert won't happen": an unchecked iteration is answered with a
  // block that extends the stack.
  ghost predicate Calm(cfg: Config, node: Node, s: State, end: nat, st: Stack) {
    var (from, t) := PublishPoint(cfg, node, s, end);
    st.base <= from <= st.Next() && (Checked(cfg, node, s, end) || Fits(Below(st, from), node(t, from)))
  }

  lemma BatchLinks(cfg: Config, node: Node, s: State, prevHash: Hash, end: nat, fetchErr: bool, st: Stack)
    requires st.Linked() && s.height == st.Next() && Numbered(node) && HashesSet(node)
    requires prevHash == "" || Fits(st, node(s.clock, s.height))
             || (st.blocks != [] && prevHash == st.blocks[|st.blocks| - 1].hash)
    requires prevHash == "" ==> Fits(st, node(s.clock, s.height))
    ensures var p := PublishBatch(cfg, node, s, prevHash, end, fetchErr);
            WellFormed(st, p.events) && Replay(st, p.events).Linked()
  {
    var count := BatchSize(cfg, s.height, end);
    var blocks := Fetched(node, s.clock, s.height, count);
    FetchedConsecutive(node, s.clock, s.height, count);
    assert count > 0 ==> blocks[0] == node(s.clock + 0, s.height + 0);
    PublishLinks(cfg, s.height, s.cache, prevHash, blocks, st);
  }

  // Publishing on top of a stack that the events sent so far have cut down to st'.
  lemma LinksAfterPops(cfg: Config, node: Node, s: State, pops: seq<Event>, prevHash: Hash, end: nat, fetchErr: bool,
          st: Stack, st': Stack)
    requires Numbered(node) && HashesSet(node) && st'.Linked()
    requires WellFormed(st, pops) && Replay(st, pops) == st' && s.height == st'.Next()
    requires Fits(st', node(s.clock, s.height))
             || (prevHash != "" && st'.blocks != [] && prevHash == st'.blocks[|st'.blocks| - 1].hash)
    ensures var events := pops + PublishBatch(cfg, node, s, prevHash, end, fetchErr).events;
            WellFormed(st, events) && Replay(st, events).Linked()
  {
    BatchLinks(cfg, node, s, prevHash, end, fetchErr, st');
    ReplayConcat(st, pops, PublishBatch(cfg, node, s, prevHash, end, fetchErr).events);
  }

  lemma TopOfBelow(st: Stack, n: nat)
    requires st.base < n <= st.Next()
    ensures Below(st, n).blocks != [] && Below(st, n).blocks[|Below(st, n).blocks| - 1] == st.At(n - 1)
  {
  }

  // The stack above which a walking iteration publishes, and why its first block is checked.
  lemma WalkedStack(win: nat, s: State, w: WalkResult, st: Stack, high: nat, floor: nat)
    requires Inv(win, s.height, s.cache, st, high, floor) && Stops(s, w, st) && Walked(win, s, w, st, high, floor)
    ensures AfterWalk(s, w).st.height == w.height + 1 && AfterWalk(s, w).st.clock == w.clock
    ensures WellFormed(st, AfterWalk(s, w).events) && Replay(st, AfterWalk(s, w).events) == Below(st, w.height + 1)
    ensures w.height in s.cache ==>
              var st' := Below(st, w.height + 1);
              st'.blocks != [] && st'.blocks[|st'.blocks| - 1].hash == w.hash
  {
    if w.height in s.cache {
      assert Entry(win, s.cache, st, high, floor, w.height);
      TopOfBelow(st, w.height + 1);
    }
  }

  lemma WalkingIteration(cfg: Config, node: Node, s: State, st: Stack, high: nat, floor: nat)
    requires 1 <= cfg.blocksSafe && GenesisAgreed(node, st)
    requires Inv(2 * cfg.blocksSafe, s.height, s.cache, st, high, floor)
    requires WalkFrom(s, node).Found?
    ensures var w := WalkFrom(s, node);
            var a := AfterWalk(s, w);
            && st.base <= w.height + 1 <= st.Next()
            && a.st.height == w.height + 1 && a.st.clock == w.clock
            && WellFormed(st, a.events) && Replay(st, a.events) == Below(st, w.height + 1)
            && (w.height in s.cache ==>
                  && Below(st, w.height + 1).blocks != []
                  && Below(st, w.height + 1).blocks[|Below(st, w.height + 1).blocks| - 1].hash == w.hash)
  {
    WalkFromStops(cfg, node, s, st, high, floor);
    AfterWalkKeeps(cfg, node, s, st, high, floor);
    WalkedStack(2 * cfg.blocksSafe, s, WalkFrom(s, node), st, high, floor);
  }

  lemma WalkingIterationLinks(cfg: Config, node: Node, s: State, end: nat, fetchErr: bool, st: Stack, high: nat,
          floor: nat)
    requires 1 <= cfg.blocksSafe && Numbered(node) && HashesSet(node) && GenesisAgreed(node, st)
    requires Inv(2 * cfg.blocksSafe, s.height, s.cache, st, high, floor) && st.Linked()
    requires Walks(cfg, s, end) && WalkFrom(s, node).Found? && Calm(cfg, node, s, end, st)
    ensures var w := WalkFrom(s, node);
            var a := AfterWalk(s, w);
            var events := a.events + PublishBatch(cfg, node, a.st, w.hash, end, fetchErr).events;
            WellFormed(st, events) && Replay(st, events).Linked()
  {
    var w := WalkFrom(s, node);
    WalkingIteration(cfg, node, s, st, high, floor);
    LinkedBelow(st, w.height + 1);
    var a := AfterWalk(s, w);
    LinksAfterPops(cfg, node, a.st, a.events, w.hash, end, fetchErr, st, Below(st, w.height + 1));
  }

  // Parent-linked publication, one iteration.
  lemma IterateLinks(cfg: Config, node: Node, s: State, end: nat, fetchErr: bool, st: Stack, high: nat, floor: nat)
    requires 1 <= cfg.blocksSafe && Numbered(node) && HashesSet(node) && GenesisAgreed(node, st)
    requires Inv(2 * cfg.blocksSafe, s.height, s.cache, st, high, floor)
    requires st.Linked() && Calm(cfg, node, s, end, st)
    ensures var r := Iterate(cfg, node, s, end, fetchErr);
            r.Alive? ==> WellFormed(st, r.events) && Replay(st, r.events).Linked()
  {
    if Walks(cfg, s, end) {
      if WalkFrom(s, node).Found? {
        WalkingIterationLinks(cfg, node, s, end, fetchErr, st, high, floor);
      }
    } else {
      assert Below(st, s.height) == st;
      BatchLinks(cfg, node, s, "", end, fetchErr, st);
    }
  }

  ghost predicate CalmTurn(cfg: Config, node: Node, s: State, end: nat, turn: Turn, st: Stack) {
    turn.Fetch? && s.height < end ==> Calm(cfg, node, s, end, st)
  }

  ghost predicate CalmRun(cfg: Config, node: Node, s: State, end: nat, turns: seq<Turn>, st: Stack)
    decreases |turns|
  {
    turns != [] ==>
      && CalmTurn(cfg, node, s, end, turns[0], st)
      && var r := TakeTurn(cfg, node, s, end, turns[0]);
         r.Alive? && WellFormed(st, r.events) ==>
           CalmRun(cfg, node, r.st, EndAfter(end, turns[0]), turns[1..], Replay(st, r.events))
  }

  lemma TurnLinks(cfg: Config, node: Node, s: State, end: nat, turn: Turn, st: Stack, high: nat, floor: nat)
    requires 1 <= cfg.blocksSafe && Numbered(node) && HashesSet(node) && GenesisAgreed(node, st)
    requires Inv(2 * cfg.blocksSafe, s.height, s.cache, st, high, floor)
    requires st.Linked() && CalmTurn(cfg, node, s, end, turn, st)
    ensures var r := TakeTurn(cfg, node, s, end, turn);
            r.Alive? ==> WellFormed(st, r.events) && Replay(st, r.events).Linked()
  {
    if turn.Fetch? && s.height < end {
      IterateLinks(cfg, node, s, end, turn.fetchErr, st, high, floor);
    }
  }

  // Parent-linked publication over every run in which unchecked iterations meet no revert.
  lemma {:induction false} RunLinks(cfg: Config, node: Node, s: State, end: nat, turns: seq<Turn>, st: Stack,
          high: nat, floor: nat)
    requires 1 <= cfg.blocksSafe && Numbered(node) && HashesSet(node) && GenesisAgreed(node, st)
    requires Inv(2 * cfg.blocksSafe, s.height, s.cache, st, high, floor) && TargetsFit(cfg, end, turns)
    requires st.Linked() && CalmRun(cfg, node, s, end, turns, st)
    ensures var r := Run(cfg, node, s, end, turns);
            r.Alive? ==> WellFormed(st, r.events) && Replay(st, r.events).Linked()
    decreases |turns|
  {
    if turns != [] {
      TurnKeeps(cfg, node, s, end, turns[0], st, high, floor);
      TurnLinks(cfg, node, s, end, turns[0], st, high, floor);
      var i := TakeTurn(cfg, node, s, end, turns[0]);
      if i.Alive? {
        RunLinks(cfg, node, i.st, EndAfter(end, turns[0]), turns[1..], Replay(st, i.events), High(high, i.events),
                 floor);
        var r := Run(cfg, node, i.st, EndAfter(end, turns[0]), turns[1..]);
        if r.Alive? {
          ReplayConcat(st, i.events, r.events);
        }
      }
    }
  }
}
