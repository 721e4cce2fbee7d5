/** How deep a revert of the fetcher can reach. */
module FetchDepth {
  import opened Chain
  import opened FetchSpec
  import opened FetchProofs

  // No revert of the feed takes back a block more than w below the highest block, which is high at first.
  predicate Reach(w: nat, high: nat, feed: seq<Event>)
    decreases |feed|
  {
    feed == [] || ((feed[0].Pop? ==> high <= feed[0].blk.number + w) && Reach(w, High(high, [feed[0]]), feed[1..]))
  }

  lemma {:induction false} ReachConcat(w: nat, high: nat, a: seq<Event>, b: seq<Event>)
    requires Reach(w, high, a) && Reach(w, High(high, a), b)
    ensures Reach(w, high, a + b)
    decreases |a|
  {
    if a == [] {
      assert a + b == b;
    } else {
      assert (a + b)[0] == a[0] && (a + b)[1..] == a[1..] + b;
      assert [a[0]] + a[1..] == a;
      HighConcat(high, [a[0]], a[1..]);
      ReachConcat(w, High(high, [a[0]]), a[1..], b);
    }
  }

  lemma {:induction false} PushesReach(w: nat, high: nat, feed: seq<Event>)
    requires forall i :: 0 <= i < |feed| ==> feed[i].Push?
    ensures Reach(w, high, feed)
    decreases |feed|
  {
    if feed != [] {
      PushesReach(w, High(high, [feed[0]]), feed[1..]);
    }
  }

  lemma {:induction false} PopsReach(w: nat, high: nat, revs: seq<Block>)
    requires forall i {:trigger revs[i]} :: 0 <= i < |revs| ==> high <= revs[i].number + w
    ensures Reach(w, high, Pops(revs))
    decreases |revs|
  {
    if revs != [] {
      var pops := Pops(revs);
      assert pops[1..] == Pops(revs[1..]);
      assert pops[0] == Pop(revs[0]);
      assert High(high, [pops[0]]) == High(high, []) == high;
      PopsReach(w, high, revs[1..]);
    }
  }

  // A block the walk takes back is cached, and no cached block above the floor is w below the highest; the floor itself
  // is taken back only while it is in reach.
  lemma WalkReach(w: nat, s: State, r: WalkResult, st: Stack, high: nat, floor: nat)
    requires 1 <= w && Inv(w, s.height, s.cache, st, high, floor) && Stops(s, r, st)
    ensures Reach(w, high, Pops(r.reverts))
  {
    forall i | 0 <= i < |r.reverts| ensures high <= r.reverts[i].number + w {
      var k := s.height - 1 - i;
      assert IsAt(st, r.reverts[i], k);
      assert st.NumberedAt(k - st.base);
      assert Entry(w, s.cache, st, high, floor, k);
      assert Entry(w, s.cache, st, high, floor, k + 1);
    }
    PopsReach(w, high, r.reverts);
  }

  lemma BatchReach(cfg: Config, node: Node, s: State, prevHash: Hash, end: nat, fetchErr: bool, w: nat, high: nat)
    ensures var r := PublishBatch(cfg, node, s, prevHash, end, fetchErr); r.Alive? && Reach(w, high, r.events)
  {
    PublishPushes(cfg, s.height, s.cache, prevHash, Fetched(node, s.clock, s.height, BatchSize(cfg, s.height, end)));
    PushesReach(w, high, PublishBatch(cfg, node, s, prevHash, end, fetchErr).events);
  }

  lemma TurnReach(cfg: Config, node: Node, s: State, end: nat, turn: Turn, st: Stack, high: nat, floor: nat)
    requires 1 <= cfg.blocksSafe && GenesisAgreed(node, st)
    requires Inv(2 * cfg.blocksSafe, s.height, s.cache, st, high, floor)
    ensures var r := TakeTurn(cfg, node, s, end, turn); r.Alive? ==> Reach(2 * cfg.blocksSafe, high, r.events)
  {
    hide Inv, Reach, WalkFrom, PublishBatch;
    var w := 2 * cfg.blocksSafe;
    if turn.Fetch? && s.height < end {
      if Walks(cfg, s, end) {
        var r := WalkFrom(s, node);
        if r.Found? {
          WalkFromStops(cfg, node, s, st, high, floor);
          WalkReach(w, s, r, st, high, floor);
          StopsWalked(w, s, r, st, high, floor);
          var a := AfterWalk(s, r);
          BatchReach(cfg, node, a.st, r.hash, end, turn.fetchErr, w, high);
          ReachConcat(w, high, a.events, PublishBatch(cfg, node, a.st, r.hash, end, turn.fetchErr).events);
        }
      } else {
        BatchReach(cfg, node, s, "", end, turn.fetchErr, w, high);
      }
    } else {
      PushesReach(w, high, []);
    }
  }

  // Over every run no revert takes back a block more than 2 * BlocksSafe below the highest block ever published.
  lemma {:induction false} RunReach(cfg: Config, node: Node, s: State, end: nat, turns: seq<Turn>, st: Stack, high: nat,
          floor: nat)
    requires 1 <= cfg.blocksSafe && Numbered(node) && GenesisAgreed(node, st)
    requires Inv(2 * cfg.blocksSafe, s.height, s.cache, st, high, floor) && TargetsFit(cfg, end, turns)
    ensures var r := Run(cfg, node, s, end, turns); r.Alive? ==> Reach(2 * cfg.blocksSafe, high, r.events)
    decreases |turns|
  {
    hide Inv, TakeTurn;
    if turns != [] {
      TurnKeeps(cfg, node, s, end, turns[0], st, high, floor);
      TurnReach(cfg, node, s, end, turns[0], st, high, floor);
      var i := TakeTurn(cfg, node, s, end, turns[0]);
      if i.Alive? {
        RunReach(cfg, node, i.st, EndAfter(end, turns[0]), turns[1..], Replay(st, i.events), High(high, i.events),
                 floor);
        var r := Run(cfg, node, i.st, EndAfter(end, turns[0]), turns[1..]);
        if r.Alive? {
          ReachConcat(2 * cfg.blocksSafe, high, i.events, r.events);
        }
      }
    }
  }
}
