/** Catch-up handles every height once and in order; a caught-up task mirrors the feed. */
module AsyncTheorems {
  import opened Chain
  import opened Table
  import opened AsyncSpec
  import AsyncRows
  import Listing
  import Seqs

  // ------------------------------------------------------------------ blocks by height

  // Both the feed and the tables answer for a height with that number and with the same transfers, in whatever order:
  // the fetcher appends a block's transactions as its workers finish, the tables answer by transaction index. The
  // tables also leave out transactions the log filter drops.
  ghost predicate SameTransfers(feed: nat -> Block, at: nat -> Block) {
    forall h: nat :: SameAt(feed, at, h)
  }

  ghost predicate SameAt(feed: nat -> Block, at: nat -> Block, h: nat) {
    feed(h).number == h == at(h).number && Alike(feed(h), at(h))
  }

  // Two versions of a block: the transfers are the same, their order may differ.
  ghost predicate Alike(a: Block, b: Block) {
    a.number == b.number && multiset(Transfers(a)) == multiset(Transfers(b))
  }

  ghost predicate AllAlike(a: seq<Block>, b: seq<Block>) {
    |a| == |b| && forall i: nat :: AlikeAt(a, b, i)
  }

  ghost predicate AlikeAt(a: seq<Block>, b: seq<Block>, i: nat)
    requires |a| == |b|
  {
    i < |a| ==> Alike(a[i], b[i])
  }

  // The rows of the heights lo..hi, hi excluded.
  function RowsFor(feed: nat -> Block, lo: nat, hi: nat): Rows<Transfer> {
    Part(Transfers, Span(feed, lo, hi))
  }

  lemma {:induction false} PartConcat<T>(pick: Block -> seq<T>, a: seq<Block>, b: seq<Block>)
    ensures Part(pick, a + b) == Part(pick, a) + Part(pick, b)
    decreases |b|
  {
    if b == [] {
      assert a + b == a;
    } else {
      var last := b[|b| - 1];
      assert (a + b)[..|a + b| - 1] == a + b[..|b| - 1];
      PartConcat(pick, a, b[..|b| - 1]);
      hide RowsOf;
      assert Part(pick, a) + Part(pick, b[..|b| - 1]) + RowsOf(last.number, pick(last))
          == Part(pick, a) + (Part(pick, b[..|b| - 1]) + RowsOf(last.number, pick(last)));
    }
  }

  lemma RowsAlike<T>(num: nat, a: seq<T>, b: seq<T>)
    requires multiset(a) == multiset(b)
    ensures multiset(RowsOf(num, a)) == multiset(RowsOf(num, b))
  {
    var row := v => Row(num, Ok, v);
    assert RowsOf(num, a) == Seqs.Map(row, a) && RowsOf(num, b) == Seqs.Map(row, b);
    Seqs.MapPermutes(row, a, b);
  }

  lemma RowsOfAlike(a: Block, b: Block)
    requires Alike(a, b)
    ensures multiset(RowsOf(a.number, Transfers(a))) == multiset(RowsOf(b.number, Transfers(b)))
  {
    hide Transfers;
    RowsAlike(a.number, Transfers(a), Transfers(b));
  }

  lemma AlikeLess(a: seq<Block>, b: seq<Block>)
    requires AllAlike(a, b) && a != []
    ensures AllAlike(a[..|a| - 1], b[..|b| - 1]) && Alike(a[|a| - 1], b[|b| - 1])
  {
    var a', b' := a[..|a| - 1], b[..|b| - 1];
    hide Alike;
    forall i: nat ensures AlikeAt(a', b', i) {
      assert AlikeAt(a, b, i);
    }
    assert AlikeAt(a, b, |a| - 1);
  }

  lemma {:induction false} PartAlike(a: seq<Block>, b: seq<Block>)
    requires AllAlike(a, b)
    ensures multiset(Part(Transfers, a)) == multiset(Part(Transfers, b))
  {
    hide Transfers, RowsOf, Alike;
    if a != [] {
      AlikeLess(a, b);
      PartAlike(a[..|a| - 1], b[..|b| - 1]);
      RowsOfAlike(a[|a| - 1], b[|b| - 1]);
    }
  }

  // ------------------------------------------------------------------ the durable prefix

  // A revert-free run: the feed and the tables give the same transfers at every height, and all heights stay below
  // bound. Before the run the task had handled the heights up to origin, and rows0 were in its table.
  datatype World = World(cfg: Config, feed: nat -> Block, at: nat -> Block, bound: nat, origin: nat,
          rows0: Rows<Transfer>) {

    ghost predicate Valid() {
      && 1 <= cfg.bufferSize < TWO_64 && 1 <= cfg.batch && bound + cfg.batch + 2 < TWO_64
      && SameTransfers(feed, at)
    }

    // The new rows are those of the heights origin+1 .. number, each once and in order; each height as the feed or the
    // tables gave it.
    ghost predicate HandledTo(s: Store) {
      && origin <= s.number <= bound
      && exists blks :: Versions(blks, origin + 1, s.number + 1) && s.rows == rows0 + Part(Transfers, blks)
    }

    // What was written since: one row for each ERC-20 transfer log of the feed's blocks up to the number, and no other.
    ghost predicate OneRowEach(s: Store) {
      && rows0 <= s.rows
      && Listing.RowsOnce(s.rows[|rows0|..], Span(feed, origin + 1, s.number + 1), AsyncRows.HasTransfer)
    }

    // One block for each of the heights lo..hi, hi excluded, from the feed or from the tables.
    ghost predicate Versions(blks: seq<Block>, lo: nat, hi: nat)
    {
      |blks| == (if lo <= hi then hi - lo else 0) && forall i: nat :: VersionAt(blks, lo, i)
    }

    ghost predicate VersionAt(blks: seq<Block>, lo: nat, i: nat) {
      i < |blks| ==> blks[i] == feed(lo + i) || blks[i] == at(lo + i)
    }
  }

  lemma VersionsOfSpan(w: World, lo: nat, hi: nat)
    ensures w.Versions(Span(w.feed, lo, hi), lo, hi) && w.Versions(Span(w.at, lo, hi), lo, hi)
  {
  }

  lemma VersionsTake(w: World, blks: seq<Block>, lo: nat, hi: nat, m: nat)
    requires w.Valid() && w.Versions(blks, lo, hi) && lo + m <= hi
    ensures |blks| == hi - lo && w.Versions(blks[..m], lo, lo + m)
    ensures 0 < m ==> blks[m - 1].number == lo + m - 1
  {
    forall i: nat ensures w.VersionAt(blks[..m], lo, i) {
      assert w.VersionAt(blks, lo, i);
    }
    if 0 < m {
      assert w.VersionAt(blks, lo, m - 1) && SameAt(w.feed, w.at, lo + m - 1);
    }
  }

  lemma VersionsConcat(w: World, a: seq<Block>, b: seq<Block>, lo: nat, mid: nat, hi: nat)
    requires w.Versions(a, lo, mid) && w.Versions(b, mid, hi) && lo <= mid <= hi
    ensures w.Versions(a + b, lo, hi)
  {
    forall i: nat ensures w.VersionAt(a + b, lo, i) {
      assert w.VersionAt(a, lo, i);
      assert i >= |a| ==> w.VersionAt(b, mid, i - |a|);
    }
  }

  lemma VersionsAlike(w: World, blks: seq<Block>, lo: nat, hi: nat)
    requires w.Valid() && w.Versions(blks, lo, hi)
    ensures AllAlike(blks, Span(w.feed, lo, hi))
  {
    var feed := Span(w.feed, lo, hi);
    forall i: nat ensures AlikeAt(blks, feed, i) {
      assert w.VersionAt(blks, lo, i) && SameAt(w.feed, w.at, lo + i);
    }
  }

  // Nothing but the rows of the heights handled was written, and each transfer once.
  lemma HandledOnce(w: World, s: Store)
    requires w.Valid() && w.HandledTo(s)
    ensures multiset(s.rows) == multiset(w.rows0) + multiset(RowsFor(w.feed, w.origin + 1, s.number + 1))
    ensures w.OneRowEach(s)
  {
    var blks :| w.Versions(blks, w.origin + 1, s.number + 1) && s.rows == w.rows0 + Part(Transfers, blks);
    VersionsAlike(w, blks, w.origin + 1, s.number + 1);
    PartAlike(blks, Span(w.feed, w.origin + 1, s.number + 1));
    assert s.rows[|w.rows0|..] == Part(Transfers, blks);
    AsyncRows.TransferRowsOnce(Part(Transfers, blks), Span(w.feed, w.origin + 1, s.number + 1));
  }

  // Saving the next heights, all of them or only the chunks of the first m, extends the prefix.
  lemma SaveExtends(w: World, s: Store, blks: seq<Block>, hi: nat, m: nat)
    requires w.Valid() && w.HandledTo(s) && s.number < hi <= w.bound + 1 && m < hi - s.number
    requires w.Versions(blks, s.number + 1, hi)
    ensures m <= |blks| && w.HandledTo(Saved(s, blks[..m])) && Saved(s, blks[..m]).number == s.number + m
  {
    hide Part, World.Versions;
    var lo := s.number + 1;
    VersionsTake(w, blks, lo, hi, m);
    var done :| w.Versions(done, w.origin + 1, lo) && s.rows == w.rows0 + Part(Transfers, done);
    VersionsConcat(w, done, blks[..m], w.origin + 1, lo, lo + m);
    PartConcat(Transfers, done, blks[..m]);
    assert w.rows0 + Part(Transfers, done) + Part(Transfers, blks[..m])
        == w.rows0 + (Part(Transfers, done) + Part(Transfers, blks[..m]));
    if m == 0 {
      assert blks[..m] == [];
    }
  }

  // ------------------------------------------------------------------ the catch-up invariant

  // While behind, the cache is the newest stretch of the feed, and what precedes it is stored or handled.
  ghost predicate Buffered(w: World, a: Task, stored: nat) {
    && |a.cache| <= w.cfg.bufferSize && |a.cache| <= a.latest
    && a.cache == Span(w.feed, a.latest + 1 - |a.cache|, a.latest + 1)
    && (a.latest <= stored + |a.cache| || a.latest <= a.cur + |a.cache|)
  }

  // first: nothing has been received since the start.
  ghost predicate Inv(w: World, a: Task, stored: nat, first: bool) {
    && w.HandledTo(a.store) && a.store.number == a.cur
    && a.tokens <= TOKENS && (a.tokens > 0 ==> Behind(a))
    && (first ==> a.latest == 0 && a.cache == [])
    && (Behind(a) ==> Buffered(w, a, stored))
    && a.latest <= stored + w.cfg.bufferSize && a.latest <= w.bound && stored <= w.bound
  }

  // What the feed delivers: first any block whose predecessors are stored, then one after the other, none of
  // them more than bufferSize above the stored blocks.
  predicate Fits(w: World, a: Task, stored: nat, first: bool, b: Block) {
    && b == w.feed(b.number) && 1 <= b.number <= w.bound
    && (if first then b.number <= stored + 1 else b.number == a.latest + 1)
    && b.number <= stored + w.cfg.bufferSize
  }

  // What a step leaves: a durable prefix, and the invariant if the task goes on.
  ghost predicate Keeps(w: World, r: Reached, stored: nat, first: bool) {
    w.HandledTo(Durable(r)) && (r.Alive? ==> Inv(w, r.task, stored, first))
  }

  lemma HandleKeeps(w: World, a: Task, blks: seq<Block>, hi: nat, fate: Fate)
    requires w.Valid() && w.HandledTo(a.store) && a.store.number == a.cur < hi - 1 <= w.bound
    requires w.Versions(blks, a.cur + 1, hi)
    ensures var r := HandleBlocks(a, blks, fate);
            && w.HandledTo(Durable(r))
            && (r.Alive? ==> r.task == a.(store := r.task.store, cur := hi - 1) && r.task.store.number == hi - 1)
            && (r.Alive? || r.Dead?)
  {
    hide Saved, Part, World.Versions, World.HandledTo;
    VersionsTake(w, blks, a.cur + 1, hi, hi - 1 - a.cur);
    if fate.Dies? {
      SaveExtends(w, a.store, blks, hi, if fate.m < |blks| then fate.m else |blks|);
    } else {
      SaveExtends(w, a.store, blks, hi, |blks|);
      assert blks[..|blks|] == blks;
    }
  }

  // ------------------------------------------------------------------ messages

  lemma CacheKeeps(w: World, a: Task, stored: nat, first: bool, b: Block)
    requires w.Valid() && a.cur + 1 < b.number && Fits(w, a, stored, first, b)
    requires if first then a.cache == [] else Buffered(w, a, stored)
    ensures Buffered(w, a.(latest := b.number, cache := AddToCache(a.cache, w.cfg.bufferSize, b)), stored)
  {
    hide World.HandledTo;
    var cache' := AddToCache(a.cache, w.cfg.bufferSize, b);
    assert cache' == Span(w.feed, b.number + 1 - |cache'|, b.number + 1);
  }

  lemma ReceiveKeeps(w: World, a: Task, d: Delivery, stored: nat, first: bool)
    requires w.Valid() && Inv(w, a, stored, first) && d.event.Push? && Fits(w, a, stored, first, d.event.blk)
    ensures var r := Receive(w.cfg, a, d);
            && Keeps(w, r, stored, false)
            && (r.Alive? ==> r.task.latest == d.event.blk.number)
            && (Behind(a) ==> r.Alive? && Behind(r.task) && r.task.tokens == a.tokens && r.task.cur == a.cur)
  {
    hide Saved, Span, Add64, Sub64;
    var b := d.event.blk;
    Add64Fits(a.cur, 1);
    assert SameAt(w.feed, w.at, b.number);
    if a.cur + 1 == b.number {
      assert w.Versions([b], a.cur + 1, a.cur + 2) by {
        assert [b] == Span(w.feed, a.cur + 1, a.cur + 2);
        VersionsOfSpan(w, a.cur + 1, a.cur + 2);
      }
      HandleKeeps(w, a.(latest := b.number), [b], a.cur + 2, d.fate);
    } else if a.cur + 1 < b.number {
      CacheKeeps(w, a, stored, first, b);
    }
  }

  predicate AllFit(w: World, a: Task, stored: nat, first: bool, ds: seq<Delivery>) {
    forall i {:trigger ds[i]} :: 0 <= i < |ds| ==>
      && ds[i].event.Push?
      && Fits(w, if i == 0 then a else a.(latest := ds[i - 1].event.blk.number), stored, first && i == 0,
              ds[i].event.blk)
  }

  lemma {:induction false} ReceiveAllKeeps(w: World, a: Task, ds: seq<Delivery>, stored: nat, first: bool)
    requires w.Valid() && Inv(w, a, stored, first) && AllFit(w, a, stored, first, ds)
    ensures var r := ReceiveAll(w.cfg, a, ds);
            && Keeps(w, r, stored, first && ds == [])
            && (Behind(a) ==> r.Alive? && Behind(r.task) && r.task.tokens == a.tokens && r.task.cur == a.cur)
    decreases |ds|
  {
    assert w.HandledTo(a.store);
    hide Inv, Behind, Receive;
    if ds != [] {
      assert Fits(w, a, stored, first, ds[0].event.blk);
      ReceiveKeeps(w, a, ds[0], stored, first);
      var r := Receive(w.cfg, a, ds[0]);
      if r.Alive? {
        assert AllFit(w, r.task, stored, false, ds[1..]) by {
          var ds' := ds[1..];
          forall i | 0 <= i < |ds'|
            ensures ds'[i].event.Push?
            ensures Fits(w, if i == 0 then r.task else r.task.(latest := ds'[i - 1].event.blk.number), stored, false,
                         ds'[i].event.blk)
          {
            assert ds'[i] == ds[i + 1];
          }
        }
        ReceiveAllKeeps(w, r.task, ds[1..], stored, false);
      }
    }
  }

  // ------------------------------------------------------------------ catching up

  // The cache of a task that is behind holds every height from its front on.
  lemma {:induction false} ScanFinds(w: World, cache: seq<Block>, lo: nat, hi: nat, height: nat)
    requires w.Valid() && lo <= height < hi && cache == Span(w.feed, lo, hi)
    ensures Scan(cache, height) == Lookup([w.feed(height)], Span(w.feed, height + 1, hi))
    decreases hi - lo
  {
    assert SameAt(w.feed, w.at, lo);
    assert cache[1..] == Span(w.feed, lo + 1, hi);
    if lo < height {
      ScanFinds(w, cache[1..], lo + 1, hi, height);
    }
  }

  // What a successful read of a catch-up round finds: the next heights, from the tables or the next one from the cache.
  ghost predicate Found(w: World, a: Task, r: Read, stored: nat, hi: nat) {
    && !r.err && a.cur + 1 < hi <= w.bound + 1 && w.Versions(r.blks, a.cur + 1, hi)
    && (hi - 1 < a.latest ==> Buffered(w, a.(cache := r.cache, cur := hi - 1), stored))
  }

  // The tables and the cache together hold the next height, unless the height is too low for the subtraction that
  // picks between them and the block is not stored yet.
  predicate Covered(w: World, a: Task, stored: nat) {
    w.cfg.bufferSize <= a.latest || a.cur < stored
  }

  lemma ReadFromRange(w: World, a: Task, stored: nat)
    requires w.Valid() && Inv(w, a, stored, false) && Behind(a) && a.cur < stored
    ensures var hi := if a.cur + w.cfg.batch <= stored then a.cur + w.cfg.batch + 1 else stored + 1;
            Found(w, a, Read(ReadRange(Db(w.at, stored), a.cur + 1, a.cur + w.cfg.batch), a.cache, false), stored, hi)
  {
    var hi := if a.cur + w.cfg.batch <= stored then a.cur + w.cfg.batch + 1 else stored + 1;
    assert ReadRange(Db(w.at, stored), a.cur + 1, a.cur + w.cfg.batch) == Span(w.at, a.cur + 1, hi);
    VersionsOfSpan(w, a.cur + 1, hi);
  }

  // The next height is in the cache.
  lemma NearCached(w: World, a: Task, stored: nat)
    requires w.Valid() && Inv(w, a, stored, false) && Behind(a)
    requires a.cache != [] && a.latest < a.cur + 1 + |a.cache|
    ensures var l := FromCache(a.cache, a.cur + 1);
            l.found != [] && Found(w, a, Read(l.found, l.rest, false), stored, a.cur + 2)
  {
    hide World.HandledTo, World.Versions;
    var lo, start := a.latest + 1 - |a.cache|, a.cur + 1;
    assert SameAt(w.feed, w.at, lo);
    ScanFinds(w, a.cache, lo, a.latest + 1, start);
    var l := FromCache(a.cache, start);
    assert l.found == Span(w.feed, start, start + 1);
    VersionsOfSpan(w, start, start + 1);
    assert Buffered(w, a.(cache := l.rest, cur := start), stored) || a.latest == start;
  }

  // The next height is older than the cache, and then it is stored.
  lemma NearStored(w: World, a: Task, stored: nat)
    requires w.Valid() && Inv(w, a, stored, false) && Behind(a)
    requires a.cache == [] || a.cur + 1 + |a.cache| <= a.latest
    ensures FromCache(a.cache, a.cur + 1) == Lookup([], a.cache) && a.cur + 1 <= stored
    ensures Found(w, a, Read([w.at(a.cur + 1)], a.cache, false), stored, a.cur + 2)
  {
    hide World.HandledTo, World.Versions, Transfers;
    assert SameAt(w.feed, w.at, a.latest + 1 - |a.cache|);
    assert [w.at(a.cur + 1)] == Span(w.at, a.cur + 1, a.cur + 2);
    VersionsOfSpan(w, a.cur + 1, a.cur + 2);
  }

  // Which way the comparison of the heights goes; below bufferSize the subtraction wraps around.
  lemma FarOrNear(w: World, a: Task)
    requires w.Valid() && Behind(a) && a.latest <= w.bound
    ensures a.cur < Sub64(a.latest, w.cfg.bufferSize)
            <==> a.latest < w.cfg.bufferSize || a.cur + w.cfg.bufferSize < a.latest
    ensures Add64(a.cur, 1) == a.cur + 1 && Sub64(Add64(a.cur + 1, w.cfg.batch), 1) == a.cur + w.cfg.batch
  {
    Add64Fits(a.cur, 1);
    Add64Fits(a.cur + 1, w.cfg.batch);
  }

  lemma ReadFinds(w: World, a: Task, stored: nat, err: bool) returns (hi: nat)
    requires w.Valid() && Inv(w, a, stored, false) && Behind(a) && Covered(w, a, stored)
    ensures var r := ReadNext(w.cfg, a, Db(w.at, stored), err);
            if r.err then r.cache == a.cache else Found(w, a, r, stored, hi)
    ensures !err ==> !ReadNext(w.cfg, a, Db(w.at, stored), err).err
  {
    hide Add64, Sub64, Span, FromCache, Found, ReadRange;
    FarOrNear(w, a);
    if a.cur < Sub64(a.latest, w.cfg.bufferSize) {
      ReadFromRange(w, a, stored);
      hi := if a.cur + w.cfg.batch <= stored then a.cur + w.cfg.batch + 1 else stored + 1;
    } else {
      if a.cache != [] && a.latest < a.cur + 1 + |a.cache| {
        NearCached(w, a, stored);
      } else {
        NearStored(w, a, stored);
      }
      hi := a.cur + 2;
    }
  }

  // A catch-up round handles the next heights; it never skips one.
  lemma CatchUpKeeps(w: World, a: Task, stored: nat, err: bool, fate: Fate)
    requires w.Valid() && Inv(w, a, stored, false) && Behind(a) && Covered(w, a, stored)
    ensures var r := CatchUp(w.cfg, a.(tokens := 0), Db(w.at, stored), err, fate);
            Keeps(w, r, stored, false) && (!err && r.Alive? ==> a.cur < r.task.cur)
  {
    hide Span, FromCache, ReadNext, Saved, World.Versions, World.HandledTo;
    var a0 := a.(tokens := 0);
    var hi := ReadFinds(w, a0, stored, err);
    var r := ReadNext(w.cfg, a0, Db(w.at, stored), err);
    if !r.err {
      assert r.blks != [] by {
        VersionsTake(w, r.blks, a.cur + 1, hi, 0);
      }
      HandleKeeps(w, a0.(cache := r.cache), r.blks, hi, fate);
    }
  }

  // A round without errors keeps the invariant if and only if the next height is covered. If it is not, the round
  // skips a whole batch of heights without writing anything, even when the next block is waiting in the cache.
  lemma SkipsIff(w: World, a: Task, stored: nat)
    requires w.Valid() && Inv(w, a, stored, false) && Behind(a)
    ensures var r := CatchUp(w.cfg, a.(tokens := 0), Db(w.at, stored), false, Lives);
            && (Keeps(w, r, stored, false) <==> Covered(w, a, stored))
            && (!Covered(w, a, stored) ==> r == Reached.Alive(a.(tokens := 0, cur := a.cur + w.cfg.batch)))
  {
    if Covered(w, a, stored) {
      CatchUpKeeps(w, a, stored, false, Lives);
    } else {
      hide Add64, Sub64, FromCache;
      FarOrNear(w, a);
      assert !Keeps(w, Reached.Alive(a.(tokens := 0, cur := a.cur + w.cfg.batch)), stored, false);
      assert ReadRange(Db(w.at, stored), a.cur + 1, a.cur + w.cfg.batch) == [];
    }
  }

  // ------------------------------------------------------------------ whole runs

  predicate StepFits(w: World, a: Task, stored: nat, first: bool, step: Step) {
    match step
    case Restart => true
    case Round(round, stored') =>
      && stored <= stored' <= w.bound
      && match round
         case Messages(ds) => AllFit(w, if Behind(a) then a.(tokens := a.tokens + 1) else a, stored', first, ds)
         case Compensate(_, _) => Behind(a) ==> Covered(w, a, stored')
  }

  // Whether nothing has been received since the last start, after the step.
  predicate FirstAfter(first: bool, step: Step) {
    match step
    case Restart => true
    case Round(round, _) => first && (round.Messages? ==> round.ds == [])
  }

  function StoredAfter(stored: nat, step: Step): nat {
    if step.Restart? then stored else step.stored
  }

  lemma InvGrows(w: World, a: Task, stored: nat, stored': nat, first: bool)
    requires Inv(w, a, stored, first) && stored <= stored' <= w.bound
    ensures Inv(w, a, stored', first)
  {
  }

  lemma TurnKeeps(w: World, a: Task, round: AsyncSpec.Round, stored: nat, stored': nat, first: bool)
    requires w.Valid() && Inv(w, a, stored, first) && StepFits(w, a, stored, first, Step.Round(round, stored'))
    ensures Keeps(w, Turn(w.cfg, a, Db(w.at, stored'), round), stored', FirstAfter(first, Step.Round(round, stored')))
  {
    hide Span, Buffered, CatchUp, ReceiveAll, AllFit, Covered;
    InvGrows(w, a, stored, stored', first);
    var a' := if Behind(a) then a.(tokens := a.tokens + 1) else a;
    if !(w.cfg.endNumber != 0 && a.cur >= w.cfg.endNumber) && !(Behind(a) && a.tokens == TOKENS) {
      if Behind(a) {
        InvToken(w, a, stored', first);
      }
      match round
      case Messages(ds) => ReceiveAllKeeps(w, a', ds, stored', first);
      case Compensate(err, fate) =>
        if a'.tokens != 0 {
          CoveredTokens(w, a, a', stored');
          CatchUpKeeps(w, a', stored', err, fate);
        }
    }
  }

  lemma InvToken(w: World, a: Task, stored: nat, first: bool)
    requires Inv(w, a, stored, first) && Behind(a) && a.tokens < TOKENS
    ensures Inv(w, a.(tokens := a.tokens + 1), stored, first)
  {
  }

  lemma CoveredTokens(w: World, a: Task, a': Task, stored: nat)
    requires a' == a.(tokens := a'.tokens) && Covered(w, a, stored)
    ensures Covered(w, a', stored)
  {
  }

  lemma RestartKeeps(w: World, s: Store, stored: nat)
    requires w.HandledTo(s) && stored <= w.bound
    ensures Keeps(w, Reached.Alive(Fresh(s)), stored, FirstAfter(true, Restart))
  {
  }

  ghost predicate RunFits(w: World, r: Reached, stored: nat, first: bool, steps: seq<Step>)
    requires w.Valid()
    decreases |steps|
  {
    steps == []
    || ((r.Alive? ==> StepFits(w, r.task, stored, first, steps[0]))
        && (steps[0].Round? ==> stored <= steps[0].stored <= w.bound)
        && RunFits(w, Next(w.cfg, r, w.at, steps[0]), StoredAfter(stored, steps[0]), FirstAfter(first, steps[0]),
                   steps[1..]))
  }

  lemma {:induction false} RunKeeps(w: World, r: Reached, stored: nat, first: bool, steps: seq<Step>)
    requires w.Valid() && Keeps(w, r, stored, first) && stored <= w.bound && RunFits(w, r, stored, first, steps)
    ensures var r' := Run(w.cfg, r, w.at, steps);
            w.HandledTo(Durable(r')) && (r'.Alive? ==> r'.task.cur == r'.task.store.number)
    decreases |steps|
  {
    assert r.Alive? ==> r.task.cur == r.task.store.number;
    hide Turn, StepFits, World.HandledTo, Fresh, Inv;
    if steps != [] {
      if steps[0].Round? && r.Alive? {
        TurnKeeps(w, r.task, steps[0].round, stored, steps[0].stored, first);
      } else if steps[0].Restart? {
        RestartKeeps(w, Durable(r), stored);
      }
      RunKeeps(w, Next(w.cfg, r, w.at, steps[0]), StoredAfter(stored, steps[0]), FirstAfter(first, steps[0]),
               steps[1..]);
    }
  }

  // Catch-up without gaps. Whatever the interleaving of messages, catch-up rounds, failed reads, saves cut short
  // and restarts: the rows and the task's number always describe the same heights origin+1 .. number, in order, and
  // every transfer of those heights has exactly one row.
  lemma RunHandlesAll(w: World, r: Reached, stored: nat, first: bool, steps: seq<Step>)
    requires w.Valid() && Keeps(w, r, stored, first) && stored <= w.bound && RunFits(w, r, stored, first, steps)
    ensures var s := Durable(Run(w.cfg, r, w.at, steps));
            && w.HandledTo(s)
            && multiset(s.rows) == multiset(w.rows0) + multiset(RowsFor(w.feed, w.origin + 1, s.number + 1))
            && w.OneRowEach(s)
    ensures var r' := Run(w.cfg, r, w.at, steps); r'.Alive? ==> r'.task.cur == r'.task.store.number
  {
    hide World.HandledTo, World.OneRowEach, RowsFor, Run, RunFits, Keeps, Durable;
    RunKeeps(w, r, stored, first, steps);
    HandledOnce(w, Durable(Run(w.cfg, r, w.at, steps)));
  }

  // Error-free catch-up rounds bring a task that is behind up to the latest block.
  lemma {:induction false} CatchesUp(w: World, a: Task, stored: nat, n: nat)
    requires w.Valid() && Inv(w, a, stored, false) && a.tokens == 0 && (Behind(a) ==> w.cfg.bufferSize <= a.latest)
    requires a.latest <= a.cur + n && w.cfg.endNumber == 0
    ensures var r := Run(w.cfg, Reached.Alive(a), w.at, seq(n, _ => Step.Round(Compensate(false, Lives), stored)));
            r.Alive? && a.latest <= r.task.cur && Inv(w, r.task, stored, false)
    decreases n
  {
    hide Inv, Span;
    if n != 0 {
      var steps := seq(n, _ => Step.Round(Compensate(false, Lives), stored));
      assert steps[1..] == seq(n - 1, _ => Step.Round(Compensate(false, Lives), stored));
      if Behind(a) {
        RoundCatchesUp(w, a, stored);
        CatchesUp(w, Turn(w.cfg, a, Db(w.at, stored), Compensate(false, Lives)).task, stored, n - 1);
      } else {
        CatchesUp(w, a, stored, n - 1);
      }
    }
  }

  lemma RoundCatchesUp(w: World, a: Task, stored: nat)
    requires w.Valid() && Inv(w, a, stored, false) && a.tokens == 0 && Behind(a) && w.cfg.bufferSize <= a.latest
    requires w.cfg.endNumber == 0
    ensures var r := Turn(w.cfg, a, Db(w.at, stored), Compensate(false, Lives));
            && r.Alive? && Inv(w, r.task, stored, false) && a.cur < r.task.cur
            && r.task.tokens == 0 && r.task.latest == a.latest
  {
    InvToken(w, a, stored, false);
    var a' := a.(tokens := 1);
    CatchUpKeeps(w, a', stored, false, Lives);
    hide Inv, Span, FromCache, ReadNext;
    assert a'.(tokens := 0) == a;
    var hi := ReadFinds(w, a, stored, false);
  }

  // ------------------------------------------------------------------ the catch-up channel

  // Ten rounds in a row that read messages while the task is behind fill the catch-up channel, and the next round
  // then waits for ever: the loop is the channel's only reader.
  lemma {:induction false} MessageRoundsWedge(w: World, a: Task, stored: nat, steps: seq<Step>)
    requires w.Valid() && Inv(w, a, stored, false) && Behind(a) && w.cfg.endNumber == 0
    requires forall i {:trigger steps[i]} :: 0 <= i < |steps| ==> steps[i].Round? && steps[i].round.Messages?
    requires RunFits(w, Reached.Alive(a), stored, false, steps)
    ensures Run(w.cfg, Reached.Alive(a), w.at, steps).Wedged? <==> TOKENS < a.tokens + |steps|
    decreases |steps|
  {
    hide Inv, Span, AllFit, ReceiveAll;
    if steps != [] {
      if a.tokens == TOKENS {
        StaysWedged(w, a.store, steps[1..]);
      } else {
        var a' := a.(tokens := a.tokens + 1);
        InvGrows(w, a, stored, steps[0].stored, false);
        InvToken(w, a, steps[0].stored, false);
        ReceiveAllKeeps(w, a', steps[0].round.ds, steps[0].stored, false);
        var r := ReceiveAll(w.cfg, a', steps[0].round.ds);
        MessageRoundsWedge(w, r.task, steps[0].stored, steps[1..]);
      }
    } else {
      assert a.tokens <= TOKENS by {
        TokensBounded(w, a, stored);
      }
    }
  }

  lemma TokensBounded(w: World, a: Task, stored: nat)
    requires Inv(w, a, stored, false)
    ensures a.tokens <= TOKENS
  {
  }

  lemma {:induction false} StaysWedged(w: World, s: Store, steps: seq<Step>)
    requires w.Valid() && forall i {:trigger steps[i]} :: 0 <= i < |steps| ==> steps[i].Round?
    ensures Run(w.cfg, Reached.Wedged(s), w.at, steps) == Reached.Wedged(s)
    decreases |steps|
  {
    if steps != [] {
      StaysWedged(w, s, steps[1..]);
    }
  }
}
