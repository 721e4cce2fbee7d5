/** The balance task's cache, and the refresh of the balances a batch of blocks touches. */
module Balance {
  import opened Chain
  import opened BalanceSpec

  // Every cached height is the height of the key's row.
  ghost predicate Agrees(cache: map<Key, nat>, db: Db) {
    forall k {:trigger k in cache} :: k in cache ==> k in db && cache[k] == db[k].height
  }

  // The same, except for keys that the given rows are still to be recorded for.
  ghost predicate AgreesBut(cache: map<Key, nat>, db: Db, rows: seq<Refresh>) {
    forall k {:trigger k in cache} :: k in cache ==> k in db && (cache[k] == db[k].height || Names(rows, k))
  }

  // cache' is the cache after k was added with height h: other entries may have been evicted.
  predicate Added(cache: map<Key, nat>, k: Key, h: nat, cache': map<Key, nat>) {
    k in cache' && cache'[k] == h && forall j {:trigger j in cache'} :: j in cache' && j != k ==>
        j in cache && cache'[j] == cache[j]
  }

  datatype Found = Miss | Hit(height: nat)

  // A bounded cache of heights behind a filter that says which keys may be in the table.
  class CacheFilter {
    const size: nat
    var cache: map<Key, nat>
    var filter: set<Key>
    // The filter's false positives. An empty filter has none.
    const mistaken: (nat, Key) -> bool
    var clock: nat

    ghost predicate Valid(db: Db)
      reads this
    {
      1 <= size && |cache| <= size && Agrees(cache, db)
    }

    constructor (size: nat, mistaken: (nat, Key) -> bool)
      requires 1 <= size
      ensures Valid(map[]) && cache == map[] && filter == {}
    {
      this.size, this.mistaken := size, mistaken;
      cache, filter, clock := map[], {}, 0;
    }

    // Adds to the bounded cache; if it is full, some other key goes.
    method Put(k: Key, h: nat)
      requires 1 <= size && |cache| <= size
      modifies this`cache
      ensures |cache| <= size && Added(old(cache), k, h, cache)
    {
      var full := k !in cache && |cache| == size;
      if full {
        assert |cache.Keys| == |cache|;
        var victim :| victim in cache;
        var kept := cache - {victim};
        RemoveOne(cache, victim);
        cache := kept;
      }
      ghost var before := cache;
      cache := cache[k := h];
      assert cache.Keys == before.Keys + {k};
    }

    // A hit gives the height of the key's row.
    method Get(k: Key, db: Db, dbErr: bool) returns (r: Found)
      requires Valid(db)
      modifies this`cache, this`clock
      ensures Valid(db)
      ensures r.Hit? ==> k in db && r.height == db[k].height
      ensures k in old(cache) || (k in filter && !dbErr) ==> (r.Hit? <==> k in db)
      ensures old(cache) == map[] && filter == {} ==> r.Miss? && cache == map[]
    {
      if k in cache {
        return Hit(cache[k]);
      }
      var maybe := k in filter || (filter != {} && mistaken(clock, k));
      clock := clock + 1;
      if !maybe || dbErr {
        return Miss;
      }
      if k in db {
        Put(k, db[k].height);
        return Hit(db[k].height);
      }
      r := Miss;
    }

    method Add(k: Key, h: nat)
      requires 1 <= size && |cache| <= size
      modifies this`cache, this`filter
      ensures |cache| <= size && Added(old(cache), k, h, cache) && filter == old(filter) + {k}
    {
      Put(k, h);
      filter := filter + {k};
    }

    method Clean()
      modifies this`cache, this`filter
      ensures cache == map[] && filter == {}
    {
      cache, filter := map[], {};
    }
  }

  // The node's answer to the n-th batch request: whether it failed, and the chain height it came with.
  datatype Answer = Answer(failed: bool, height: nat)

  class Erc20BalanceTask {
    const cache: CacheFilter
    const batchRpc: nat
    const sqlBatch: nat
    const retryTimes: nat
    const answers: nat -> Answer
    const values: (nat, Key) -> nat
    const saveFails: nat -> bool
    const lookupFails: nat -> bool
    var db: Db
    var clock: nat

    ghost predicate Valid()
      reads this, cache
    {
      1 <= batchRpc && 1 <= sqlBatch && cache.Valid(db)
    }

    constructor (cache: CacheFilter, batchRpc: nat, sqlBatch: nat, retryTimes: nat, answers: nat -> Answer,
            values: (nat, Key) -> nat,
                 saveFails: nat -> bool, lookupFails: nat -> bool, db: Db)
      requires 1 <= batchRpc && 1 <= sqlBatch && cache.Valid(map[]) && cache.cache == map[]
      ensures Valid() && this.cache == cache && this.db == db
    {
      this.cache, this.batchRpc, this.sqlBatch, this.retryTimes := cache, batchRpc, sqlBatch, retryTimes;
      this.answers, this.values, this.saveFails, this.lookupFails := answers, values, saveFails, lookupFails;
      this.db, clock := db, 0;
    }

    method IsNeedToUpdate(item: Item) returns (need: bool)
      requires Valid()
      modifies this`clock, cache`cache, cache`clock
      ensures Valid()
      ensures !need ==> AtLeast(db, item.key, item.height)
      ensures item.key in old(cache.cache) || (item.key in cache.filter && !lookupFails(old(clock))) ==>
                (need <==> !AtLeast(db, item.key, item.height))
      ensures old(cache.cache) == map[] && cache.filter == {} ==> need && cache.cache == map[]
      ensures old(clock) <= clock
    {
      var r := cache.Get(item.key, db, lookupFails(clock));
      clock := clock + 1;
      need := r.Miss? || item.height > r.height;
    }

    // The workers take the items in any order, and keep those that need an update.
    method Select(items: seq<Item>) returns (kept: seq<Item>)
      requires Valid()
      modifies this`clock, cache`cache, cache`clock
      ensures Valid()
      ensures forall i {:trigger kept[i]} :: 0 <= i < |kept| ==> kept[i] in items
      ensures forall i {:trigger items[i]} :: 0 <= i < |items| && items[i] !in kept ==>
                AtLeast(db, items[i].key, items[i].height)
      ensures old(cache.cache) == map[] && cache.filter == {} ==> kept == items
      ensures (forall n :: !lookupFails(n)) ==>
                forall i {:trigger kept[i]} :: 0 <= i < |kept| && kept[i].key in cache.filter ==>
                  !AtLeast(db, kept[i].key, kept[i].height)
      ensures old(clock) <= clock
    {
      kept := [];
      var i := 0;
      while i < |items|
        invariant 0 <= i <= |items| && Valid() && old(clock) <= clock
        invariant forall j {:trigger kept[j]} :: 0 <= j < |kept| ==> kept[j] in items
        invariant forall j {:trigger items[j]} :: 0 <= j < i && items[j] !in kept ==>
                    AtLeast(db, items[j].key, items[j].height)
        invariant old(cache.cache) == map[] && cache.filter == {} ==> kept == items[..i] && cache.cache == map[]
        invariant (forall n :: !lookupFails(n)) ==>
                    forall j {:trigger kept[j]} :: 0 <= j < |kept| && kept[j].key in cache.filter ==>
                      !AtLeast(db, kept[j].key, kept[j].height)
      {
        var need := IsNeedToUpdate(items[i]);
        if need {
          kept := kept + [items[i]];
        }
        i := i + 1;
      }
      assert items[..|items|] == items;
    }

    predicate Usable(n: nat, top: nat) {
      !answers(n).failed && top <= answers(n).height
    }

    // No transaction ever fails, and the node always answers from a chain at least top high.
    ghost predicate Answering(top: nat) {
      forall n: nat :: !saveFails(n) && Usable(n, top)
    }

    // The row is what the node answered about the key to a request made since, from a chain at least top high.
    ghost predicate Got(k: Key, row: Row, top: nat, since: nat, until: nat) {
      exists n :: since <= n < until && GotAt(k, row, top, n)
    }

    predicate GotAt(k: Key, row: Row, top: nat, n: nat) {
      !answers(n).failed && top <= answers(n).height && row == Row(answers(n).height, values(n, k))
    }

    // One batch request, retried until the node answers with a chain that is high enough. The rows s..e get the
    // height and the balances of that answer, the n-th.
    method FetchBatch(bs: array<Refresh>, s: nat, e: nat, blockHeight: nat) returns (alive: bool, ghost n: nat)
      requires s <= e <= bs.Length
      modifies this`clock, bs
      ensures forall i {:trigger bs[i]} :: 0 <= i < bs.Length && (!alive || i < s || e <= i) ==> bs[i] == old(bs[i])
      ensures old(clock) <= clock
      ensures alive ==> old(clock) <= n < clock && !answers(n).failed && blockHeight <= answers(n).height
      ensures forall k :: old(clock) <= k < clock && !(alive && k == n) ==> !Usable(k, blockHeight)
      ensures clock - old(clock) <= retryTimes + 1 && (!alive ==> clock - old(clock) == retryTimes + 1)
      ensures alive ==> forall i {:trigger bs[i]} :: s <= i < e ==>
                bs[i] == Refresh(old(bs[i].key), answers(n).height, values(n, old(bs[i].key)))
    {
      var inc := 0;
      n := 0;
      while true
        invariant inc <= retryTimes && clock == old(clock) + inc && bs[..] == old(bs[..])
        invariant forall k :: old(clock) <= k < clock ==> !Usable(k, blockHeight)
        decreases retryTimes - inc
      {
        var t, answer := clock, answers(clock);
        n := t;
        clock := clock + 1;
        if !answer.failed && blockHeight <= answer.height {
          var i := s;
          while i < e
            invariant s <= i <= e && clock == t + 1
            invariant forall j {:trigger bs[j]} :: 0 <= j < bs.Length && (j < s || i <= j) ==> bs[j] == old(bs[j])
            invariant forall j {:trigger bs[j]} :: s <= j < i ==>
                        bs[j] == Refresh(old(bs[j].key), answer.height, values(t, old(bs[j].key)))
          {
            bs[i] := Refresh(bs[i].key, answer.height, values(t, bs[i].key));
            i := i + 1;
          }
          return true, n;
        }
        inc := inc + 1;
        if inc > retryTimes {
          return false, n;
        }
      }
    }

    method FetchAll(bs: array<Refresh>, blockHeight: nat) returns (alive: bool)
      requires 1 <= batchRpc
      modifies this`clock, bs
      ensures forall i {:trigger bs[i]} :: 0 <= i < bs.Length ==> bs[i].key == old(bs[i].key)
      ensures old(clock) <= clock
      ensures Answering(blockHeight) ==> alive
      ensures alive ==> forall i {:trigger bs[i]} :: 0 <= i < bs.Length ==>
                Got(bs[i].key, Row(bs[i].height, bs[i].value), blockHeight, old(clock), clock)
    {
      var i := 0;
      while i < bs.Length
        invariant 0 <= i <= bs.Length && old(clock) <= clock
        invariant forall j {:trigger bs[j]} :: 0 <= j < bs.Length ==> bs[j].key == old(bs[j].key)
        invariant forall j {:trigger bs[j]} :: 0 <= j < i ==>
                    Got(bs[j].key, Row(bs[j].height, bs[j].value), blockHeight, old(clock), clock)
      {
        var end := i + batchRpc;
        if end > bs.Length {
          end := bs.Length;
        }
        ghost var n;
        alive, n := FetchBatch(bs, i, end, blockHeight);
        if !alive {
          assert !Usable(clock - 1, blockHeight);
          return;
        }
        assert forall j {:trigger bs[j]} :: i <= j < end ==>
            GotAt(bs[j].key, Row(bs[j].height, bs[j].value), blockHeight, n);
        i := end;
      }
      alive := true;
    }

    // The rows of the kept items, filled in place.
    method FetchKept(kept: seq<Item>, blockHeight: nat) returns (alive: bool, rows: seq<Refresh>)
      requires 1 <= batchRpc
      modifies this`clock
      ensures old(clock) <= clock && (alive ==> |rows| == |kept|) && (Answering(blockHeight) ==> alive)
      ensures alive ==> forall i {:trigger rows[i]} :: 0 <= i < |rows| ==>
                && rows[i].key == kept[i].key
                && Got(rows[i].key, Row(rows[i].height, rows[i].value), blockHeight, old(clock), clock)
    {
      var bs := new Refresh[|kept|](i requires 0 <= i < |kept| => Refresh(kept[i].key, kept[i].height, 0));
      alive := FetchAll(bs, blockHeight);
      rows := bs[..];
    }

    // Upserts all rows in one transaction, at most sqlBatch to a statement, and retries it.
    method Save(rows: seq<Refresh>) returns (alive: bool)
      requires 1 <= sqlBatch
      modifies this`clock, this`db
      ensures db == if alive then Upsert(old(db), rows) else old(db)
      ensures old(clock) <= clock && ((forall n :: !saveFails(n)) ==> alive)
    {
      var inc := 0;
      while true
        invariant inc <= retryTimes && db == old(db) && old(clock) <= clock
        invariant (forall n :: !saveFails(n)) ==> inc == 0
        decreases retryTimes - inc
      {
        var s := db;
        var err := false;
        var i := 0;
        assert rows[..0] == [];
        while i < |rows| && !err
          invariant 0 <= i <= |rows| && s == Upsert(db, rows[..i]) && db == old(db) && old(clock) <= clock
          invariant (forall n :: !saveFails(n)) ==> !err
          decreases |rows| - i, !err
        {
          var end := i + sqlBatch;
          if end > |rows| {
            end := |rows|;
          }
          err := saveFails(clock);
          clock := clock + 1;
          if !err {
            UpsertConcat(db, rows[..i], rows[i..end]);
            assert rows[..end] == rows[..i] + rows[i..end];
            s := Upsert(s, rows[i..end]);
            i := end;
          }
        }
        if !err {
          err := saveFails(clock);
          clock := clock + 1;
        }
        if !err {
          assert rows[..|rows|] == rows;
          db := s;
          return true;
        }
        inc := inc + 1;
        if inc > retryTimes {
          return false;
        }
      }
    }

    // Records the heights of all rows in their order.
    method RecordHeights(rows: seq<Refresh>, ghost before: Db)
      requires 1 <= batchRpc && 1 <= sqlBatch && cache.Valid(before) && db == Upsert(before, rows)
      modifies cache`cache, cache`filter
      ensures Valid() && old(cache.filter) <= cache.filter
      ensures forall i {:trigger rows[i]} :: 0 <= i < |rows| ==> rows[i].key in cache.filter
    {
      var i := 0;
      assert rows[0..] == rows;
      NotYetRecorded(cache.cache, before, rows);
      while i < |rows|
        invariant 0 <= i <= |rows| && 1 <= cache.size && |cache.cache| <= cache.size
        invariant AgreesBut(cache.cache, db, rows[i..]) && old(cache.filter) <= cache.filter
        invariant forall j {:trigger rows[j]} :: 0 <= j < i ==> rows[j].key in cache.filter
      {
        ghost var c := cache.cache;
        cache.Add(rows[i].key, rows[i].height);
        RecordOne(c, before, rows, i, cache.cache);
        i := i + 1;
      }
    }

    lemma RowGot(d: Db, rows: seq<Refresh>, k: Key, top: nat, since: nat, until: nat, from: nat, to: nat)
      requires forall i {:trigger rows[i]} :: 0 <= i < |rows| ==>
                 Got(rows[i].key, Row(rows[i].height, rows[i].value), top, since, until)
      requires FromRows(d, rows, k) && from <= since && until <= to
      ensures k in d && Got(k, d[k], top, from, to) && top <= d[k].height
    {
      var i :| 0 <= i < |rows| && rows[i].key == k && d[k] == Row(rows[i].height, rows[i].value);
      var n :| since <= n < until && GotAt(k, d[k], top, n);
    }

    // The rows of a batch's keys once the fetched rows are saved.
    lemma {:induction false} Handled(before: Db, kept: seq<Item>, rows: seq<Refresh>, blks: seq<Block>, since: nat,
            until: nat, from: nat, to: nat)
      requires blks != [] && Ascending(blks) && |rows| == |kept| && from <= since && until <= to
      requires forall i {:trigger rows[i]} :: 0 <= i < |rows| ==>
                 && rows[i].key == kept[i].key
                 && Got(rows[i].key, Row(rows[i].height, rows[i].value), blks[|blks| - 1].number, since, until)
      requires forall item {:trigger item in ItemsOf(blks)} :: item in ItemsOf(blks) && item !in kept ==>
                 AtLeast(before, item.key, item.height)
      ensures var db := Upsert(before, rows);
              forall item {:trigger item in ItemsOf(blks)} :: item in ItemsOf(blks) ==>
                && AtLeast(db, item.key, item.height)
                && (Got(item.key, db[item.key], blks[|blks| - 1].number, from, to)
                    || (item !in kept && AtLeast(before, item.key, item.height) && db[item.key] == before[item.key]))
    {
      hide Upsert, ItemsOf, FromRows, Got;
      var db, top := Upsert(before, rows), blks[|blks| - 1].number;
      Refreshed(before, ItemsOf(blks), kept, rows);
      forall item | item in ItemsOf(blks) && FromRows(db, rows, item.key)
        ensures AtLeast(db, item.key, item.height) && Got(item.key, db[item.key], top, from, to)
      {
        RowGot(db, rows, item.key, top, since, until, from, to);
        ItemHeights(blks, top, item);
      }
    }

    // Refreshes the balances the blocks' transfers touch. arrival is the order in which the workers take the items.
    method HandleBlocks(blks: seq<Block>, arrival: seq<Item> -> seq<Item>) returns (alive: bool)
      requires Valid() && Ascending(blks)
      requires forall s: seq<Item> {:trigger arrival(s)} :: multiset(arrival(s)) == multiset(s)
      modifies this`clock, this`db, cache`cache, cache`filter, cache`clock
      ensures !alive ==> db == old(db)
      ensures blks == [] || Answering(blks[|blks| - 1].number) ==> alive
      ensures Valid()
      ensures alive ==> forall item {:trigger item in ItemsOf(blks)} :: item in ItemsOf(blks) ==>
                && AtLeast(db, item.key, item.height)
                && (Got(item.key, db[item.key], blks[|blks| - 1].number, old(clock), clock)
                    || (AtLeast(old(db), item.key, item.height) && db[item.key] == old(db)[item.key]))
      ensures forall k {:trigger k in db} :: k in db && !Touched(blks, k) ==> k in old(db) && db[k] == old(db)[k]
      ensures forall k {:trigger k in db} :: k in db && k !in cache.filter ==> k in old(db) && db[k] == old(db)[k]
      ensures alive && old(cache.cache) == map[] && old(cache.filter) == {} ==>
                forall item {:trigger item in ItemsOf(blks)} :: item in ItemsOf(blks) ==>
                  item.key in db && Got(item.key, db[item.key], blks[|blks| - 1].number, old(clock), clock)
    {
      if |blks| == 0 {
        return true;
      }
      hide ItemsOf, Upsert, Agrees, Touched, FromRows, Got, Usable;
      var blockHeight := blks[|blks| - 1].number;
      ghost var items := ItemsOf(blks);
      assert forall item :: item in arrival(items) <==> item in items by {
        forall item ensures item in arrival(items) <==> item in items {
          assert item in multiset(arrival(items)) <==> item in multiset(items);
        }
      }
      var kept := Select(arrival(ItemsOf(blks)));
      var rows;
      ghost var fetching := clock;
      alive, rows := FetchKept(kept, blockHeight);
      ghost var fetched := clock;
      if !alive {
        return;
      }
      ghost var before := db;
      alive := Save(rows);
      if !alive {
        return;
      }
      RecordHeights(rows, before);
      Handled(before, kept, rows, blks, fetching, fetched, old(clock), clock);
      UntouchedRows(before, items, kept, rows, blks);
      UnrecordedRows(before, rows, cache.filter);
    }

    // A reverted block: everything its transfers touch is fetched again, whatever was cached. Each key's row is then
    // the node's answer to a request made during the call.
    method RevertBlock(blk: Block, arrival: seq<Item> -> seq<Item>) returns (alive: bool)
      requires Valid() && (forall s: seq<Item> {:trigger arrival(s)} :: multiset(arrival(s)) == multiset(s))
      modifies this`clock, this`db, cache`cache, cache`filter, cache`clock
      ensures Valid() && (Answering(blk.number) ==> alive)
      ensures alive ==> forall item {:trigger item in ItemsOf([blk])} :: item in ItemsOf([blk]) ==>
                item.key in db && Got(item.key, db[item.key], blk.number, old(clock), clock)
    {
      cache.Clean();
      alive := HandleBlocks([blk], arrival);
    }
  }

  // A transfer in the blocks names the key.
  ghost predicate Touched(blks: seq<Block>, k: Key) {
    exists item :: item in ItemsOf(blks) && item.key == k
  }

  lemma NotYetRecorded(cache: map<Key, nat>, before: Db, rows: seq<Refresh>)
    requires Agrees(cache, before)
    ensures AgreesBut(cache, Upsert(before, rows), rows)
  {
    forall k | k in cache
      ensures k in Upsert(before, rows) && (cache[k] == Upsert(before, rows)[k].height || Names(rows, k))
    {
      if !Names(rows, k) {
        UpsertElsewhere(before, rows, k);
      } else {
        UpsertAtLeast(before, rows, k, 0);
      }
    }
  }

  // Recording one row: if no later row is for the same key, its height is what the table holds.
  lemma RecordOne(cache: map<Key, nat>, before: Db, rows: seq<Refresh>, i: nat, cache': map<Key, nat>)
    requires i < |rows| && AgreesBut(cache, Upsert(before, rows), rows[i..])
    requires Added(cache, rows[i].key, rows[i].height, cache')
    ensures AgreesBut(cache', Upsert(before, rows), rows[i + 1..])
  {
    var db, k0 := Upsert(before, rows), rows[i].key;
    assert Names(rows, k0);
    UpsertAtLeast(before, rows, k0, 0);
    if !Names(rows[i + 1..], k0) {
      UpsertLast(before, rows[..i], rows[i], rows[i + 1..]);
      assert rows == rows[..i] + [rows[i]] + rows[i + 1..];
    }
    forall k | k in cache' ensures k in db && (cache'[k] == db[k].height || Names(rows[i + 1..], k)) {
      if k != k0 && Names(rows[i..], k) {
        var j :| 0 <= j < |rows[i..]| && rows[i..][j].key == k;
        assert rows[i + 1..][j - 1].key == k;
      }
    }
  }

  // Every item was up to date before and keeps its row, or its row is one of those fetched.
  lemma Refreshed(before: Db, items: seq<Item>, kept: seq<Item>, rows: seq<Refresh>)
    requires |rows| == |kept| && forall i {:trigger rows[i]} :: 0 <= i < |rows| ==> rows[i].key == kept[i].key
    requires forall item {:trigger item in items} :: item in items && item !in kept ==>
               AtLeast(before, item.key, item.height)
    ensures var db := Upsert(before, rows);
            && (forall item {:trigger item in items} :: item in items ==>
                  FromRows(db, rows, item.key)
                  || (AtLeast(before, item.key, item.height) && item.key in db && db[item.key] == before[item.key]))
            && (forall item {:trigger item in kept} :: item in kept ==> FromRows(db, rows, item.key))
  {
    hide FromRows, Upsert;
    forall item | item in kept ensures FromRows(Upsert(before, rows), rows, item.key) {
      var i :| 0 <= i < |kept| && kept[i] == item;
      assert rows[i].key == item.key;
      UpsertNamed(before, rows, item.key);
    }
    forall item | item in items && item !in kept && !FromRows(Upsert(before, rows), rows, item.key)
      ensures item.key in Upsert(before, rows) && Upsert(before, rows)[item.key] == before[item.key]
    {
      if Names(rows, item.key) {
        UpsertNamed(before, rows, item.key);
      } else {
        UpsertElsewhere(before, rows, item.key);
      }
    }
  }

  lemma UntouchedRows(before: Db, items: seq<Item>, kept: seq<Item>, rows: seq<Refresh>, blks: seq<Block>)
    requires |rows| == |kept| && items == ItemsOf(blks)
    requires forall i {:trigger rows[i]} :: 0 <= i < |rows| ==> rows[i].key == kept[i].key && kept[i] in items
    ensures var db := Upsert(before, rows);
            forall k {:trigger k in db} :: k in db && !Touched(blks, k) ==> k in before && db[k] == before[k]
  {
    forall k | k in Upsert(before, rows) && !Touched(blks, k)
      ensures k in before && Upsert(before, rows)[k] == before[k]
    {
      forall i | 0 <= i < |rows| ensures rows[i].key != k {
        assert kept[i].key == rows[i].key && kept[i] in items;
      }
      UpsertElsewhere(before, rows, k);
    }
  }

  // A row that was written belongs to a recorded key.
  lemma UnrecordedRows(before: Db, rows: seq<Refresh>, filter: set<Key>)
    requires forall i {:trigger rows[i]} :: 0 <= i < |rows| ==> rows[i].key in filter
    ensures var db := Upsert(before, rows);
            forall k {:trigger k in db} :: k in db && k !in filter ==> k in before && db[k] == before[k]
  {
    forall k | k in Upsert(before, rows) && k !in filter ensures k in before && Upsert(before, rows)[k] == before[k] {
      UpsertElsewhere(before, rows, k);
    }
  }

  lemma RemoveOne(m: map<Key, nat>, k: Key)
    requires k in m
    ensures |m - {k}| == |m| - 1
  {
    assert (m - {k}).Keys == m.Keys - {k};
  }
}
