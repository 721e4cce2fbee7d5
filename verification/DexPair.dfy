/** The pair task as the program runs it: the reverse scan, the split into new and known pairs, and the two upserts. */
module DexPair {
  import opened Chain
  import opened DexPairSpec
  import Sorting
  import opened Wrappers

  class DexPairTask {
    const decode: Decoder
    const tokens: string -> Tokens
    const size: nat
    const sqlBatch: nat
    const retryTimes: nat
    // Whether the n-th look-up in the table, and the n-th transaction, fails.
    const lookupFails: nat -> bool
    const saveFails: nat -> bool
    var db: Pairs
    // Addresses known to have a row.
    var cache: set<string>
    var number: nat
    var curHeight: nat
    var clock: nat

    // A cached address always has a row.
    ghost predicate Valid()
      reads this
    {
      1 <= sqlBatch && 1 <= size && cache <= db.Keys
    }

    // No look-up and no transaction ever fails.
    ghost predicate Healthy() {
      forall n: nat :: !lookupFails(n) && !saveFails(n)
    }

    constructor (decode: Decoder, tokens: string -> Tokens, size: nat, sqlBatch: nat, retryTimes: nat,
            lookupFails: nat -> bool,
                 saveFails: nat -> bool, db: Pairs, number: nat)
      requires 1 <= sqlBatch && 1 <= size
      ensures Valid() && this.db == db && this.decode == decode && this.tokens == tokens
    {
      this.decode, this.tokens, this.size, this.sqlBatch, this.retryTimes := decode, tokens, size, sqlBatch, retryTimes;
      this.lookupFails, this.saveFails, this.db := lookupFails, saveFails, db;
      cache, this.number, curHeight, clock := {}, number, number, 0;
    }

    // Whether the pair has no row yet. A failed look-up ends the process.
    method IsNeedToGetPairTokens(addr: string) returns (alive: bool, need: bool)
      requires Valid()
      modifies this`cache, this`clock
      ensures Valid() && (alive ==> (need <==> addr !in db)) && (Healthy() ==> alive)
    {
      if addr in cache {
        return true, false;
      }
      var err := lookupFails(clock);
      clock := clock + 1;
      if err {
        return false, true;
      }
      if addr in db {
        if |cache| >= size && cache != {} {
          var victim :| victim in cache;
          cache := cache - {victim};
        }
        cache := cache + {addr};
        return true, false;
      }
      alive, need := true, true;
    }

    // One log of the scan.
    method ScanLog(l: EventLog, dealt: set<string>, added: seq<Update>, known: seq<Update>, ghost us: seq<Update>)
      returns (alive: bool, dealt': set<string>, added': seq<Update>, known': seq<Update>)
      requires Valid() && SplitOf(added, known, us, db)
      modifies this`cache, this`clock
      ensures Valid() && (Healthy() ==> alive)
      ensures alive ==>
                && dealt' == DealtAfter(decode, l, dealt)
                && SplitOf(added', known', us + Yields(decode, l, dealt), db)
    {
      alive, dealt', added', known' := true, dealt, added, known;
      if IsDexPair(l) && l.addr !in dealt {
        var r := decode(l);
        if r.Some? {
          var u := Update(l.addr, r.value);
          var need;
          alive, need := IsNeedToGetPairTokens(l.addr);
          if alive {
            SplitNext(added, known, us, db, u);
            if need {
              added' := added + [u];
            } else {
              known' := known + [u];
            }
            dealt' := dealt + {l.addr};
          }
          return;
        }
      }
      assert us + [] == us;
    }

    // The last Sync of each pair, split into pairs without a row and pairs with one.
    method Scan(logs: seq<EventLog>) returns (alive: bool, added: seq<Update>, known: seq<Update>)
      requires Valid()
      modifies this`cache, this`clock
      ensures Valid() && (Healthy() ==> alive)
      ensures alive ==> Split(added, known, LastSync(decode, logs), db)
    {
      var dealt: set<string> := {};
      added, known := [], [];
      var i := |logs|;
      ghost var us: seq<Update> := [];
      assert logs[..i] == logs;
      SplitNothing(db);
      hide ScanBack, SplitOf, Split, LastSync, Lists, Once, Yields, DealtAfter, Healthy;
      while i > 0
        invariant 0 <= i <= |logs| && Valid() && SplitOf(added, known, us, db)
        invariant us + ScanBack(decode, logs[..i], dealt) == ScanBack(decode, logs, {})
        decreases i
      {
        i := i - 1;
        ScanStep(decode, logs, i, dealt);
        ghost var more, rest := Yields(decode, logs[i], dealt),
            ScanBack(decode, logs[..i], DealtAfter(decode, logs[i], dealt));
        assert us + (more + rest) == us + more + rest;
        alive, dealt, added, known := ScanLog(logs[i], dealt, added, known, us);
        if !alive {
          return;
        }
        us := us + more;
      }
      alive := true;
      ScanEnd(decode, logs, dealt);
      assert us + [] == us;
      ScanIsLastSync(decode, logs, {});
      SplitAll(added, known, us, LastSync(decode, logs), db);
    }

    // Inserts new pairs with their tokens: at most sqlBatch rows to a statement.
    method InsertPairs(s: Pairs, us: seq<Update>, num: nat) returns (r: Pairs)
      requires 1 <= sqlBatch
      ensures r == Inserted(s, us, num, tokens)
    {
      r := s;
      var i := 0;
      assert us[..0] == [];
      while i < |us|
        invariant 0 <= i <= |us| && r == Inserted(s, us[..i], num, tokens)
      {
        var end := i + sqlBatch;
        if end > |us| {
          end := |us|;
        }
        while i < end
          invariant i <= end <= |us| && r == Inserted(s, us[..i], num, tokens)
        {
          assert us[..i + 1][..i] == us[..i];
          r := r[us[i].addr := Pair(tokens(us[i].addr), us[i].reserves, num)];
          i := i + 1;
        }
      }
      assert us[..|us|] == us;
    }

    // Updates the reserves of known pairs. Without a row for the address the statement would create one that has no
    // tokens.
    method UpdateReserves(s: Pairs, us: seq<Update>, num: nat) returns (r: Pairs)
      requires 1 <= sqlBatch
      ensures r == Updated(s, us, num)
    {
      r := s;
      var i := 0;
      assert us[..0] == [];
      while i < |us|
        invariant 0 <= i <= |us| && r == Updated(s, us[..i], num)
      {
        var end := i + sqlBatch;
        if end > |us| {
          end := |us|;
        }
        while i < end
          invariant i <= end <= |us| && r == Updated(s, us[..i], num)
        {
          assert us[..i + 1][..i] == us[..i];
          r := r[us[i].addr := Pair(if us[i].addr in r then r[us[i].addr].tokens else NO_TOKENS, us[i].reserves, num)];
          i := i + 1;
        }
      }
      assert us[..|us|] == us;
    }

    // One block: afterwards every pair with a Sync log in it has the reserves of its last one, pairs that had no row
    // have one with their tokens, and nothing else has changed.
    method HandleBlock(b: Block) returns (alive: bool)
      requires Valid()
      modifies this`db, this`cache, this`number, this`curHeight, this`clock
      ensures Valid()
      ensures if alive then AfterSync(old(db), db, LastSync(decode, SortedLogs(b)), b.number, tokens)
              && number == curHeight == b.number
              else db == old(db) && number == old(number)
      ensures alive ==> db == Process(decode, tokens, old(db), Push(b))
      ensures Healthy() ==> alive
    {
      hide AfterSync, Synced, LastSync, Split, Inserted, Updated, SortedLogs;
      var sorted := CollectLogs(b);
      var added, known;
      alive, added, known := Scan(sorted);
      if !alive {
        return;
      }
      alive := Save(added, known, b.number);
      if alive {
        SavedPairs(old(db), added, known, LastSync(decode, sorted), b.number, tokens);
        RowsStay(old(db), db, LastSync(decode, sorted), b.number, tokens);
        SyncedIs(old(db), db, LastSync(decode, sorted), b.number, tokens);
        curHeight := b.number;
      }
    }

    // A reverted block moves the height back; the reserves stay those of the block taken back.
    method RevertBlock(b: Block)
      modifies this`curHeight
      ensures curHeight == b.number && db == Process(decode, tokens, old(db), Pop(b))
    {
      curHeight := b.number;
    }

    method CollectLogs(b: Block) returns (logs: seq<EventLog>)
      ensures logs == SortedLogs(b)
    {
      logs := [];
      var i := 0;
      assert b.txs[0..] == b.txs;
      while i < |b.txs|
        invariant 0 <= i <= |b.txs| && logs + AllLogs(b.txs[i..]) == AllLogs(b.txs)
      {
        assert b.txs[i..][0] == b.txs[i] && b.txs[i..][1..] == b.txs[i + 1..];
        logs := logs + b.txs[i].logs;
        i := i + 1;
      }
      assert b.txs[i..] == [] && logs == AllLogs(b.txs);
      logs := Sorting.Sort(Index, logs);
    }

    // Both upserts and the task's number in one transaction, retried.
    method Save(added: seq<Update>, known: seq<Update>, num: nat) returns (alive: bool)
      requires 1 <= sqlBatch
      modifies this`db, this`number, this`clock
      ensures db == if alive then Updated(Inserted(old(db), added, num, tokens), known, num) else old(db)
      ensures number == if alive then num else old(number)
      ensures Healthy() ==> alive
    {
      var inc := 0;
      while true
        invariant inc <= retryTimes && db == old(db) && number == old(number)
        decreases retryTimes - inc
      {
        var s := InsertPairs(db, added, num);
        s := UpdateReserves(s, known, num);
        var err := saveFails(clock);
        clock := clock + 1;
        if !err {
          db, number := s, num;
          return true;
        }
        inc := inc + 1;
        if inc > retryTimes {
          return false;
        }
      }
    }
  }

  lemma ScanEnd(decode: Decoder, logs: seq<EventLog>, dealt: set<string>)
    ensures ScanBack(decode, logs[..0], dealt) == []
  {
  }

  // What the scan makes of one log.
  function Yields(decode: Decoder, l: EventLog, dealt: set<string>): seq<Update> {
    if IsSync(decode, l) && l.addr !in dealt then [Update(l.addr, decode(l).value)] else []
  }

  function DealtAfter(decode: Decoder, l: EventLog, dealt: set<string>): set<string> {
    if IsSync(decode, l) && l.addr !in dealt then dealt + {l.addr} else dealt
  }

  lemma ScanStep(decode: Decoder, logs: seq<EventLog>, i: nat, dealt: set<string>)
    requires i < |logs|
    ensures ScanBack(decode, logs[..i + 1], dealt) ==
            Yields(decode, logs[i], dealt) + ScanBack(decode, logs[..i], DealtAfter(decode, logs[i], dealt))
  {
    assert logs[..i + 1][..i] == logs[..i];
  }

  const NO_TOKENS: Tokens := Tokens("", "", "")

  function Inserted(db: Pairs, us: seq<Update>, num: nat, tokens: string -> Tokens): Pairs {
    if us == [] then db
    else
      var u := us[|us| - 1];
      Inserted(db, us[..|us| - 1], num, tokens)[u.addr := Pair(tokens(u.addr), u.reserves, num)]
  }

  function Updated(db: Pairs, us: seq<Update>, num: nat): Pairs {
    if us == [] then db
    else
      var u := us[|us| - 1];
      var r := Updated(db, us[..|us| - 1], num);
      r[u.addr := Pair(if u.addr in r then r[u.addr].tokens else NO_TOKENS, u.reserves, num)]
  }

  predicate Names(us: seq<Update>, a: string) {
    exists i :: 0 <= i < |us| && us[i].addr == a
  }

  predicate Agree(us: seq<Update>, last: map<string, Reserves>) {
    forall i {:trigger us[i]} :: 0 <= i < |us| ==> us[i].addr in last && us[i].reserves == last[us[i].addr]
  }

  // The two lists hold the updates of us, those of pairs without a row in the first.
  ghost predicate SplitOf(added: seq<Update>, known: seq<Update>, us: seq<Update>, db: Pairs) {
    && (forall i {:trigger added[i]} :: 0 <= i < |added| ==> added[i] in us && added[i].addr !in db)
    && (forall i {:trigger known[i]} :: 0 <= i < |known| ==> known[i] in us && known[i].addr in db)
    && (forall i {:trigger us[i]} :: 0 <= i < |us| ==> if us[i].addr in db then us[i] in known else us[i] in added)
  }

  ghost predicate Split(added: seq<Update>, known: seq<Update>, last: map<string, Reserves>, db: Pairs) {
    && Agree(added, last) && Agree(known, last)
    && forall a: string :: SplitAt(added, known, last, db, a)
  }

  predicate SplitAt(added: seq<Update>, known: seq<Update>, last: map<string, Reserves>, db: Pairs, a: string) {
    (Names(added, a) <==> a in last && a !in db) && (Names(known, a) <==> a in last && a in db)
  }

  lemma SplitNothing(db: Pairs)
    ensures SplitOf([], [], [], db)
  {
  }

  lemma SplitNext(added: seq<Update>, known: seq<Update>, us: seq<Update>, db: Pairs, u: Update)
    requires SplitOf(added, known, us, db)
    ensures if u.addr in db then SplitOf(added, known + [u], us + [u], db)
            else SplitOf(added + [u], known, us + [u], db)
  {
    assert u in [u];
  }

  lemma SplitAll(added: seq<Update>, known: seq<Update>, us: seq<Update>, last: map<string, Reserves>, db: Pairs)
    requires SplitOf(added, known, us, db) && Lists(us, last, {})
    ensures Split(added, known, last, db)
  {
    forall i | 0 <= i < |added| ensures added[i].addr in last && added[i].reserves == last[added[i].addr] {
      assert added[i] in us;
      var j :| 0 <= j < |us| && us[j] == added[i];
    }
    forall i | 0 <= i < |known| ensures known[i].addr in last && known[i].reserves == last[known[i].addr] {
      assert known[i] in us;
      var j :| 0 <= j < |us| && us[j] == known[i];
    }
    forall a: string ensures SplitAt(added, known, last, db, a) {
      if a in last {
        var j :| 0 <= j < |us| && us[j].addr == a;
        if a in db {
          assert us[j] in known;
          var i :| 0 <= i < |known| && known[i] == us[j];
          assert Names(known, a);
        } else {
          assert us[j] in added;
          var i :| 0 <= i < |added| && added[i] == us[j];
          assert Names(added, a);
        }
      }
    }
  }

  lemma {:induction false} InsertedAt(db: Pairs, us: seq<Update>, num: nat, tokens: string -> Tokens,
          last: map<string, Reserves>, a: string)
    requires Agree(us, last)
    ensures var r := Inserted(db, us, num, tokens);
            && (a in r <==> a in db || Names(us, a))
            && (a in r ==>
                  r[a] == if Names(us, a) && a in last then Pair(tokens(a), last[a], num)
                          else if a in db then db[a] else r[a])
  {
    if us != [] {
      InsertedAt(db, us[..|us| - 1], num, tokens, last, a);
      NamesLast(us, a);
    }
  }

  lemma {:induction false} UpdatedAt(db: Pairs, us: seq<Update>, num: nat, last: map<string, Reserves>, a: string)
    requires Agree(us, last)
    ensures var r := Updated(db, us, num);
            && (a in r <==> a in db || Names(us, a))
            && (a in db ==> r[a] == if Names(us, a) && a in last then Pair(db[a].tokens, last[a], num) else db[a])
  {
    if us != [] {
      UpdatedAt(db, us[..|us| - 1], num, last, a);
      NamesLast(us, a);
    }
  }

  lemma NamesLast(us: seq<Update>, a: string)
    requires us != []
    ensures Names(us, a) <==> Names(us[..|us| - 1], a) || us[|us| - 1].addr == a
  {
    var rest := us[..|us| - 1];
    if Names(rest, a) {
      var i :| 0 <= i < |rest| && rest[i].addr == a;
      assert us[i].addr == a;
    }
    if Names(us, a) && us[|us| - 1].addr != a {
      var i :| 0 <= i < |us| && us[i].addr == a;
      assert rest[i].addr == a;
    }
  }

  // The insert and the update together leave the table as it is to be: the update finds a row for each of its pairs.
  lemma SavedPairs(db: Pairs, added: seq<Update>, known: seq<Update>, last: map<string, Reserves>, num: nat,
          tokens: string -> Tokens)
    requires Split(added, known, last, db)
    ensures AfterSync(db, Updated(Inserted(db, added, num, tokens), known, num), last, num, tokens)
  {
    var mid := Inserted(db, added, num, tokens);
    var r := Updated(mid, known, num);
    forall a: string ensures AfterSyncAt(db, r, last, num, tokens, a) {
      assert SplitAt(added, known, last, db, a);
      InsertedAt(db, added, num, tokens, last, a);
      UpdatedAt(mid, known, num, last, a);
    }
  }

  lemma RowsStay(db: Pairs, db': Pairs, last: map<string, Reserves>, num: nat, tokens: string -> Tokens)
    requires AfterSync(db, db', last, num, tokens)
    ensures db.Keys <= db'.Keys
  {
    forall a: string | a in db ensures a in db' {
      assert AfterSyncAt(db, db', last, num, tokens, a);
    }
  }
}
