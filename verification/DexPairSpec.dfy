/** The last Sync event of each pair in a block, scanned from the end. */
module DexPairSpec {
  import opened Chain
  import Listing
  import Seqs
  import Sorting
  import opened Wrappers

  const SYNC_EVENT: string := "0x1c411e9a96e071241c2f21f7726b17ae89e3cab4c78be50e062b03a9fffbbad1"

  datatype Reserves = Reserves(reserve0: nat, reserve1: nat)

  // What a log's data decodes to, if it does.
  type Decoder = EventLog -> Option<Reserves>

  predicate IsDexPair(l: EventLog) {
    l.topic0 == SYNC_EVENT && l.topic1 == "" && l.topic2 == "" && l.topic3 == ""
  }

  predicate IsSync(decode: Decoder, l: EventLog) {
    IsDexPair(l) && decode(l).Some?
  }

  function AllLogs(txs: seq<Tx>): seq<EventLog> {
    if txs == [] then [] else txs[0].logs + AllLogs(txs[1..])
  }

  function Index(l: EventLog): nat {
    l.index
  }

  // The block's logs in the order of their indices.
  function SortedLogs(b: Block): seq<EventLog> {
    Sorting.Sort(Index, AllLogs(b.txs))
  }

  // The j-th log of the i-th transaction.
  predicate HasLog(b: Block, c: Listing.Cell, l: EventLog) {
    c.i < |b.txs| && c.j < |b.txs[c.i].logs| && l == b.txs[c.i].logs[c.j]
  }

  function JustLog(hash: Hash, l: EventLog): seq<EventLog> {
    [l]
  }

  lemma {:induction false} LogsOfTxFlat(hash: Hash, logs: seq<EventLog>)
    ensures logs == Listing.FlatTx(JustLog, hash, logs)
  {
    if logs != [] {
      LogsOfTxFlat(hash, logs[1..]);
    }
  }

  lemma {:induction false} AllLogsFlat(txs: seq<Tx>)
    ensures AllLogs(txs) == Listing.Flat(JustLog, txs)
  {
    if txs != [] {
      LogsOfTxFlat(txs[0].hash, txs[0].logs);
      AllLogsFlat(txs[1..]);
    }
  }

  // The logs that are scanned are those of the block's transactions, each once, by increasing index.
  lemma LogsSorted(b: Block)
    ensures forall i, j :: 0 <= i < j < |SortedLogs(b)| ==> SortedLogs(b)[i].index <= SortedLogs(b)[j].index
    ensures exists logs :: multiset(logs) == multiset(SortedLogs(b)) && Listing.Lists(logs, b, HasLog)
  {
    Sorting.SortSorts(Index, AllLogs(b.txs));
    AllLogsFlat(b.txs);
    Listing.FlatLists(JustLog, b, HasLog);
    assert Listing.Lists(AllLogs(b.txs), b, HasLog);
  }

  // ------------------------------------------------------------------ the reference: a forward fold

  // The reserves of each pair after the logs, a later Sync replacing an earlier one.
  function LastSync(decode: Decoder, logs: seq<EventLog>): map<string, Reserves> {
    if logs == [] then map[]
    else
      var l := logs[|logs| - 1];
      var m := LastSync(decode, logs[..|logs| - 1]);
      if IsSync(decode, l) then m[l.addr := decode(l).value] else m
  }

  // ------------------------------------------------------------------ the scan

  datatype Update = Update(addr: string, reserves: Reserves)

  // From the last log to the first; a pair that was dealt with is passed over.
  function ScanBack(decode: Decoder, logs: seq<EventLog>, dealt: set<string>): seq<Update> {
    if logs == [] then []
    else
      var l := logs[|logs| - 1];
      var rest := logs[..|logs| - 1];
      if IsSync(decode, l) && l.addr !in dealt then
        [Update(l.addr, decode(l).value)] + ScanBack(decode, rest, dealt + {l.addr})
      else ScanBack(decode, rest, dealt)
  }

  ghost predicate Once(us: seq<Update>) {
    forall i, j :: 0 <= i < j < |us| ==> us[i].addr != us[j].addr
  }

  // The updates are, for each pair not dealt with yet, exactly the entry of the map.
  ghost predicate Lists(us: seq<Update>, m: map<string, Reserves>, dealt: set<string>) {
    && (forall i {:trigger us[i]} :: 0 <= i < |us| ==>
          us[i].addr in m && us[i].addr !in dealt && m[us[i].addr] == us[i].reserves)
    && (forall a {:trigger a in m} :: a in m && a !in dealt ==> exists i :: 0 <= i < |us| && us[i].addr == a)
  }

  // The scan yields each pair with a decodable Sync log once, with the reserves of the forward fold.
  lemma {:induction false} ScanIsLastSync(decode: Decoder, logs: seq<EventLog>, dealt: set<string>)
    ensures var us := ScanBack(decode, logs, dealt); Once(us) && Lists(us, LastSync(decode, logs), dealt)
  {
    if logs != [] {
      var l, rest := logs[|logs| - 1], logs[..|logs| - 1];
      if IsSync(decode, l) && l.addr !in dealt {
        ScanIsLastSync(decode, rest, dealt + {l.addr});
        ListsMore(ScanBack(decode, rest, dealt + {l.addr}), LastSync(decode, rest), dealt,
                  Update(l.addr, decode(l).value));
      } else {
        ScanIsLastSync(decode, rest, dealt);
      }
    }
  }

  lemma ListsMore(tail: seq<Update>, m: map<string, Reserves>, dealt: set<string>, u: Update)
    requires Once(tail) && Lists(tail, m, dealt + {u.addr}) && u.addr !in dealt
    ensures Once([u] + tail) && Lists([u] + tail, m[u.addr := u.reserves], dealt)
  {
    var us, m' := [u] + tail, m[u.addr := u.reserves];
    forall a | a in m' && a !in dealt ensures exists i :: 0 <= i < |us| && us[i].addr == a {
      if a == u.addr {
        assert us[0].addr == a;
      } else {
        var i :| 0 <= i < |tail| && tail[i].addr == a;
        assert us[i + 1].addr == a;
      }
    }
  }

  // A pair is in the result exactly when the block has a decodable Sync log of it.
  lemma {:induction false} InLastSync(decode: Decoder, logs: seq<EventLog>, addr: string)
    ensures addr in LastSync(decode, logs)
            <==> exists i :: 0 <= i < |logs| && IsSync(decode, logs[i]) && logs[i].addr == addr
    ensures forall l :: IsSync(decode, l) <==>
                        l.topic0 == SYNC_EVENT && l.topic1 == "" && l.topic2 == "" && l.topic3 == "" && decode(l).Some?
  {
    if logs != [] {
      var rest := logs[..|logs| - 1];
      InLastSync(decode, rest, addr);
      if i :| 0 <= i < |rest| && IsSync(decode, rest[i]) && rest[i].addr == addr {
        assert IsSync(decode, logs[i]) && logs[i].addr == addr;
      }
      if addr in LastSync(decode, logs) && addr !in LastSync(decode, rest) {
        assert IsSync(decode, logs[|logs| - 1]) && logs[|logs| - 1].addr == addr;
      }
      if i :| 0 <= i < |logs| && IsSync(decode, logs[i]) && logs[i].addr == addr {
        assert i < |rest| ==> rest[i] == logs[i];
      }
    }
  }

  // ------------------------------------------------------------------ the order of the transactions

  lemma {:induction false} AllLogsConcat(a: seq<Tx>, b: seq<Tx>)
    ensures AllLogs(a + b) == AllLogs(a) + AllLogs(b)
  {
    if a == [] {
      assert a + b == b;
    } else {
      assert (a + b)[0] == a[0] && (a + b)[1..] == a[1..] + b;
      AllLogsConcat(a[1..], b);
    }
  }

  lemma AllLogsMiddle(a: seq<Tx>, x: Tx, b: seq<Tx>)
    ensures multiset(AllLogs(a + [x] + b)) == multiset(AllLogs(a + b)) + multiset(x.logs)
  {
    AllLogsConcat(a, b);
    AllLogsConcat(a, [x]);
    AllLogsConcat(a + [x], b);
    assert [x][1..] == [] && AllLogs([x]) == x.logs;
  }

  lemma {:induction false} AllLogsPermute(a: seq<Tx>, b: seq<Tx>)
    requires multiset(a) == multiset(b)
    ensures multiset(AllLogs(a)) == multiset(AllLogs(b))
    decreases |a|
  {
    if a == [] {
      assert |b| == |multiset(b)| == 0;
    } else {
      assert a == [a[0]] + a[1..];
      var b1, b2 := Seqs.SplitAt(a[0], a[1..], b);
      AllLogsPermute(a[1..], b1 + b2);
      AllLogsMiddle(b1, a[0], b2);
    }
  }

  // Whatever order a block's transactions are in, the logs come out the same, log indices being unique in a block.
  lemma OrderIrrelevant(a: Block, b: Block)
    requires multiset(a.txs) == multiset(b.txs) && Sorting.StrictlySorted(Index, SortedLogs(a))
    ensures SortedLogs(a) == SortedLogs(b)
  {
    AllLogsPermute(a.txs, b.txs);
    Sorting.SortSorts(Index, AllLogs(a.txs));
    Sorting.SortErasesArrival(Index, AllLogs(b.txs), SortedLogs(a));
  }

  // ------------------------------------------------------------------ the table

  // The tokens and the name a pair's contract answers with.
  datatype Tokens = Tokens(token0: string, token1: string, name: string)

  datatype Pair = Pair(tokens: Tokens, reserves: Reserves, blockNum: nat)

  // The table token_pair.
  type Pairs = map<string, Pair>

  ghost predicate AfterSync(db: Pairs, db': Pairs, last: map<string, Reserves>, num: nat, tokens: string -> Tokens) {
    forall a: string :: AfterSyncAt(db, db', last, num, tokens, a)
  }

  // A row's tokens never change once it is there, and its reserves are those of the last Sync.
  predicate AfterSyncAt(db: Pairs, db': Pairs, last: map<string, Reserves>, num: nat, tokens: string -> Tokens,
          a: string) {
    && (a in db' <==> a in db || a in last)
    && (a in db' && a !in last ==> db'[a] == db[a])
    && (a in db' && a in last ==> db'[a] == Pair(if a in db then db[a].tokens else tokens(a), last[a], num))
  }

  // ------------------------------------------------------------------ whole feeds

  // The table after a block.
  function Synced(db: Pairs, last: map<string, Reserves>, num: nat, tokens: string -> Tokens): Pairs {
    map a | a in db.Keys + last.Keys ::
      if a in last then Pair(if a in db then db[a].tokens else tokens(a), last[a], num) else db[a]
  }

  lemma SyncedIs(db: Pairs, db': Pairs, last: map<string, Reserves>, num: nat, tokens: string -> Tokens)
    ensures AfterSync(db, db', last, num, tokens) <==> db' == Synced(db, last, num, tokens)
  {
    var r := Synced(db, last, num, tokens);
    if AfterSync(db, db', last, num, tokens) {
      forall a ensures (a in db' <==> a in r) && (a in r ==> db'[a] == r[a]) {
        assert AfterSyncAt(db, db', last, num, tokens, a);
      }
      assert db'.Keys == r.Keys;
    }
  }

  // A pushed block is handled, a reverted one leaves the table as it is.
  function Process(decode: Decoder, tokens: string -> Tokens, db: Pairs, e: Event): Pairs {
    match e
    case Push(b) => Synced(db, LastSync(decode, SortedLogs(b)), b.number, tokens)
    case Pop(_) => db
  }

  function ProcessAll(decode: Decoder, tokens: string -> Tokens, db: Pairs, feed: seq<Event>): Pairs
    decreases |feed|
  {
    if feed == [] then db else ProcessAll(decode, tokens, Process(decode, tokens, db, feed[0]), feed[1..])
  }

  // The reserves the Sync logs of the blocks leave, a later block replacing what an earlier one left.
  function Reserved(decode: Decoder, blks: seq<Block>): map<string, Reserves> {
    if blks == [] then map[]
    else Reserved(decode, blks[..|blks| - 1]) + LastSync(decode, SortedLogs(blks[|blks| - 1]))
  }

  // Exactly those pairs have a row, and these are their reserves.
  ghost predicate Shows(db: Pairs, reserves: map<string, Reserves>) {
    forall a: string :: ShowsAt(db, reserves, a)
  }

  predicate ShowsAt(db: Pairs, reserves: map<string, Reserves>, a: string) {
    (a in db <==> a in reserves) && (a in db && a in reserves ==> db[a].reserves == reserves[a])
  }

  // The blocks the feed announces, those it takes back again among them.
  function Pushed(feed: seq<Event>): seq<Block> {
    if feed == [] then [] else (if feed[0].Push? then [feed[0].blk] else []) + Pushed(feed[1..])
  }

  lemma {:induction false} ReservedConcat(decode: Decoder, a: seq<Block>, b: seq<Block>)
    ensures Reserved(decode, a + b) == Reserved(decode, a) + Reserved(decode, b)
    decreases |b|
  {
    hide LastSync, SortedLogs;
    if b == [] {
      assert a + b == a;
    } else {
      assert (a + b)[..|a + b| - 1] == a + b[..|b| - 1];
      ReservedConcat(decode, a, b[..|b| - 1]);
      MergeAssociates(Reserved(decode, a), Reserved(decode, b[..|b| - 1]),
                      LastSync(decode, SortedLogs(b[|b| - 1])));
    }
  }

  lemma MergeAssociates<K, V>(a: map<K, V>, b: map<K, V>, c: map<K, V>)
    ensures a + b + c == a + (b + c)
  {
  }

  lemma PushShows(decode: Decoder, tokens: string -> Tokens, db: Pairs, blks: seq<Block>, b: Block)
    requires Shows(db, Reserved(decode, blks))
    ensures Shows(Process(decode, tokens, db, Push(b)), Reserved(decode, blks + [b]))
  {
    hide LastSync, SortedLogs;
    assert (blks + [b])[..|blks|] == blks;
    var db' := Process(decode, tokens, db, Push(b));
    forall a: string ensures ShowsAt(db', Reserved(decode, blks + [b]), a) {
      assert ShowsAt(db, Reserved(decode, blks), a);
    }
  }

  // Whatever is reverted, the table shows the last Sync of each pair among all blocks ever announced.
  lemma {:induction false} FeedShows(decode: Decoder, tokens: string -> Tokens, db: Pairs, blks: seq<Block>,
          feed: seq<Event>)
    requires Shows(db, Reserved(decode, blks))
    ensures Shows(ProcessAll(decode, tokens, db, feed), Reserved(decode, blks + Pushed(feed)))
    decreases |feed|
  {
    hide Synced, Reserved, Shows;
    if feed == [] {
      assert blks + [] == blks;
    } else {
      var more := if feed[0].Push? then [feed[0].blk] else [];
      assert blks + more + Pushed(feed[1..]) == blks + Pushed(feed);
      if feed[0].Push? {
        PushShows(decode, tokens, db, blks, feed[0].blk);
      } else {
        assert blks + more == blks;
      }
      FeedShows(decode, tokens, Process(decode, tokens, db, feed[0]), blks + more, feed[1..]);
    }
  }

  // After a feed that takes back the blocks olds and announces news, the table shows the chain's reserves of a pair if
  // and only if news synced the pair, or olds did not, or the pair had those very reserves before olds.
  lemma ReorgShowsIff(decode: Decoder, tokens: string -> Tokens, db: Pairs, st: Stack, feed: seq<Event>, after: Stack,
          kept: seq<Block>, olds: seq<Block>, news: seq<Block>, a: string)
    requires st.blocks == kept + olds && Shows(db, Reserved(decode, st.blocks))
    requires Leads(st, feed, after) && after.blocks == kept + news && Pushed(feed) == news
    ensures ShowsAt(ProcessAll(decode, tokens, db, feed), Reserved(decode, after.blocks), a) <==>
            StillRight(Reserved(decode, kept), Reserved(decode, olds), Reserved(decode, news), a)
  {
    hide Reserved, ProcessAll, Leads;
    FeedShows(decode, tokens, db, st.blocks, feed);
    ReservedConcat(decode, kept, olds);
    ReservedConcat(decode, kept + olds, news);
    ReservedConcat(decode, kept, news);
    assert ShowsAt(ProcessAll(decode, tokens, db, feed), Reserved(decode, st.blocks + news), a);
  }

  predicate StillRight(kept: map<string, Reserves>, olds: map<string, Reserves>, news: map<string, Reserves>,
          a: string) {
    a in olds && a !in news ==> a in kept && kept[a] == olds[a]
  }
}
