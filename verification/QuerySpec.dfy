/** The block loader's two query plans, and why they load the same transactions. */
module QuerySpec {
  import opened Chain
  import opened Table
  import Seqs
  import Sorting

  datatype TxRow = TxRow(num: nat, state: RowState, index: nat, hash: Hash)

  datatype LogRow = LogRow(num: nat, state: RowState, txHash: Hash, log: EventLog)

  // A condition on one column of the log table.
  datatype Cond = Free | Is(value: string) | NotEmpty | OneOf(a: string, b: string)

  datatype LogFilter = LogFilter(contract: Cond, topic0: Cond, topic1: Cond, topic2: Cond, topic3: Cond)

  predicate Meets(c: Cond, s: string) {
    match c
    case Free => true
    case Is(v) => s == v
    case NotEmpty => s != ""
    case OneOf(a, b) => s == a || s == b
  }

  predicate Matches(f: LogFilter, l: EventLog) {
    Meets(f.contract, l.addr) && Meets(f.topic0, l.topic0) && Meets(f.topic1, l.topic1)
        && Meets(f.topic2, l.topic2) && Meets(f.topic3, l.topic3)
  }

  // A range of heights; only ok rows, or rows of every state.
  datatype Range = Range(start: nat, end: nat, all: bool)

  predicate Within(r: Range, num: nat, state: RowState) {
    r.start <= num <= r.end && (r.all || state == Ok)
  }

  function TxKey(t: TxRow): nat {
    t.num * TWO_64 + t.index
  }

  function LogKey(l: LogRow): nat {
    l.num * TWO_64 + l.log.index
  }

  // The matching logs in the order of their blocks and indices.
  function MatchingLogs(r: Range, f: LogFilter, logs: seq<LogRow>): seq<LogRow> {
    Sorting.Sort(LogKey, Seqs.Filter((l: LogRow) => Within(r, l.num, l.state) && Matches(f, l.log), logs))
  }

  // The logs of one transaction hash, in order.
  function LogsFor(hash: Hash, logs: seq<LogRow>): seq<EventLog> {
    if logs == [] then [] else (if logs[0].txHash == hash then [logs[0].log] else []) + LogsFor(hash, logs[1..])
  }

  predicate HasLogs(hash: Hash, logs: seq<LogRow>) {
    exists i :: 0 <= i < |logs| && logs[i].txHash == hash
  }

  datatype OutTx = OutTx(num: nat, index: nat, hash: Hash, logs: seq<EventLog>)

  function WithLogs(logs: seq<LogRow>): TxRow -> OutTx {
    (t: TxRow) => OutTx(t.num, t.index, t.hash, LogsFor(t.hash, logs))
  }

  function SelectTxs(p: TxRow -> bool, txs: seq<TxRow>): seq<TxRow> {
    Sorting.Sort(TxKey, Seqs.Filter(p, txs))
  }

  function InRange(r: Range): TxRow -> bool {
    (t: TxRow) => Within(r, t.num, t.state)
  }

  function InHashes(r: Range, hashes: seq<Hash>): TxRow -> bool {
    (t: TxRow) => Within(r, t.num, t.state) && t.hash in hashes
  }

  // The transactions whose hash is listed, chunk by chunk.
  function TxsByHash(r: Range, txs: seq<TxRow>, hashes: seq<Hash>, chunk: nat): seq<TxRow>
    requires 1 <= chunk
    decreases |hashes|
  {
    if hashes == [] then []
    else
      var e := if chunk < |hashes| then chunk else |hashes|;
      SelectTxs(InHashes(r, hashes[..e]), txs) + TxsByHash(r, txs, hashes[e..], chunk)
  }

  // Plan 1, from the logs: hashes are those of the matching logs, each once, in any order.
  function LogFirst(r: Range, f: LogFilter, txs: seq<TxRow>, logs: seq<LogRow>, hashes: seq<Hash>,
          chunk: nat): seq<OutTx>
    requires 1 <= chunk
  {
    Seqs.Map(WithLogs(MatchingLogs(r, f, logs)), TxsByHash(r, txs, hashes, chunk))
  }

  // Plan 2, from the transactions: all of the range.
  function TxFirst(r: Range, f: LogFilter, txs: seq<TxRow>, logs: seq<LogRow>): seq<OutTx> {
    Seqs.Map(WithLogs(MatchingLogs(r, f, logs)), SelectTxs(InRange(r), txs))
  }

  function TxIndex(t: OutTx): nat {
    t.index
  }

  // The transactions of one block.
  function OfBlock(num: nat, txs: seq<OutTx>): seq<OutTx> {
    Seqs.Filter((t: OutTx) => t.num == num, txs)
  }

  function WithSomeLogs(txs: seq<OutTx>): seq<OutTx> {
    Seqs.Filter((t: OutTx) => t.logs != [], txs)
  }

  // ------------------------------------------------------------------ the plans agree

  ghost predicate Distinct(hashes: seq<Hash>) {
    forall i, j :: 0 <= i < j < |hashes| ==> hashes[i] != hashes[j]
  }

  // The keys of the log map: the hashes of the matching logs, each once.
  ghost predicate KeysOf(hashes: seq<Hash>, logs: seq<LogRow>) {
    Distinct(hashes) && forall h: Hash :: KeyOf(hashes, logs, h)
  }

  predicate KeyOf(hashes: seq<Hash>, logs: seq<LogRow>, h: Hash) {
    h in hashes <==> HasLogs(h, logs)
  }

  lemma {:induction false} FilterSplits<T(!new)>(p: T -> bool, q: T -> bool, pq: T -> bool, s: seq<T>)
    requires forall x: T :: pq(x) == (p(x) || q(x)) && !(p(x) && q(x))
    ensures multiset(Seqs.Filter(pq, s)) == multiset(Seqs.Filter(p, s)) + multiset(Seqs.Filter(q, s))
  {
    if s != [] {
      FilterSplits(p, q, pq, s[1..]);
      assert pq(s[0]) == (p(s[0]) || q(s[0]));
    }
  }

  // Chunk by chunk, the same transactions are found as with all the hashes at once.
  lemma {:induction false} ChunksFindAll(r: Range, txs: seq<TxRow>, hashes: seq<Hash>, chunk: nat)
    requires 1 <= chunk && Distinct(hashes)
    ensures multiset(TxsByHash(r, txs, hashes, chunk)) == multiset(Seqs.Filter(InHashes(r, hashes), txs))
    decreases |hashes|
  {
    if hashes == [] {
      NoneFound(r, txs);
    } else {
      var e := if chunk < |hashes| then chunk else |hashes|;
      var a, b := hashes[..e], hashes[e..];
      assert hashes == a + b;
      ChunksFindAll(r, txs, b, chunk);
      var p := InHashes(r, a);
      Sorting.SortSorts(TxKey, Seqs.Filter(p, txs));
      forall x: TxRow ensures InHashes(r, hashes)(x) == (p(x) || InHashes(r, b)(x)) && !(p(x) && InHashes(r, b)(x)) {
        DistinctHalves(hashes, e, x.hash);
      }
      FilterSplits(p, InHashes(r, b), InHashes(r, hashes), txs);
    }
  }

  lemma DistinctHalves(hashes: seq<Hash>, e: nat, h: Hash)
    requires Distinct(hashes) && e <= |hashes|
    ensures h in hashes <==> h in hashes[..e] || h in hashes[e..]
    ensures !(h in hashes[..e] && h in hashes[e..])
  {
    assert hashes == hashes[..e] + hashes[e..];
    if h in hashes[..e] {
      var i :| 0 <= i < e && hashes[i] == h;
      forall j | 0 <= j < |hashes| - e ensures hashes[e..][j] != h {
        assert hashes[e..][j] == hashes[e + j];
      }
    }
  }

  lemma {:induction false} NoneFound(r: Range, txs: seq<TxRow>)
    ensures Seqs.Filter(InHashes(r, []), txs) == []
  {
    if txs != [] {
      NoneFound(r, txs[1..]);
    }
  }

  lemma {:induction false} FilterCounts<T(!new)>(p: T -> bool, s: seq<T>, x: T)
    ensures multiset(Seqs.Filter(p, s))[x] == if p(x) then multiset(s)[x] else 0
  {
    if s != [] {
      FilterCounts(p, s[1..], x);
      assert s == [s[0]] + s[1..];
    }
  }

  lemma FilterPermutes<T(!new)>(p: T -> bool, a: seq<T>, b: seq<T>)
    requires multiset(a) == multiset(b)
    ensures multiset(Seqs.Filter(p, a)) == multiset(Seqs.Filter(p, b))
  {
    forall x: T ensures multiset(Seqs.Filter(p, a))[x] == multiset(Seqs.Filter(p, b))[x] {
      FilterCounts(p, a, x);
      FilterCounts(p, b, x);
    }
  }

  lemma {:induction false} LogsForSome(hash: Hash, logs: seq<LogRow>)
    ensures LogsFor(hash, logs) != [] <==> HasLogs(hash, logs)
  {
    if logs != [] {
      LogsForSome(hash, logs[1..]);
      if HasLogs(hash, logs[1..]) {
        var i :| 0 <= i < |logs[1..]| && logs[1..][i].txHash == hash;
        assert logs[i + 1].txHash == hash;
      }
      if HasLogs(hash, logs) && logs[0].txHash != hash {
        var i :| 0 <= i < |logs| && logs[i].txHash == hash;
        assert logs[1..][i - 1].txHash == hash;
      }
    }
  }

  // Dropping results without logs, and dropping rows whose hash has none, is the same.
  lemma {:induction false} DropAfterMap(logs: seq<LogRow>, hashes: seq<Hash>, rows: seq<TxRow>)
    requires KeysOf(hashes, logs)
    ensures WithSomeLogs(Seqs.Map(WithLogs(logs), rows))
            == Seqs.Map(WithLogs(logs), Seqs.Filter((t: TxRow) => t.hash in hashes, rows))
  {
    if rows != [] {
      DropAfterMap(logs, hashes, rows[1..]);
      LogsForSome(rows[0].hash, logs);
      assert KeyOf(hashes, logs, rows[0].hash);
      var f, p := WithLogs(logs), (t: TxRow) => t.hash in hashes;
      assert Seqs.Map(f, rows) == [f(rows[0])] + Seqs.Map(f, rows[1..]);
      assert Seqs.Map(f, rows)[1..] == Seqs.Map(f, rows[1..]);
      if p(rows[0]) {
        assert ([rows[0]] + Seqs.Filter(p, rows[1..]))[1..] == Seqs.Filter(p, rows[1..]);
      } else {
        assert [] + Seqs.Filter(p, rows[1..]) == Seqs.Filter(p, rows[1..]);
      }
    }
  }

  lemma {:induction false} FilterTwice<T(!new)>(p: T -> bool, q: T -> bool, pq: T -> bool, s: seq<T>)
    requires forall x: T :: pq(x) == (p(x) && q(x))
    ensures Seqs.Filter(q, Seqs.Filter(p, s)) == Seqs.Filter(pq, s)
  {
    if s != [] {
      FilterTwice(p, q, pq, s[1..]);
      if p(s[0]) {
        assert ([s[0]] + Seqs.Filter(p, s[1..]))[1..] == Seqs.Filter(p, s[1..]);
      }
      assert [] + Seqs.Filter(p, s[1..]) == Seqs.Filter(p, s[1..]);
    }
  }

  // The two plans load, for every block, the same transactions with the same ordered logs, once transactions without a
  // matching log are dropped: whatever the tables hold, the filter says, and order the hashes come in.
  lemma PlansAgree(r: Range, f: LogFilter, txs: seq<TxRow>, logs: seq<LogRow>, hashes: seq<Hash>, chunk: nat, num: nat)
    requires 1 <= chunk && KeysOf(hashes, MatchingLogs(r, f, logs))
    ensures multiset(OfBlock(num, LogFirst(r, f, txs, logs, hashes, chunk)))
            == multiset(OfBlock(num, WithSomeLogs(TxFirst(r, f, txs, logs))))
  {
    var found := MatchingLogs(r, f, logs);
    var within, keyed := InRange(r), (t: TxRow) => t.hash in hashes;
    var all := SelectTxs(within, txs);
    ChunksFindAll(r, txs, hashes, chunk);
    Sorting.SortSorts(TxKey, Seqs.Filter(within, txs));
    FilterPermutes(keyed, all, Seqs.Filter(within, txs));
    FilterTwice(within, keyed, InHashes(r, hashes), txs);
    Seqs.MapPermutes(WithLogs(found), TxsByHash(r, txs, hashes, chunk), Seqs.Filter(keyed, all));
    DropAfterMap(found, hashes, all);
    FilterPermutes((t: OutTx) => t.num == num, LogFirst(r, f, txs, logs, hashes, chunk),
                   WithSomeLogs(TxFirst(r, f, txs, logs)));
  }

  lemma {:induction false} LogOrigin(hash: Hash, logs: seq<LogRow>, i: nat) returns (k: nat)
    requires i < |LogsFor(hash, logs)|
    ensures k < |logs| && logs[k].txHash == hash && logs[k].log == LogsFor(hash, logs)[i]
  {
    if logs[0].txHash == hash && i == 0 {
      k := 0;
    } else {
      k := LogOrigin(hash, logs[1..], if logs[0].txHash == hash then i - 1 else i);
      k := k + 1;
    }
  }

  // A transaction in one block gets its logs in the order of their indices.
  lemma {:induction false} LogsInOrder(hash: Hash, logs: seq<LogRow>, num: nat, i: nat, j: nat)
    requires Sorting.Sorted(LogKey, logs)
    requires forall k {:trigger logs[k]} :: 0 <= k < |logs| && logs[k].txHash == hash ==> logs[k].num == num
    requires i < j < |LogsFor(hash, logs)|
    ensures LogsFor(hash, logs)[i].index <= LogsFor(hash, logs)[j].index
    decreases |logs|
  {
    var rest := logs[1..];
    if logs[0].txHash == hash {
      if i == 0 {
        var k := LogOrigin(hash, rest, j - 1);
        assert logs[k + 1] == rest[k] && LogKey(logs[0]) <= LogKey(logs[k + 1]);
      } else {
        LogsInOrder(hash, rest, num, i - 1, j - 1);
      }
    } else {
      LogsInOrder(hash, rest, num, i, j);
    }
  }

  // With at most one chunk of hashes the transactions come out in block and index order.
  lemma OneChunkSorted(r: Range, txs: seq<TxRow>, hashes: seq<Hash>, chunk: nat)
    requires 1 <= chunk && |hashes| <= chunk
    ensures Sorting.Sorted(TxKey, TxsByHash(r, txs, hashes, chunk))
  {
    if hashes != [] {
      assert hashes[|hashes|..] == [];
      Sorting.SortSorts(TxKey, Seqs.Filter(InHashes(r, hashes[..|hashes|]), txs));
    }
  }

  // ------------------------------------------------------------------ when the order is kept

  // No selected row of an earlier chunk comes after a selected row of a later one.
  ghost predicate InChunkOrder(r: Range, txs: seq<TxRow>, hashes: seq<Hash>, chunk: nat)
    requires 1 <= chunk
    decreases |hashes|
  {
    hashes == []
    || (var e := if chunk < |hashes| then chunk else |hashes|;
        Before(r, txs, hashes[..e], hashes[e..]) && InChunkOrder(r, txs, hashes[e..], chunk))
  }

  ghost predicate Before(r: Range, txs: seq<TxRow>, a: seq<Hash>, b: seq<Hash>) {
    forall x, y :: x in txs && y in txs && InHashes(r, a)(x) && InHashes(r, b)(y) ==> TxKey(x) <= TxKey(y)
  }

  lemma SortedConcat<T>(key: T -> nat, a: seq<T>, b: seq<T>)
    ensures Sorting.Sorted(key, a + b) <==>
            Sorting.Sorted(key, a) && Sorting.Sorted(key, b) && forall x, y :: x in a && y in b ==> key(x) <= key(y)
  {
    var ab := a + b;
    if Sorting.Sorted(key, ab) {
      assert forall i :: 0 <= i < |a| ==> ab[i] == a[i];
      assert forall i :: 0 <= i < |b| ==> ab[|a| + i] == b[i];
    }
  }

  lemma SelectedIn(p: TxRow -> bool, txs: seq<TxRow>, x: TxRow)
    ensures x in SelectTxs(p, txs) <==> x in txs && p(x)
  {
    var f := Seqs.Filter(p, txs);
    Sorting.SortSorts(TxKey, f);
    assert x in SelectTxs(p, txs) <==> x in multiset(SelectTxs(p, txs));
    assert x in f <==> x in multiset(f);
  }

  lemma LoadedIn(r: Range, txs: seq<TxRow>, hashes: seq<Hash>, chunk: nat, x: TxRow)
    requires 1 <= chunk && Distinct(hashes)
    ensures x in TxsByHash(r, txs, hashes, chunk) <==> x in txs && InHashes(r, hashes)(x)
  {
    ChunksFindAll(r, txs, hashes, chunk);
    var found, f := TxsByHash(r, txs, hashes, chunk), Seqs.Filter(InHashes(r, hashes), txs);
    assert x in found <==> x in multiset(found);
    assert x in f <==> x in multiset(f);
  }

  // The transactions come out in block and index order if and only if no earlier chunk has a later one.
  lemma {:induction false} OrderKeptIff(r: Range, txs: seq<TxRow>, hashes: seq<Hash>, chunk: nat)
    requires 1 <= chunk && Distinct(hashes)
    ensures Sorting.Sorted(TxKey, TxsByHash(r, txs, hashes, chunk)) <==> InChunkOrder(r, txs, hashes, chunk)
    decreases |hashes|
  {
    if hashes != [] {
      var e := if chunk < |hashes| then chunk else |hashes|;
      var a, b := hashes[..e], hashes[e..];
      OrderKeptIff(r, txs, b, chunk);
      var first, rest := SelectTxs(InHashes(r, a), txs), TxsByHash(r, txs, b, chunk);
      SortedConcat(TxKey, first, rest);
      hide SelectTxs, TxsByHash, TxKey, InHashes;
      forall x ensures x in first <==> x in txs && InHashes(r, a)(x) {
        SelectedIn(InHashes(r, a), txs, x);
      }
      forall y ensures y in rest <==> y in txs && InHashes(r, b)(y) {
        LoadedIn(r, txs, b, chunk, y);
      }
      SelectedSorted(InHashes(r, a), txs);
    }
  }

  lemma SelectedSorted(p: TxRow -> bool, txs: seq<TxRow>)
    ensures Sorting.Sorted(TxKey, SelectTxs(p, txs))
  {
    Sorting.SortSorts(TxKey, Seqs.Filter(p, txs));
  }

  // What the loader finds for one block of the range is what it would find if it were asked for that block only.
  lemma {:induction false} LoadedOfBlock(r: Range, txs: seq<TxRow>, hashes: seq<Hash>, chunk: nat, num: nat)
    requires 1 <= chunk && r.start <= num <= r.end
    ensures Seqs.Filter((t: TxRow) => t.num == num, TxsByHash(r, txs, hashes, chunk))
         == TxsByHash(Range(num, num, r.all), txs, hashes, chunk)
    decreases |hashes|
  {
    var ofBlock, r' := (t: TxRow) => t.num == num, Range(num, num, r.all);
    if hashes != [] {
      var e := if chunk < |hashes| then chunk else |hashes|;
      var p, rest := InHashes(r, hashes[..e]), TxsByHash(r, txs, hashes[e..], chunk);
      LoadedOfBlock(r, txs, hashes[e..], chunk, num);
      Seqs.FilterConcat(ofBlock, SelectTxs(p, txs), rest);
      Sorting.SortFilter(TxKey, ofBlock, Seqs.Filter(p, txs));
      FilterTwice(p, ofBlock, InHashes(r', hashes[..e]), txs);
    }
  }

  lemma {:induction false} FilterMap<T(!new), U(!new)>(f: T -> U, p: T -> bool, q: U -> bool, s: seq<T>)
    requires forall x: T :: p(x) == q(f(x))
    ensures Seqs.Filter(q, Seqs.Map(f, s)) == Seqs.Map(f, Seqs.Filter(p, s))
  {
    if s != [] {
      FilterMap(f, p, q, s[1..]);
      assert Seqs.Map(f, s)[1..] == Seqs.Map(f, s[1..]);
      var g := Seqs.Filter(p, s[1..]);
      assert ([s[0]] + g)[1..] == g;
      assert [] + g == g && [] + Seqs.Map(f, g) == Seqs.Map(f, g);
    }
  }

  // The log-first plan gives a block its transactions in index order if and only if, among the rows of that block, no
  // earlier chunk has a later one.
  lemma BlockOrderKeptIff(r: Range, f: LogFilter, txs: seq<TxRow>, logs: seq<LogRow>, hashes: seq<Hash>, chunk: nat,
          num: nat)
    requires 1 <= chunk && Distinct(hashes) && r.start <= num <= r.end
    ensures Sorting.Sorted(TxIndex, OfBlock(num, LogFirst(r, f, txs, logs, hashes, chunk)))
       <==> InChunkOrder(Range(num, num, r.all), txs, hashes, chunk)
  {
    var r' := Range(num, num, r.all);
    var found, attach := TxsByHash(r', txs, hashes, chunk), WithLogs(MatchingLogs(r, f, logs));
    FilterMap(attach, (t: TxRow) => t.num == num, (t: OutTx) => t.num == num, TxsByHash(r, txs, hashes, chunk));
    LoadedOfBlock(r, txs, hashes, chunk, num);
    OrderKeptIff(r', txs, hashes, chunk);
    forall i | 0 <= i < |found| ensures found[i].num == num {
      LoadedIn(r', txs, hashes, chunk, found[i]);
    }
    hide InChunkOrder, LogFirst, TxsByHash, MatchingLogs;
    SameOrder(MatchingLogs(r, f, logs), found, num);
    assert OfBlock(num, LogFirst(r, f, txs, logs, hashes, chunk)) == Seqs.Map(attach, found);
  }

  lemma {:induction false} SameOrder(logs: seq<LogRow>, rows: seq<TxRow>, num: nat)
    requires forall i {:trigger rows[i]} :: 0 <= i < |rows| ==> rows[i].num == num
    ensures Sorting.Sorted(TxIndex, Seqs.Map(WithLogs(logs), rows)) <==> Sorting.Sorted(TxKey, rows)
  {
    var out := Seqs.Map(WithLogs(logs), rows);
    assert forall i {:trigger rows[i]} :: 0 <= i < |rows| ==> TxKey(rows[i]) == num * TWO_64 + TxIndex(out[i]);
    assert forall i {:trigger out[i]} :: 0 <= i < |out| ==> TxKey(rows[i]) == num * TWO_64 + TxIndex(out[i]);
  }

  // ------------------------------------------------------------------ whatever order a map is walked in

  predicate HasRow(r: Range, txs: seq<TxRow>, h: Hash) {
    exists x :: x in txs && Within(r, x.num, x.state) && x.hash == h
  }

  // Every hash has a row, as it has when blocks are stored whole, and rows of different hashes have different places.
  ghost predicate OneRowEach(r: Range, txs: seq<TxRow>, hashes: seq<Hash>) {
    && (forall i {:trigger hashes[i]} :: 0 <= i < |hashes| ==> HasRow(r, txs, hashes[i]))
    && forall x, y :: x in txs && y in txs && x.hash != y.hash ==> TxKey(x) != TxKey(y)
  }

  ghost predicate KeptFor(r: Range, txs: seq<TxRow>, hashes: seq<Hash>, chunk: nat)
    requires 1 <= chunk
  {
    Sorting.Sorted(TxKey, TxsByHash(r, txs, hashes, chunk))
  }

  // The first hash of the first chunk and the first of the second, exchanged.
  function Exchanged(hashes: seq<Hash>, chunk: nat): seq<Hash>
    requires chunk < |hashes|
  {
    hashes[0 := hashes[chunk]][chunk := hashes[0]]
  }

  lemma ExchangedPermutes(hashes: seq<Hash>, chunk: nat)
    requires 1 <= chunk < |hashes| && Distinct(hashes)
    ensures multiset(Exchanged(hashes, chunk)) == multiset(hashes) && Distinct(Exchanged(hashes, chunk))
  {
  }

  lemma FirstBefore(r: Range, txs: seq<TxRow>, hashes: seq<Hash>, chunk: nat, x: TxRow, y: TxRow)
    requires 1 <= chunk < |hashes| && Distinct(hashes) && KeptFor(r, txs, hashes, chunk)
    requires x in txs && Within(r, x.num, x.state) && x.hash == hashes[0]
    requires y in txs && Within(r, y.num, y.state) && y.hash == hashes[chunk]
    ensures TxKey(x) <= TxKey(y)
  {
    OrderKeptIff(r, txs, hashes, chunk);
    assert x.hash == hashes[..chunk][0] && y.hash == hashes[chunk..][0];
    assert InHashes(r, hashes[..chunk])(x) && InHashes(r, hashes[chunk..])(y);
  }

  // The source walks the log map, in any order. Every order is as good as the sorted one if and only if the hashes fit
  // one chunk.
  lemma AnyOrderKeptIff(r: Range, txs: seq<TxRow>, hashes: seq<Hash>, chunk: nat)
    requires 1 <= chunk && Distinct(hashes) && OneRowEach(r, txs, hashes)
    ensures (forall walked :: multiset(walked) == multiset(hashes) ==> KeptFor(r, txs, walked, chunk))
            <==> |hashes| <= chunk
  {
    if |hashes| <= chunk {
      forall walked | multiset(walked) == multiset(hashes) ensures KeptFor(r, txs, walked, chunk) {
        assert |walked| == |multiset(walked)| == |hashes|;
        OneChunkSorted(r, txs, walked, chunk);
      }
    } else if forall walked :: multiset(walked) == multiset(hashes) ==> KeptFor(r, txs, walked, chunk) {
      assert HasRow(r, txs, hashes[0]) && HasRow(r, txs, hashes[chunk]);
      var x :| x in txs && Within(r, x.num, x.state) && x.hash == hashes[0];
      var y :| y in txs && Within(r, y.num, y.state) && y.hash == hashes[chunk];
      ExchangedPermutes(hashes, chunk);
      FirstBefore(r, txs, hashes, chunk, x, y);
      FirstBefore(r, txs, Exchanged(hashes, chunk), chunk, y, x);
      assert false;
    }
  }

  // ------------------------------------------------------------------ an input that loses the order

  // Hashes of different length stand for different hashes.
  function HashOf(i: nat): Hash {
    seq(i, _ => 'f')
  }

  // Block 7 with n transactions, each with one log.
  function BlockRows(n: nat): seq<TxRow> {
    seq(n, i requires 0 <= i < n => TxRow(7, Ok, i, HashOf(i)))
  }

  function BlockLogs(n: nat): seq<LogRow> {
    seq(n, i requires 0 <= i < n => LogRow(7, Ok, HashOf(i), EventLog("", "", "", "", "", 0, i)))
  }

  // The hashes of the block, the last transaction's first and the first one's last.
  function LastFirst(n: nat): seq<Hash>
    requires 2 <= n
  {
    seq(n, i requires 0 <= i < n => HashOf(if i == 0 then n - 1 else if i == n - 1 then 0 else i))
  }

  // A block with one transaction more than a chunk has hashes, every row and every log stored: if the map is walked in
  // this order, the block's transactions do not come out in index order.
  lemma OrderLost(chunk: nat)
    requires 1 <= chunk
    ensures var r, f, n := Range(7, 7, false), LogFilter(Free, Free, Free, Free, Free), chunk + 1;
            && KeysOf(LastFirst(n), MatchingLogs(r, f, BlockLogs(n)))
            && !Sorting.Sorted(TxIndex, OfBlock(7, LogFirst(r, f, BlockRows(n), BlockLogs(n), LastFirst(n), chunk)))
  {
    hide KeysOf, MatchingLogs, LogFirst, InChunkOrder, Sorting.Sorted, OfBlock, BlockRows, BlockLogs, LastFirst;
    var r, f, n := Range(7, 7, false), LogFilter(Free, Free, Free, Free, Free), chunk + 1;
    LastFirstKeys(n, r, f);
    BlockOrderKeptIff(r, f, BlockRows(n), BlockLogs(n), LastFirst(n), chunk, 7);
    LastFirstMixed(r, chunk);
  }

  lemma LastFirstMixed(r: Range, chunk: nat)
    requires 1 <= chunk && r == Range(7, 7, false)
    ensures !InChunkOrder(r, BlockRows(chunk + 1), LastFirst(chunk + 1), chunk)
  {
    var txs, hashes := BlockRows(chunk + 1), LastFirst(chunk + 1);
    var x, y := txs[chunk], txs[0];
    assert x.hash == hashes[..chunk][0] && y.hash == hashes[chunk..][0];
    hide LastFirst, BlockRows;
    assert InHashes(r, hashes[..chunk])(x) && InHashes(r, hashes[chunk..])(y);
    assert !Before(r, txs, hashes[..chunk], hashes[chunk..]);
  }

  lemma LastFirstKeys(n: nat, r: Range, f: LogFilter)
    requires 2 <= n && r == Range(7, 7, false) && f == LogFilter(Free, Free, Free, Free, Free)
    ensures KeysOf(LastFirst(n), MatchingLogs(r, f, BlockLogs(n)))
  {
    var logs, hashes, found := BlockLogs(n), LastFirst(n), MatchingLogs(r, f, BlockLogs(n));
    assert forall i :: 0 <= i < n ==> |hashes[i]| == if i == 0 then n - 1 else if i == n - 1 then 0 else i;
    forall l: LogRow ensures l in found <==> l in logs {
      MatchedIn(r, f, logs, l);
      assert l in logs ==> Within(r, l.num, l.state) && Matches(f, l.log);
    }
    forall h: Hash ensures KeyOf(hashes, found, h) {
      if h in hashes {
        var i := |h|;
        assert logs[i].txHash == h && logs[i] in found;
      }
      if HasLogs(h, found) {
        var i :| 0 <= i < |found| && found[i].txHash == h;
        assert found[i] in logs;
        var k :| 0 <= k < n && logs[k] == found[i];
        assert hashes[if k == 0 then n - 1 else if k == n - 1 then 0 else k] == HashOf(k);
      }
    }
  }

  lemma MatchedIn(r: Range, f: LogFilter, logs: seq<LogRow>, l: LogRow)
    ensures l in MatchingLogs(r, f, logs) <==> l in logs && Within(r, l.num, l.state) && Matches(f, l.log)
  {
    var matching := Seqs.Filter((l: LogRow) => Within(r, l.num, l.state) && Matches(f, l.log), logs);
    Sorting.SortSorts(LogKey, matching);
    assert l in MatchingLogs(r, f, logs) <==> l in multiset(MatchingLogs(r, f, logs));
    assert l in matching <==> l in multiset(matching);
  }

  // ------------------------------------------------------------------ which rows are loaded

  predicate Allows(c: Cond, s: string) {
    c.Free? || (c.Is? && s == c.value) || (c.NotEmpty? && s != "") || (c.OneOf? && (s == c.a || s == c.b))
  }

  // A log row the query asks for: of the range, ok unless all rows are wanted, each column as its condition says.
  predicate Asked(r: Range, f: LogFilter, l: LogRow) {
    && r.start <= l.num <= r.end && (l.state == Ok || r.all)
    && Allows(f.contract, l.log.addr) && Allows(f.topic0, l.log.topic0) && Allows(f.topic1, l.log.topic1)
    && Allows(f.topic2, l.log.topic2) && Allows(f.topic3, l.log.topic3)
  }

  lemma AskedIn(r: Range, f: LogFilter, logs: seq<LogRow>, l: LogRow)
    ensures l in MatchingLogs(r, f, logs) <==> l in logs && Asked(r, f, l)
  {
    MatchedIn(r, f, logs, l);
  }

  function LogOf(l: LogRow): EventLog {
    l.log
  }

  // The logs of a hash are those of its rows, each as often as it has a row, in the order of the rows.
  lemma {:induction false} LogsForRows(hash: Hash, logs: seq<LogRow>)
    ensures LogsFor(hash, logs) == Seqs.Map(LogOf, Seqs.Filter((l: LogRow) => l.txHash == hash, logs))
  {
    if logs != [] {
      var own := (l: LogRow) => l.txHash == hash;
      LogsForRows(hash, logs[1..]);
      assert logs == [logs[0]] + logs[1..];
      Seqs.FilterCons(own, logs[0], logs[1..]);
      Seqs.MapConcat(LogOf, [logs[0]], Seqs.Filter(own, logs[1..]));
      assert Seqs.Map(LogOf, [logs[0]]) == [logs[0].log];
    }
  }

  // The transaction row is of the range, and ok unless all rows are wanted.
  predicate RowOf(r: Range, txs: seq<TxRow>, x: TxRow, o: OutTx) {
    && x in txs && r.start <= x.num <= r.end && (x.state == Ok || r.all)
    && o.num == x.num && o.index == x.index && o.hash == x.hash
  }

  predicate HasAsked(r: Range, f: LogFilter, logs: seq<LogRow>, hash: Hash) {
    exists l :: l in logs && Asked(r, f, l) && l.txHash == hash
  }

  lemma HasAskedIff(r: Range, f: LogFilter, logs: seq<LogRow>, hash: Hash)
    ensures HasAsked(r, f, logs, hash) <==> HasLogs(hash, MatchingLogs(r, f, logs))
  {
    hide MatchingLogs, Asked;
    var found := MatchingLogs(r, f, logs);
    if HasAsked(r, f, logs, hash) {
      var l :| l in logs && Asked(r, f, l) && l.txHash == hash;
      AskedIn(r, f, logs, l);
      var i :| 0 <= i < |found| && found[i] == l;
      assert found[i].txHash == hash;
    }
    if HasLogs(hash, found) {
      var i :| 0 <= i < |found| && found[i].txHash == hash;
      AskedIn(r, f, logs, found[i]);
    }
  }

  lemma MappedIn<T, U>(f: T -> U, s: seq<T>, y: U)
    ensures y in Seqs.Map(f, s) <==> exists x :: x in s && f(x) == y
  {
    var m := Seqs.Map(f, s);
    if y in m {
      var i :| 0 <= i < |m| && m[i] == y;
      assert s[i] in s && f(s[i]) == y;
    }
    if x :| x in s && f(x) == y {
      var i :| 0 <= i < |s| && s[i] == x;
      assert m[i] == y;
    }
  }

  // The log-first plan loads exactly the transactions of the range with a log the query asks for, each with those logs.
  lemma LoadedIff(r: Range, f: LogFilter, txs: seq<TxRow>, logs: seq<LogRow>, hashes: seq<Hash>, chunk: nat, o: OutTx)
    requires 1 <= chunk && KeysOf(hashes, MatchingLogs(r, f, logs))
    ensures o in LogFirst(r, f, txs, logs, hashes, chunk) <==>
            && (exists x :: RowOf(r, txs, x, o)) && HasAsked(r, f, logs, o.hash)
            && o.logs == LogsFor(o.hash, MatchingLogs(r, f, logs))
  {
    var found := MatchingLogs(r, f, logs);
    var rows := TxsByHash(r, txs, hashes, chunk);
    HasAskedIff(r, f, logs, o.hash);
    assert KeyOf(hashes, found, o.hash);
    hide MatchingLogs, TxsByHash, LogsFor, HasAsked, HasLogs, KeysOf;
    MappedIn(WithLogs(found), rows, o);
    assert Distinct(hashes) by {
      KeysDistinct(hashes, found);
    }
    forall x: TxRow ensures x in rows <==> x in txs && InHashes(r, hashes)(x) {
      LoadedIn(r, txs, hashes, chunk, x);
    }
    if (exists x :: RowOf(r, txs, x, o)) && o.hash in hashes && o.logs == LogsFor(o.hash, found) {
      var x :| RowOf(r, txs, x, o);
      assert x in rows && WithLogs(found)(x) == o;
    }
    if o in Seqs.Map(WithLogs(found), rows) {
      var x :| x in rows && WithLogs(found)(x) == o;
      assert RowOf(r, txs, x, o);
    }
  }

  lemma KeysDistinct(hashes: seq<Hash>, logs: seq<LogRow>)
    requires KeysOf(hashes, logs)
    ensures Distinct(hashes)
  {
  }
}
