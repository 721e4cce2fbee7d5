/** The block loader as the program runs it: maps of logs by hash and of transactions by block, filled in loops. */
module Query {
  import opened Chain
  import opened QuerySpec
  import Seqs

  datatype OutBlock = OutBlock(num: nat, txs: seq<OutTx>)

  // How many hashes one query lists.
  const CHUNK: nat := 100

  function OwnLog(hash: Hash, l: LogRow): seq<EventLog> {
    if l.txHash == hash then [l.log] else []
  }

  lemma LogsForCons(hash: Hash, l: LogRow, logs: seq<LogRow>)
    ensures LogsFor(hash, [l] + logs) == OwnLog(hash, l) + LogsFor(hash, logs) && LogsFor(hash, []) == []
  {
    assert ([l] + logs)[1..] == logs;
  }

  lemma {:induction false} LogsForSnoc(hash: Hash, logs: seq<LogRow>, l: LogRow)
    ensures LogsFor(hash, logs + [l]) == LogsFor(hash, logs) + OwnLog(hash, l)
    decreases |logs|
  {
    hide LogsFor, OwnLog;
    if logs == [] {
      assert logs + [l] == [l] + logs;
      LogsForCons(hash, l, logs);
    } else {
      var first, rest := logs[0], logs[1..];
      assert logs == [first] + rest && logs + [l] == [first] + (rest + [l]);
      LogsForCons(hash, first, rest);
      LogsForCons(hash, first, rest + [l]);
      LogsForSnoc(hash, rest, l);
    }
  }

  lemma HasLogsSnoc(hash: Hash, logs: seq<LogRow>, l: LogRow)
    ensures HasLogs(hash, logs + [l]) <==> HasLogs(hash, logs) || l.txHash == hash
  {
    assert (logs + [l])[|logs|] == l;
    if HasLogs(hash, logs) {
      var i :| 0 <= i < |logs| && logs[i].txHash == hash;
      assert (logs + [l])[i].txHash == hash;
    }
  }

  ghost predicate GroupsLogs(m: map<Hash, seq<EventLog>>, logs: seq<LogRow>) {
    forall h: Hash :: GroupsHash(m, logs, h)
  }

  predicate GroupsHash(m: map<Hash, seq<EventLog>>, logs: seq<LogRow>, h: Hash) {
    && (h in m <==> HasLogs(h, logs))
    && (h in m ==> m[h] == LogsFor(h, logs))
  }

  // Groups the logs by transaction hash.
  method ConvertOutLogs(logs: seq<LogRow>) returns (m: map<Hash, seq<EventLog>>)
    ensures GroupsLogs(m, logs)
  {
    m := map[];
    var i := 0;
    while i < |logs|
      invariant 0 <= i <= |logs| && GroupsLogs(m, logs[..i])
    {
      var l := logs[i];
      ghost var before := m;
      m := m[l.txHash := (if l.txHash in m then m[l.txHash] else []) + [l.log]];
      assert logs[..i + 1] == logs[..i] + [l];
      var done := logs[..i + 1];
      forall h: Hash ensures GroupsHash(m, done, h) {
        assert GroupsHash(before, logs[..i], h);
        LogsForSnoc(h, logs[..i], l);
        HasLogsSnoc(h, logs[..i], l);
        LogsForSome(h, logs[..i]);
      }
      i := i + 1;
    }
    assert logs[..|logs|] == logs;
  }

  // The keys of the map, in whatever order the iteration yields them.
  method KeysOfMap(m: map<Hash, seq<EventLog>>, ghost logs: seq<LogRow>) returns (hashes: seq<Hash>)
    requires GroupsLogs(m, logs)
    ensures KeysOf(hashes, logs)
  {
    hashes := [];
    var rest := m.Keys;
    while rest != {}
      invariant Distinct(hashes) && (forall h :: h in hashes ==> h !in rest)
      invariant forall h :: h in m <==> h in hashes || h in rest
      decreases |rest|
    {
      var h :| h in rest;
      rest := rest - {h};
      hashes := hashes + [h];
    }
    forall h: Hash ensures KeyOf(hashes, logs, h) {
      assert GroupsHash(m, logs, h);
    }
  }

  // Loads the transactions of the given hashes, a chunk to a query.
  method LoadByHash(r: Range, txs: seq<TxRow>, hashes: seq<Hash>) returns (found: seq<TxRow>)
    ensures found == TxsByHash(r, txs, hashes, CHUNK)
  {
    found := [];
    var s := 0;
    assert hashes[0..] == hashes && TxsByHash(r, txs, [], CHUNK) == [];
    hide TxsByHash, SelectTxs, InHashes;
    while s < |hashes|
      invariant 0 <= s <= |hashes| && found + TxsByHash(r, txs, hashes[s..], CHUNK) == TxsByHash(r, txs, hashes, CHUNK)
    {
      var e := s + CHUNK;
      if e > |hashes| {
        e := |hashes|;
      }
      NextChunk(r, txs, hashes, s, e, found);
      var slice := SelectTxs(InHashes(r, hashes[s..e]), txs);
      found := found + slice;
      s := e;
    }
    assert hashes[s..] == [];
    assert found + [] == found;
  }

  lemma NextChunk(r: Range, txs: seq<TxRow>, hashes: seq<Hash>, s: nat, e: nat, found: seq<TxRow>)
    requires s < |hashes| && e == if s + CHUNK < |hashes| then s + CHUNK else |hashes|
    ensures found + TxsByHash(r, txs, hashes[s..], CHUNK)
            == found + SelectTxs(InHashes(r, hashes[s..e]), txs) + TxsByHash(r, txs, hashes[e..], CHUNK)
  {
    assert hashes[s..][..e - s] == hashes[s..e] && hashes[s..][e - s..] == hashes[e..];
    var slice, rest := SelectTxs(InHashes(r, hashes[s..e]), txs), TxsByHash(r, txs, hashes[e..], CHUNK);
    assert TxsByHash(r, txs, hashes[s..], CHUNK) == slice + rest;
    assert found + (slice + rest) == found + slice + rest;
  }

  // Hangs its logs on every transaction.
  method AttachLogs(txs: seq<TxRow>, m: map<Hash, seq<EventLog>>, ghost logs: seq<LogRow>) returns (out: seq<OutTx>)
    requires GroupsLogs(m, logs)
    ensures out == Seqs.Map(WithLogs(logs), txs)
  {
    out := [];
    var i := 0;
    while i < |txs|
      invariant 0 <= i <= |txs| && |out| == i
      invariant forall j {:trigger out[j]} :: 0 <= j < i ==> out[j] == WithLogs(logs)(txs[j])
    {
      var t := txs[i];
      assert GroupsHash(m, logs, t.hash);
      LogsForSome(t.hash, logs);
      out := out + [OutTx(t.num, t.index, t.hash, if t.hash in m then m[t.hash] else [])];
      i := i + 1;
    }
  }

  ghost predicate GroupsTxs(m: map<nat, seq<OutTx>>, txs: seq<OutTx>) {
    forall n: nat :: GroupsBlock(m, txs, n)
  }

  predicate GroupsBlock(m: map<nat, seq<OutTx>>, txs: seq<OutTx>, n: nat) {
    (if n in m then m[n] else []) == OfBlock(n, txs)
  }

  method ConvertOutTxs(txs: seq<OutTx>) returns (m: map<nat, seq<OutTx>>)
    ensures GroupsTxs(m, txs)
  {
    m := map[];
    var i := 0;
    while i < |txs|
      invariant 0 <= i <= |txs| && GroupsTxs(m, txs[..i])
    {
      var t := txs[i];
      ghost var before := m;
      m := m[t.num := (if t.num in m then m[t.num] else []) + [t]];
      assert txs[..i + 1] == txs[..i] + [t];
      var done := txs[..i + 1];
      forall n: nat ensures GroupsBlock(m, done, n) {
        assert GroupsBlock(before, txs[..i], n);
        Seqs.FilterConcat((t: OutTx) => t.num == n, txs[..i], [t]);
        OfBlockOne(n, t);
      }
      i := i + 1;
    }
    assert txs[..|txs|] == txs;
  }

  lemma OfBlockOne(n: nat, t: OutTx)
    ensures OfBlock(n, [t]) == if t.num == n then [t] else []
  {
    var p := (t: OutTx) => t.num == n;
    assert [t][1..] == [] && Seqs.Filter(p, [t]) == (if p(t) then [t] else []) + Seqs.Filter(p, [t][1..]);
  }

  // Loads the blocks of a range with their transactions and logs. byLogs says that the filter has a condition on
  // logs and none on transactions; hashes is the order in which the log map yields its keys.
  method GetBlocks(nums: seq<nat>, r: Range, f: LogFilter, txs: seq<TxRow>, logs: seq<LogRow>, byLogs: bool)
    returns (res: seq<OutBlock>, ghost hashes: seq<Hash>)
    ensures KeysOf(hashes, MatchingLogs(r, f, logs)) && |res| == |nums|
    ensures forall i {:trigger res[i]} :: 0 <= i < |res| ==>
              var found := if byLogs then LogFirst(r, f, txs, logs, hashes, CHUNK) else TxFirst(r, f, txs, logs);
              res[i] == OutBlock(nums[i], OfBlock(nums[i], found))
  {
    var found := MatchingLogs(r, f, logs);
    var logMap := ConvertOutLogs(found);
    var order := KeysOfMap(logMap, found);
    hashes := order;
    var rows;
    if byLogs {
      rows := LoadByHash(r, txs, order);
    } else {
      rows := SelectTxs(InRange(r), txs);
    }
    var outTxs := AttachLogs(rows, logMap, found);
    var byBlock := ConvertOutTxs(outTxs);
    res := [];
    var i := 0;
    while i < |nums|
      invariant 0 <= i <= |nums| && |res| == i
      invariant forall j {:trigger res[j]} :: 0 <= j < i ==> res[j] == OutBlock(nums[j], OfBlock(nums[j], outTxs))
    {
      assert GroupsBlock(byBlock, outTxs, nums[i]);
      res := res + [OutBlock(nums[i], if nums[i] in byBlock then byBlock[nums[i]] else [])];
      i := i + 1;
    }
  }
}
