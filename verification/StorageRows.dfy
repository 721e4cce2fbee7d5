/** What a chain's rows in the four block tables are, thing by thing of its blocks. */
module StorageRows {
  import opened Chain
  import opened Table
  import opened StorageSpec
  import opened StorageProofs
  import opened Listing

  // A block has one header.
  predicate HasHeader(b: Block, c: Cell, h: Header) {
    c == Cell(0, 0) && h.number == b.number && h.hash == b.hash && h.parentHash == b.parentHash && h.txCnt == b.txCnt
  }

  predicate HasTx(b: Block, c: Cell, hash: Hash) {
    c.i < |b.txs| && c.j == 0 && hash == b.txs[c.i].hash
  }

  // The j-th log of the i-th transaction, under the transaction's hash.
  predicate HasLog(b: Block, c: Cell, l: TxLog) {
    c.i < |b.txs| && c.j < |b.txs[c.i].logs| && l.txHash == b.txs[c.i].hash && l.log == b.txs[c.i].logs[c.j]
  }

  predicate HasInternal(b: Block, c: Cell, x: Internal) {
    c.i < |b.internals| && c.j == 0 && x == b.internals[c.i]
  }

  lemma HeaderListed(b: Block)
    ensures Lists(Headers(b), b, HasHeader)
  {
    assert ListsAt(Headers(b), b, HasHeader, [Cell(0, 0)]);
  }

  // The cells of a list of n things.
  function Column(n: nat): (r: seq<Cell>)
    ensures |r| == n && forall k {:trigger r[k]} :: 0 <= k < n ==> r[k] == Cell(k, 0)
  {
    seq(n, k requires 0 <= k < n => Cell(k, 0))
  }

  lemma ColumnHas(n: nat, c: Cell)
    requires c.i < n && c.j == 0
    ensures c in Column(n)
  {
    assert Column(n)[c.i] == c;
  }

  lemma {:induction false} HashAt(txs: seq<Tx>)
    ensures |TxsOf(txs)| == |txs| && forall k :: 0 <= k < |txs| ==> TxsOf(txs)[k] == txs[k].hash
  {
    if txs != [] {
      HashAt(txs[1..]);
    }
  }

  lemma TxsListed(b: Block)
    ensures Lists(Hashes(b), b, HasTx)
  {
    HashAt(b.txs);
    var cells := Column(|b.txs|);
    forall c: Cell, hash: Hash | HasTx(b, c, hash) ensures c in cells {
      ColumnHas(|b.txs|, c);
    }
    assert ListsAt(Hashes(b), b, HasTx, cells);
  }

  lemma InternalsListed(b: Block)
    ensures Lists(Internals(b), b, HasInternal)
  {
    var cells := Column(|b.internals|);
    forall c: Cell, x: Internal | HasInternal(b, c, x) ensures c in cells {
      ColumnHas(|b.internals|, c);
    }
    assert ListsAt(Internals(b), b, HasInternal, cells);
  }

  function LogRow(hash: Hash, l: EventLog): seq<TxLog> {
    [TxLog(hash, l)]
  }

  lemma {:induction false} LogsOfTxFlat(hash: Hash, logs: seq<EventLog>)
    ensures LogsOfTx(hash, logs) == FlatTx(LogRow, hash, logs)
  {
    if logs != [] {
      LogsOfTxFlat(hash, logs[1..]);
    }
  }

  lemma {:induction false} LogsFlat(txs: seq<Tx>)
    ensures LogsOf(txs) == Flat(LogRow, txs)
  {
    if txs != [] {
      LogsOfTxFlat(txs[0].hash, txs[0].logs);
      LogsFlat(txs[1..]);
    }
  }

  // The tx_log rows of a block: every log of every transaction once, in their order.
  lemma LogsListed(b: Block)
    ensures Lists(Logs(b), b, HasLog)
  {
    LogsFlat(b.txs);
    FlatLists(LogRow, b, HasLog);
  }

  // What the log counter of the storage task counts are these rows.
  lemma {:induction false} CountIsRows(txs: seq<Tx>)
    ensures CountLogs(txs) == |LogsOf(txs)|
  {
    if txs != [] {
      LogCount(txs[0].hash, txs[0].logs);
      CountIsRows(txs[1..]);
    }
  }

  lemma {:induction false} LogCount(hash: Hash, logs: seq<EventLog>)
    ensures |LogsOfTx(hash, logs)| == |logs|
  {
    if logs != [] {
      LogCount(hash, logs[1..]);
    }
  }

  // The ok rows of each table are one for each header, transaction, log and internal transaction of the blocks, in the
  // order of the blocks, and no other.
  ghost predicate AllRows(t: Tables, blocks: seq<Block>) {
    && RowsInOrder(OkRows(t.blocks), blocks, HasHeader) && RowsInOrder(OkRows(t.txs), blocks, HasTx)
    && RowsInOrder(OkRows(t.logs), blocks, HasLog) && RowsInOrder(OkRows(t.internals), blocks, HasInternal)
  }

  lemma HoldsAllRows(t: Tables, st: Stack)
    requires Holds(t, st)
    ensures AllRows(t, st.blocks)
  {
    hide RowsInOrder, Part, Live, OkRows, Lists, Headers, Hashes, Logs, Internals;
    forall b: Block ensures Lists(Headers(b), b, HasHeader) && Lists(Hashes(b), b, HasTx) && Lists(Logs(b), b, HasLog)
                            && Lists(Internals(b), b, HasInternal) {
      HeaderListed(b);
      TxsListed(b);
      LogsListed(b);
      InternalsListed(b);
    }
    LiveIsOk(t.blocks);
    LiveIsOk(t.txs);
    LiveIsOk(t.logs);
    LiveIsOk(t.internals);
    PartInOrder(Headers, st.blocks, HasHeader);
    PartInOrder(Hashes, st.blocks, HasTx);
    PartInOrder(Logs, st.blocks, HasLog);
    PartInOrder(Internals, st.blocks, HasInternal);
  }
}
