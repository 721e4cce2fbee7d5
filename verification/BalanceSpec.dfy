/** Which balances a batch of blocks asks for, and what upserts and cached heights come to. */
module BalanceSpec {
  import opened Chain
  import AsyncSpec

  // An account and a token contract; both are fixed-length, so "account|contract" tells keys apart.
  datatype Key = Key(addr: string, contract: string)

  datatype Row = Row(height: nat, value: nat)

  // The table balance_erc20.
  type Db = map<Key, Row>

  // A balance to refresh because of a transfer in block `height`.
  datatype Item = Item(key: Key, height: nat)

  // A refreshed balance, as of block `height`.
  datatype Refresh = Refresh(key: Key, height: nat, value: nat)

  // The account in an indexed topic: its last 40 hex digits.
  function AddressOf(topic: string): string {
    if |topic| <= 40 then topic else topic[|topic| - 40..]
  }

  // Only the low 64 bits of the amount are looked at.
  predicate Moves(l: EventLog) {
    l.value % TWO_64 != 0
  }

  function ItemsOfLogs(logs: seq<EventLog>, num: nat): seq<Item> {
    if logs == [] then []
    else
      (if AsyncSpec.IsErc20Tx(logs[0]) && Moves(logs[0])
       then [Item(Key(AddressOf(logs[0].topic1), logs[0].addr), num),
             Item(Key(AddressOf(logs[0].topic2), logs[0].addr), num)]
       else [])
      + ItemsOfLogs(logs[1..], num)
  }

  function ItemsOfTxs(txs: seq<Tx>, num: nat): seq<Item> {
    if txs == [] then [] else ItemsOfLogs(txs[0].logs, num) + ItemsOfTxs(txs[1..], num)
  }

  // The queue a batch of blocks fills.
  function ItemsOf(blks: seq<Block>): seq<Item> {
    if blks == [] then [] else ItemsOfTxs(blks[0].txs, blks[0].number) + ItemsOf(blks[1..])
  }

  // The key has a row at least so high.
  predicate AtLeast(db: Db, k: Key, h: nat) {
    k in db && h <= db[k].height
  }

  // INSERT ... ON DUPLICATE KEY UPDATE, row by row: a later row for the same key wins.
  function Upsert(db: Db, rows: seq<Refresh>): Db {
    if rows == [] then db
    else Upsert(db, rows[..|rows| - 1])[rows[|rows| - 1].key := Row(rows[|rows| - 1].height, rows[|rows| - 1].value)]
  }

  predicate Names(rows: seq<Refresh>, k: Key) {
    exists i :: 0 <= i < |rows| && rows[i].key == k
  }

  // ------------------------------------------------------------------ lemmas

  lemma {:induction false} UpsertConcat(db: Db, a: seq<Refresh>, b: seq<Refresh>)
    ensures Upsert(db, a + b) == Upsert(Upsert(db, a), b)
    decreases |b|
  {
    if b == [] {
      assert a + b == a;
    } else {
      assert (a + b)[..|a + b| - 1] == a + b[..|b| - 1];
      UpsertConcat(db, a, b[..|b| - 1]);
    }
  }

  // A key no row names keeps its row; any other key gets the last row that names it.
  lemma {:induction false} UpsertElsewhere(db: Db, rows: seq<Refresh>, k: Key)
    requires !Names(rows, k)
    ensures k in Upsert(db, rows) <==> k in db
    ensures k in db ==> Upsert(db, rows)[k] == db[k]
  {
    if rows != [] {
      var rest := rows[..|rows| - 1];
      forall i | 0 <= i < |rest| ensures rest[i].key != k {
        assert rest[i] == rows[i];
      }
      UpsertElsewhere(db, rest, k);
      assert rows[|rows| - 1].key != k;
    }
  }

  lemma UpsertLast(db: Db, a: seq<Refresh>, r: Refresh, b: seq<Refresh>)
    requires !Names(b, r.key)
    ensures var db' := Upsert(db, a + [r] + b); r.key in db' && db'[r.key] == Row(r.height, r.value)
  {
    UpsertConcat(db, a + [r], b);
    assert (a + [r])[..|a|] == a;
    UpsertElsewhere(Upsert(db, a + [r]), b, r.key);
  }

  // If every row for a key is at least so high, so is what the table then holds.
  lemma {:induction false} UpsertAtLeast(db: Db, rows: seq<Refresh>, k: Key, h: nat)
    requires Names(rows, k) && forall i {:trigger rows[i]} :: 0 <= i < |rows| && rows[i].key == k ==>
               h <= rows[i].height
    ensures AtLeast(Upsert(db, rows), k, h)
  {
    var n := |rows| - 1;
    if rows[n].key != k {
      var i :| 0 <= i < |rows| && rows[i].key == k;
      assert rows[..n][i].key == k;
      UpsertAtLeast(db, rows[..n], k, h);
    }
  }

  // The row of the key is one of the given ones.
  predicate FromRows(db: Db, rows: seq<Refresh>, k: Key) {
    k in db && exists i :: 0 <= i < |rows| && rows[i].key == k && db[k] == Row(rows[i].height, rows[i].value)
  }

  lemma {:induction false} UpsertNamed(db: Db, rows: seq<Refresh>, k: Key)
    requires Names(rows, k)
    ensures FromRows(Upsert(db, rows), rows, k)
  {
    var n := |rows| - 1;
    if rows[n].key != k {
      var i :| 0 <= i < |rows| && rows[i].key == k;
      assert rows[..n][i].key == k;
      UpsertNamed(db, rows[..n], k);
      var j :| 0 <= j < n && rows[..n][j].key == k
          && Upsert(db, rows[..n])[k] == Row(rows[..n][j].height, rows[..n][j].value);
      assert rows[j] == rows[..n][j];
    }
  }

  predicate Queued(items: seq<Item>, item: Item) {
    item in items
  }

  // A transfer queues its sender and its receiver exactly when its amount is not a multiple of 2^64: a transfer of
  // 2^64 units moves tokens without asking for either balance.
  lemma QueuedIff(l: EventLog, num: nat)
    requires AsyncSpec.IsErc20Tx(l)
    ensures var items := ItemsOfLogs([l], num);
            && Queued(items, Item(Key(AddressOf(l.topic1), l.addr), num))
            && Queued(items, Item(Key(AddressOf(l.topic2), l.addr), num))
            <==> l.value % TWO_64 != 0
  {
    assert [l][1..] == [] && ItemsOfLogs([], num) == [];
    var items := ItemsOfLogs([l], num);
    if Moves(l) {
      assert items == [Item(Key(AddressOf(l.topic1), l.addr), num), Item(Key(AddressOf(l.topic2), l.addr), num)] + [];
      assert items[0] in items && items[1] in items;
    } else {
      assert items == [];
    }
  }

  lemma MissedTransfer(l: EventLog, num: nat)
    requires AsyncSpec.IsErc20Tx(l) && l.value == TWO_64
    ensures ItemsOfLogs([l], num) == []
  {
    assert [l][1..] == [];
  }

  // The item is the sender's or the receiver's of a transfer log whose amount is not a multiple of 2^64.
  predicate AsksFor(l: EventLog, item: Item) {
    && l.topic0 == AsyncSpec.ERC20_TRANSFER && l.topic1 != "" && l.topic2 != "" && l.topic3 == ""
    && l.value % TWO_64 != 0 && item.key.contract == l.addr
    && (IsTail(item.key.addr, l.topic1) || IsTail(item.key.addr, l.topic2))
  }

  // The last 40 characters of the topic, all of it if it is shorter.
  predicate IsTail(addr: string, topic: string) {
    |addr| == (if |topic| < 40 then |topic| else 40) && addr == topic[|topic| - |addr|..]
  }

  // The log that asks for the item: the j-th of the i-th transaction of the k-th block.
  predicate AskedAt(blks: seq<Block>, k: nat, i: nat, j: nat, item: Item) {
    && k < |blks| && i < |blks[k].txs| && j < |blks[k].txs[i].logs|
    && AsksFor(blks[k].txs[i].logs[j], item) && item.height == blks[k].number
  }

  lemma TailIs(topic: string, addr: string)
    ensures IsTail(addr, topic) <==> addr == AddressOf(topic)
  {
  }

  lemma {:induction false} LogsAsk(logs: seq<EventLog>, num: nat, item: Item)
    ensures item in ItemsOfLogs(logs, num) <==>
            item.height == num && exists j :: 0 <= j < |logs| && AsksFor(logs[j], item)
  {
    if logs != [] {
      var rest := logs[1..];
      LogsAsk(rest, num, item);
      TailIs(logs[0].topic1, item.key.addr);
      TailIs(logs[0].topic2, item.key.addr);
      assert forall j :: 0 <= j < |rest| ==> rest[j] == logs[j + 1];
      assert forall j :: 0 < j < |logs| ==> logs[j] == rest[j - 1];
      if item in ItemsOfLogs(rest, num) {
        var j :| 0 <= j < |rest| && AsksFor(rest[j], item);
        assert AsksFor(logs[j + 1], item);
      }
    }
  }

  lemma {:induction false} TxsAsk(txs: seq<Tx>, num: nat, item: Item)
    ensures item in ItemsOfTxs(txs, num) <==>
            item.height == num
            && exists i, j :: 0 <= i < |txs| && 0 <= j < |txs[i].logs| && AsksFor(txs[i].logs[j], item)
  {
    if txs != [] {
      hide AsksFor, ItemsOfLogs;
      var rest := txs[1..];
      LogsAsk(txs[0].logs, num, item);
      TxsAsk(rest, num, item);
      assert forall i :: 0 <= i < |rest| ==> rest[i] == txs[i + 1];
      assert forall i :: 0 < i < |txs| ==> txs[i] == rest[i - 1];
    }
  }

  // A batch queues exactly the senders and receivers of the transfer logs of its blocks, at the heights of the blocks,
  // except for transfers of a multiple of 2^64 units.
  lemma {:induction false} BatchAsks(blks: seq<Block>, item: Item)
    ensures item in ItemsOf(blks) <==> exists k: nat, i: nat, j: nat :: AskedAt(blks, k, i, j, item)
  {
    if blks != [] {
      hide AsksFor, ItemsOfTxs;
      var rest := blks[1..];
      TxsAsk(blks[0].txs, blks[0].number, item);
      BatchAsks(rest, item);
      if item in ItemsOfTxs(blks[0].txs, blks[0].number) {
        var i, j :| 0 <= i < |blks[0].txs| && 0 <= j < |blks[0].txs[i].logs| && AsksFor(blks[0].txs[i].logs[j], item);
        assert AskedAt(blks, 0, i, j, item);
      }
      if item in ItemsOf(rest) {
        var k: nat, i: nat, j: nat :| AskedAt(rest, k, i, j, item);
        assert AskedAt(blks, k + 1, i, j, item);
      }
      if k: nat, i: nat, j: nat :| AskedAt(blks, k, i, j, item) {
        assert k > 0 ==> AskedAt(rest, k - 1, i, j, item);
      }
    }
  }

  // The items of a batch are no higher than its last block.
  predicate Ascending(blks: seq<Block>) {
    forall i {:trigger blks[i]} :: 0 <= i < |blks| ==> blks[i].number <= blks[|blks| - 1].number
  }

  lemma {:induction false} LogItems(logs: seq<EventLog>, num: nat, item: Item)
    requires item in ItemsOfLogs(logs, num)
    ensures item.height == num
  {
    if item !in ItemsOfLogs(logs[1..], num) {
      assert item.height == num;
    } else {
      LogItems(logs[1..], num, item);
    }
  }

  lemma {:induction false} TxItems(txs: seq<Tx>, num: nat, item: Item)
    requires item in ItemsOfTxs(txs, num)
    ensures item.height == num
  {
    if item in ItemsOfLogs(txs[0].logs, num) {
      LogItems(txs[0].logs, num, item);
    } else {
      TxItems(txs[1..], num, item);
    }
  }

  lemma {:induction false} ItemHeights(blks: seq<Block>, top: nat, item: Item)
    requires item in ItemsOf(blks) && forall i {:trigger blks[i]} :: 0 <= i < |blks| ==> blks[i].number <= top
    ensures item.height <= top
  {
    if item in ItemsOfTxs(blks[0].txs, blks[0].number) {
      TxItems(blks[0].txs, blks[0].number, item);
    } else {
      ItemHeights(blks[1..], top, item);
    }
  }
}
