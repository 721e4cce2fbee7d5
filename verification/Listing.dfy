/** What it means that a table has a row for each thing of its kind in the blocks, in their order, and no other. */
module Listing {
  import opened Chain
  import opened Table
  import Seqs

  // A place in a block: the j-th part of its i-th part, as the j-th log of the i-th transaction.
  datatype Cell = Cell(i: nat, j: nat)

  predicate Precedes(a: Cell, b: Cell) {
    a.i < b.i || (a.i == b.i && a.j < b.j)
  }

  // vals[k] is what the block has at cells[k], and the cells are all those at which it has something, in their order.
  ghost predicate ListsAt<T(!new)>(vals: seq<T>, b: Block, has: (Block, Cell, T) -> bool, cells: seq<Cell>) {
    && |cells| == |vals|
    && (forall k, l :: 0 <= k < l < |cells| ==> Precedes(cells[k], cells[l]))
    && (forall k :: 0 <= k < |cells| ==> has(b, cells[k], vals[k]))
    && (forall c, v :: has(b, c, v) ==> c in cells)
  }

  ghost predicate Lists<T(!new)>(vals: seq<T>, b: Block, has: (Block, Cell, T) -> bool) {
    exists cells :: ListsAt(vals, b, has, cells)
  }

  // ------------------------------------------------------------------ rows of a chain

  predicate IsOk<T>(r: Row<T>) {
    r.state == Ok
  }

  function OkRows<T(!new)>(t: Rows<T>): Rows<T> {
    Seqs.Filter(IsOk, t)
  }

  lemma {:induction false} LiveIsOk<T(!new)>(t: Rows<T>)
    ensures Live(t) == OkRows(t)
  {
    if t != [] {
      var n := |t| - 1;
      LiveIsOk(t[..n]);
      Seqs.FilterConcat(IsOk, t[..n], [t[n]]);
      Seqs.FilterCons(IsOk, t[n], []);
      assert t == t[..n] + [t[n]] && [t[n]] + [] == [t[n]];
    }
  }

  datatype Place = Place(blk: nat, cell: Cell)

  predicate Earlier(p: Place, q: Place) {
    p.blk < q.blk || (p.blk == q.blk && Precedes(p.cell, q.cell))
  }

  // The row is the one of what the blocks have at the place.
  predicate RowAt<T>(r: Row<T>, blocks: seq<Block>, has: (Block, Cell, T) -> bool, p: Place) {
    p.blk < |blocks| && r.num == blocks[p.blk].number && r.state == Ok && has(blocks[p.blk], p.cell, r.val)
  }

  // Each row is the one of its place, and every place at which the blocks have something is among them.
  ghost predicate Covers<T(!new)>(rows: Rows<T>, blocks: seq<Block>, has: (Block, Cell, T) -> bool,
          places: seq<Place>) {
    && |places| == |rows|
    && (forall k :: 0 <= k < |rows| ==> RowAt(rows[k], blocks, has, places[k]))
    && (forall p, r: Row<T> :: RowAt(r, blocks, has, p) ==> p in places)
  }

  ghost predicate InOrder(places: seq<Place>) {
    forall k, l :: 0 <= k < l < |places| ==> Earlier(places[k], places[l])
  }

  // One ok row for each thing the blocks have, in the order of the blocks, and no other.
  ghost predicate RowsInOrder<T(!new)>(rows: Rows<T>, blocks: seq<Block>, has: (Block, Cell, T) -> bool) {
    exists places :: Covers(rows, blocks, has, places) && InOrder(places)
  }

  // The same, in any order.
  ghost predicate RowsOnce<T(!new)>(rows: Rows<T>, blocks: seq<Block>, has: (Block, Cell, T) -> bool) {
    exists ordered: Rows<T> :: multiset(ordered) == multiset(rows) && RowsInOrder(ordered, blocks, has)
  }

  // The places of the last block's rows.
  function PlacesOf(blk: nat, cells: seq<Cell>): (r: seq<Place>)
    ensures |r| == |cells| && forall k {:trigger r[k]} :: 0 <= k < |r| ==> r[k] == Place(blk, cells[k])
  {
    seq(|cells|, k requires 0 <= k < |cells| => Place(blk, cells[k]))
  }

  // If pick lists what each block has, the rows of a chain are one for each thing its blocks have.
  lemma {:induction false} PartInOrder<T(!new)>(pick: Block -> seq<T>, blocks: seq<Block>,
          has: (Block, Cell, T) -> bool)
    requires forall b :: b in blocks ==> Lists(pick(b), b, has)
    ensures RowsInOrder(Part(pick, blocks), blocks, has)
  {
    if blocks == [] {
      assert Covers(Part(pick, blocks), blocks, has, []);
    } else {
      var n := |blocks| - 1;
      var less, last := blocks[..n], blocks[n];
      PartInOrder(pick, less, has);
      var places :| Covers(Part(pick, less), less, has, places) && InOrder(places);
      var cells :| ListsAt(pick(last), last, has, cells);
      CoversMore(Part(pick, less), less, has, places, last, pick(last), cells);
      assert less + [last] == blocks;
      assert InOrder(places + PlacesOf(n, cells));
    }
  }

  lemma CoversMore<T(!new)>(rows: Rows<T>, less: seq<Block>, has: (Block, Cell, T) -> bool, places: seq<Place>,
          last: Block, vals: seq<T>, cells: seq<Cell>)
    requires Covers(rows, less, has, places) && InOrder(places) && ListsAt(vals, last, has, cells)
    ensures Covers(rows + RowsOf(last.number, vals), less + [last], has, places + PlacesOf(|less|, cells))
    ensures InOrder(places + PlacesOf(|less|, cells))
  {
    var rows', blocks, places' := rows + RowsOf(last.number, vals), less + [last],
        places + PlacesOf(|less|, cells);
    forall k | 0 <= k < |rows'| ensures RowAt(rows'[k], blocks, has, places'[k]) {
      if k < |rows| {
        assert RowAt(rows[k], less, has, places[k]);
      } else {
        assert has(last, cells[k - |rows|], vals[k - |rows|]);
      }
    }
    forall p, r: Row<T> | RowAt(r, blocks, has, p) ensures p in places' {
      if p.blk < |less| {
        assert RowAt(r, less, has, p);
      } else {
        assert has(last, p.cell, r.val);
        var k :| 0 <= k < |cells| && cells[k] == p.cell;
        assert places'[|places| + k] == p;
      }
    }
    forall k, l | 0 <= k < l < |places'| ensures Earlier(places'[k], places'[l]) {
      if k < |places| {
        assert RowAt(rows[k], less, has, places[k]);
      }
    }
  }

  // ------------------------------------------------------------------ what is made of a block's logs

  // One value for some of the logs, log by log and transaction by transaction.
  function FlatTx<T>(make: (Hash, EventLog) -> seq<T>, hash: Hash, logs: seq<EventLog>): seq<T> {
    if logs == [] then [] else make(hash, logs[0]) + FlatTx(make, hash, logs[1..])
  }

  function Flat<T>(make: (Hash, EventLog) -> seq<T>, txs: seq<Tx>): seq<T> {
    if txs == [] then [] else FlatTx(make, txs[0].hash, txs[0].logs) + Flat(make, txs[1..])
  }

  ghost predicate AtMostOne<T(!new)>(make: (Hash, EventLog) -> seq<T>) {
    forall h: Hash, l: EventLog :: |make(h, l)| <= 1
  }

  predicate MadeOf<T(==)>(make: (Hash, EventLog) -> seq<T>, hash: Hash, logs: seq<EventLog>, j: nat, v: T) {
    j < |logs| && make(hash, logs[j]) == [v]
  }

  // The value is made of the log at the cell.
  predicate MadeAt<T(==)>(make: (Hash, EventLog) -> seq<T>, txs: seq<Tx>, c: Cell, v: T) {
    c.i < |txs| && MadeOf(make, txs[c.i].hash, txs[c.i].logs, c.j, v)
  }

  ghost predicate TxCells<T(!new)>(make: (Hash, EventLog) -> seq<T>, hash: Hash, logs: seq<EventLog>, vals: seq<T>,
          js: seq<nat>) {
    && |js| == |vals|
    && (forall k, l :: 0 <= k < l < |js| ==> js[k] < js[l])
    && (forall k :: 0 <= k < |js| ==> MadeOf(make, hash, logs, js[k], vals[k]))
    && (forall j: nat, v: T :: MadeOf(make, hash, logs, j, v) ==> j in js)
  }

  ghost predicate TxsCells<T(!new)>(make: (Hash, EventLog) -> seq<T>, txs: seq<Tx>, vals: seq<T>, cells: seq<Cell>) {
    && |cells| == |vals|
    && (forall k, l :: 0 <= k < l < |cells| ==> Precedes(cells[k], cells[l]))
    && (forall k :: 0 <= k < |cells| ==> MadeAt(make, txs, cells[k], vals[k]))
    && (forall c: Cell, v: T :: MadeAt(make, txs, c, v) ==> c in cells)
  }

  // The positions one log further on.
  function Next(js: seq<nat>): (r: seq<nat>)
    ensures |r| == |js| && forall k {:trigger r[k]} :: 0 <= k < |r| ==> r[k] == js[k] + 1
  {
    seq(|js|, k requires 0 <= k < |js| => js[k] + 1)
  }

  lemma MadeNext<T>(make: (Hash, EventLog) -> seq<T>, hash: Hash, logs: seq<EventLog>, j: nat, v: T)
    requires logs != []
    ensures MadeOf(make, hash, logs, j + 1, v) <==> MadeOf(make, hash, logs[1..], j, v)
  {
  }

  lemma NextIn(js: seq<nat>, j: nat)
    requires j in js
    ensures j + 1 in Next(js)
  {
    var k :| 0 <= k < |js| && js[k] == j;
    assert Next(js)[k] == j + 1;
  }

  // A log of which nothing is made.
  lemma TxCellsSkip<T(!new)>(make: (Hash, EventLog) -> seq<T>, hash: Hash, logs: seq<EventLog>, vals: seq<T>,
          js: seq<nat>)
    requires logs != [] && make(hash, logs[0]) == [] && TxCells(make, hash, logs[1..], vals, js)
    ensures TxCells(make, hash, logs, vals, Next(js))
  {
    hide MadeOf;
    var next := Next(js);
    forall k | 0 <= k < |next| ensures MadeOf(make, hash, logs, next[k], vals[k]) {
      MadeNext(make, hash, logs, js[k], vals[k]);
    }
    forall j: nat, v: T | MadeOf(make, hash, logs, j, v) ensures j in next {
      assert j != 0 by {
        NotMade(make, hash, logs, v);
      }
      MadeNext(make, hash, logs, j - 1, v);
      NextIn(js, j - 1);
    }
  }

  lemma NotMade<T>(make: (Hash, EventLog) -> seq<T>, hash: Hash, logs: seq<EventLog>, v: T)
    requires logs != []
    ensures MadeOf(make, hash, logs, 0, v) <==> make(hash, logs[0]) == [v]
  {
  }

  // A log of which one value is made.
  lemma TxCellsTake<T(!new)>(make: (Hash, EventLog) -> seq<T>, hash: Hash, logs: seq<EventLog>, first: T, vals: seq<T>,
          js: seq<nat>)
    requires logs != [] && make(hash, logs[0]) == [first] && TxCells(make, hash, logs[1..], vals, js)
    ensures TxCells(make, hash, logs, [first] + vals, [0] + Next(js))
  {
    hide MadeOf;
    var next, vals' := [0] + Next(js), [first] + vals;
    forall k | 0 <= k < |next| ensures MadeOf(make, hash, logs, next[k], vals'[k]) {
      if k == 0 {
        NotMade(make, hash, logs, first);
      } else {
        MadeNext(make, hash, logs, js[k - 1], vals[k - 1]);
      }
    }
    forall j: nat, v: T | MadeOf(make, hash, logs, j, v) ensures j in next {
      if j == 0 {
        assert next[0] == 0;
      } else {
        MadeNext(make, hash, logs, j - 1, v);
        NextIn(js, j - 1);
      }
    }
  }

  lemma {:induction false} FlatTxCells<T(!new)>(make: (Hash, EventLog) -> seq<T>, hash: Hash, logs: seq<EventLog>)
    returns (js: seq<nat>)
    requires AtMostOne(make)
    ensures TxCells(make, hash, logs, FlatTx(make, hash, logs), js)
  {
    if logs == [] {
      js := [];
    } else {
      var first, vals := make(hash, logs[0]), FlatTx(make, hash, logs[1..]);
      assert |first| <= 1;
      var tail := FlatTxCells(make, hash, logs[1..]);
      hide TxCells;
      if first == [] {
        TxCellsSkip(make, hash, logs, vals, tail);
        assert first + vals == vals;
        js := Next(tail);
      } else {
        assert first == [first[0]];
        TxCellsTake(make, hash, logs, first[0], vals, tail);
        js := [0] + Next(tail);
      }
    }
  }

  function InFirst(js: seq<nat>): (r: seq<Cell>)
    ensures |r| == |js| && forall k {:trigger r[k]} :: 0 <= k < |r| ==> r[k] == Cell(0, js[k])
  {
    seq(|js|, k requires 0 <= k < |js| => Cell(0, js[k]))
  }

  function InRest(cells: seq<Cell>): (r: seq<Cell>)
    ensures |r| == |cells| && forall k {:trigger r[k]} :: 0 <= k < |r| ==> r[k] == Cell(cells[k].i + 1, cells[k].j)
  {
    seq(|cells|, k requires 0 <= k < |cells| => Cell(cells[k].i + 1, cells[k].j))
  }

  lemma TxsCellsCons<T(!new)>(make: (Hash, EventLog) -> seq<T>, txs: seq<Tx>, first: seq<T>, js: seq<nat>, vals: seq<T>,
          cells: seq<Cell>)
    requires txs != [] && TxCells(make, txs[0].hash, txs[0].logs, first, js) && TxsCells(make, txs[1..], vals, cells)
    ensures TxsCells(make, txs, first + vals, InFirst(js) + InRest(cells))
  {
    hide MadeOf;
    var all, vals' := InFirst(js) + InRest(cells), first + vals;
    forall k | 0 <= k < |all| ensures MadeAt(make, txs, all[k], vals'[k]) {
      if |js| <= k {
        assert MadeAt(make, txs[1..], cells[k - |js|], vals[k - |js|]);
      }
    }
    forall c: Cell, v: T | MadeAt(make, txs, c, v) ensures c in all {
      if c.i == 0 {
        var k :| 0 <= k < |js| && js[k] == c.j;
        assert all[k] == c;
      } else {
        assert MadeAt(make, txs[1..], Cell(c.i - 1, c.j), v);
        var k :| 0 <= k < |cells| && cells[k] == Cell(c.i - 1, c.j);
        assert all[|js| + k] == c;
      }
    }
  }

  lemma {:induction false} FlatCells<T(!new)>(make: (Hash, EventLog) -> seq<T>, txs: seq<Tx>) returns (cells: seq<Cell>)
    requires AtMostOne(make)
    ensures TxsCells(make, txs, Flat(make, txs), cells)
  {
    if txs == [] {
      cells := [];
    } else {
      hide TxCells, TxsCells, FlatTx;
      var js := FlatTxCells(make, txs[0].hash, txs[0].logs);
      var tail := FlatCells(make, txs[1..]);
      TxsCellsCons(make, txs, FlatTx(make, txs[0].hash, txs[0].logs), js, Flat(make, txs[1..]), tail);
      cells := InFirst(js) + InRest(tail);
    }
  }

  // If the block has at a cell exactly what is made of the log there, the values made of its logs list what it has.
  lemma FlatLists<T(!new)>(make: (Hash, EventLog) -> seq<T>, b: Block, has: (Block, Cell, T) -> bool)
    requires AtMostOne(make)
    requires forall c: Cell, v: T :: has(b, c, v) <==> MadeAt(make, b.txs, c, v)
    ensures Lists(Flat(make, b.txs), b, has)
  {
    var cells := FlatCells(make, b.txs);
    assert ListsAt(Flat(make, b.txs), b, has, cells);
  }
}
