/** The ERC-721 task as the program runs it: chunked saves in two transactions, and the update by first sender. */
module Erc721 {
  import opened Chain
  import opened Table
  import opened Erc721Spec
  import AsyncTheorems

  datatype Store = Store(rows: Rows<Nft>, owners: Owners)

  // The store after the given blocks.
  function Saved(s: Store, blks: seq<Block>): Store {
    Store(s.rows + Part(Nfts, blks), ApplyAll(s.owners, blks))
  }

  // In the source the keys of one map are contract and token id run together.
  function Joined(t: Token): string {
    t.contract + t.id
  }

  predicate FixedLength(ts: seq<Nft>) {
    forall i {:trigger ts[i]} :: 0 <= i < |ts| ==> |ts[i].token.contract| == 42
  }

  lemma JoinedInjective(a: Token, b: Token)
    requires |a.contract| == |b.contract| && Joined(a) == Joined(b)
    ensures a == b
  {
    assert a.contract == Joined(a)[..|a.contract|] && b.contract == Joined(b)[..|b.contract|];
    assert a.id == Joined(a)[|a.contract|..] && b.id == Joined(b)[|b.contract|..];
  }

  class Erc721Task {
    const maxBlocks: nat
    const maxTxs: nat
    const sqlBatch: nat
    const retryTimes: nat
    // Whether the n-th transaction fails.
    const fails: nat -> bool

    var store: Store
    var number: nat
    var curHeight: nat
    var clock: nat

    constructor (maxBlocks: nat, maxTxs: nat, sqlBatch: nat, retryTimes: nat, fails: nat -> bool, store: Store,
            number: nat)
      ensures this.store == store && this.number == curHeight == number && this.sqlBatch == sqlBatch
    {
      this.maxBlocks, this.maxTxs, this.sqlBatch, this.retryTimes, this.fails := maxBlocks, maxTxs, sqlBatch,
          retryTimes, fails;
      this.store, this.number, curHeight, clock := store, number, number, 0;
    }

    // No transaction ever fails.
    ghost predicate Healthy() {
      forall n: nat :: !fails(n)
    }

    // Whether a transaction goes through before its retries run out.
    method Commits() returns (ok: bool)
      modifies this`clock
      ensures Healthy() ==> ok
    {
      var inc := 0;
      while true
        invariant inc <= retryTimes && clock >= old(clock)
        decreases retryTimes - inc
      {
        var err := fails(clock);
        clock := clock + 1;
        if !err {
          return true;
        }
        inc := inc + 1;
        if inc > retryTimes {
          return false;
        }
      }
    }

    method ParseTx(tx: Tx) returns (found: seq<Nft>)
      ensures found == NftsOfTx(tx.hash, tx.logs)
    {
      found := [];
      var j := 0;
      assert tx.logs[0..] == tx.logs;
      while j < |tx.logs|
        invariant 0 <= j <= |tx.logs| && found + NftsOfTx(tx.hash, tx.logs[j..]) == NftsOfTx(tx.hash, tx.logs)
      {
        var l := tx.logs[j];
        assert tx.logs[j..][0] == l && tx.logs[j..][1..] == tx.logs[j + 1..];
        if IsErc721Tx(l) {
          found := found + [Nft(tx.hash, Token(l.addr, l.topic3), l.topic1, l.topic2, l.index)];
        }
        j := j + 1;
      }
    }

    method Parse(b: Block) returns (found: seq<Nft>)
      ensures found == Nfts(b)
    {
      found := [];
      var i := 0;
      assert b.txs[0..] == b.txs;
      while i < |b.txs|
        invariant 0 <= i <= |b.txs| && found + NftsOf(b.txs[i..]) == Nfts(b)
      {
        assert b.txs[i..][0] == b.txs[i] && b.txs[i..][1..] == b.txs[i + 1..];
        var more := ParseTx(b.txs[i]);
        found := found + more;
        i := i + 1;
      }
    }

    // One statement: row after row.
    method Statement(rows: Rows<Nft>, owners: Owners) returns (r: Owners)
      ensures r == TakeRows(owners, rows)
    {
      r := owners;
      var j := 0;
      assert rows[..0] == [];
      while j < |rows|
        invariant 0 <= j <= |rows| && r == TakeRows(owners, rows[..j])
      {
        assert rows[..j + 1][..j] == rows[..j];
        r := Give(r, rows[j].val, rows[j].num);
        j := j + 1;
      }
      assert rows[..|rows|] == rows;
    }

    // Upserts the tokens, at most sqlBatch rows to a statement.
    method InsertTokens(rows: Rows<Nft>, owners: Owners) returns (r: Owners)
      requires 1 <= sqlBatch
      ensures r == TakeRows(owners, rows)
    {
      r := owners;
      var i := 0;
      assert rows[..0] == [];
      while i < |rows|
        invariant 0 <= i <= |rows| && r == TakeRows(owners, rows[..i])
      {
        var end := i + sqlBatch;
        if end > |rows| {
          end := |rows|;
        }
        TakeRowsConcat(owners, rows[..i], rows[i..end]);
        assert rows[..end] == rows[..i] + rows[i..end];
        r := Statement(rows[i..end], r);
        i := end;
      }
      assert rows[..|rows|] == rows;
    }

    // The rows of a chunk in one transaction, and then the task's number in another.
    method SaveChunk(rows: Rows<Nft>, height: nat) returns (alive: bool, ghost saved: bool)
      requires 1 <= sqlBatch
      modifies this`store, this`number, this`curHeight, this`clock
      ensures alive ==> saved
      ensures store == if saved then Store(old(store).rows + rows, TakeRows(old(store).owners, rows)) else old(store)
      ensures number == if alive then height else old(number)
      ensures curHeight == if alive then height else old(curHeight)
      ensures Healthy() ==> alive
    {
      var owners := InsertTokens(rows, store.owners);
      alive := Commits();
      saved := alive;
      if alive {
        store := Store(store.rows + rows, owners);
        alive := Commits();
      }
      if alive {
        number, curHeight := height, height;
      }
    }

    // Writes and marks the pending rows of blocks m..i.
    method WriteChunk(blks: seq<Block>, ghost m: nat, i: nat, rows: Rows<Nft>, ghost s0: Store, ghost n0: nat,
            ghost c0: nat)
      returns (alive: bool, ghost m': nat)
      requires 1 <= sqlBatch && m < i <= |blks| && Pending(blks, m, i, rows)
      requires Written(s0, n0, c0, blks[..m], store, number, curHeight)
      modifies this`store, this`number, this`curHeight, this`clock
      ensures if alive then
                m' == i && Written(s0, n0, c0, blks[..i], store, number, curHeight) && Pending(blks, i, i, [])
              else
                && (m' == m || m' == i) && store == Saved(s0, blks[..m'])
                && number == LastOf(n0, blks[..m]) && curHeight == LastOf(c0, blks[..m])
      ensures Healthy() ==> alive
    {
      hide Written, Pending, TakeRows, Healthy, Saved, LastOf;
      ghost var saved;
      ghost var s1, n1, c1 := store, number, curHeight;
      alive, saved := SaveChunk(rows, blks[i - 1].number);
      if alive {
        ChunkSaved(s0, n0, c0, blks, m, i, rows, s1, n1, c1, store);
        m' := i;
      } else {
        StoppedAt(s0, n0, c0, blks, m, i, rows, s1, n1, c1, store, saved);
        m' := if saved then i else m;
      }
    }

    // Blocks a..b are no more than one chunk: without the last of them they reach neither limit.
    ghost predicate OneChunk(blks: seq<Block>, a: nat, b: nat)
      requires a <= b <= |blks|
    {
      b <= a + 1 || (b - 1 - a < maxBlocks && |Part(Nfts, blks[a..b - 1])| < maxTxs)
    }

    // Writes the blocks chunk by chunk. A failure leaves the first m blocks written, and the task's number at most
    // one chunk behind.
    method HandleBlocks(blks: seq<Block>) returns (alive: bool, ghost m: nat, ghost marked: nat)
      requires 1 <= sqlBatch && blks != []
      modifies this`store, this`number, this`curHeight, this`clock
      ensures marked <= m <= |blks| && OneChunk(blks, marked, m) && store == Saved(old(store), blks[..m])
      ensures number == LastOf(old(number), blks[..marked]) && curHeight == LastOf(old(curHeight), blks[..marked])
      ensures alive ==> marked == m == |blks|
      ensures Healthy() ==> alive
    {
      var rows: Rows<Nft> := [];
      var blkCount := 0;
      m := 0;
      var i := 0;
      ghost var s0, n0, c0 := store, number, curHeight;
      Begin(store, number, curHeight, blks);
      hide Written, Pending, TakeRows, RowsOf, Healthy, Saved, Part, ApplyAll, LastOf;
      while i < |blks|
        invariant 0 <= m <= i <= |blks| && blkCount == i - m && (i == |blks| ==> m == i)
        invariant Written(s0, n0, c0, blks[..m], store, number, curHeight) && Pending(blks, m, i, rows)
        invariant m < i ==> blkCount < maxBlocks && |rows| < maxTxs
      {
        assert OneChunk(blks, m, i + 1) by {
          PendingRows(blks, m, i, rows);
        }
        blkCount := blkCount + 1;
        var found := Parse(blks[i]);
        NextRows(blks, m, i, rows);
        rows := rows + RowsOf(blks[i].number, found);
        if blkCount >= maxBlocks || |rows| >= maxTxs || i == |blks| - 1 {
          marked := m;
          alive, m := WriteChunk(blks, m, i + 1, rows, s0, n0, c0);
          if !alive {
            return;
          }
          blkCount := 0;
          rows := [];
        }
        i := i + 1;
      }
      Finished(s0, n0, c0, blks, store, number, curHeight);
      alive, marked := true, m;
    }

    // Every token the block transferred goes back to the sender of its first transfer in the block.
    method RevertOwners(ts: seq<Nft>, owners: Owners) returns (r: Owners)
      requires FixedLength(ts)
      ensures r == Undo(owners, ts)
    {
      var senderMap: map<string, string> := map[];
      var tokens: seq<Token> := [];
      var i := 0;
      while i < |ts|
        invariant 0 <= i <= |ts|
        invariant Seen(ts[..i], tokens, senderMap)
      {
        SeeNext(ts, i, tokens, senderMap);
        if Joined(ts[i].token) !in senderMap {
          senderMap := senderMap[Joined(ts[i].token) := ts[i].sender];
          tokens := tokens + [ts[i].token];
        }
        i := i + 1;
      }
      assert ts[..|ts|] == ts;
      r := owners;
      i := 0;
      while i < |tokens|
        invariant 0 <= i <= |tokens|
        invariant Updated(owners, ts, tokens[..i], r)
      {
        UpdateNext(owners, ts, tokens, i, senderMap, r);
        r := SetOwner(r, tokens[i], senderMap[Joined(tokens[i])]);
        i := i + 1;
      }
      assert tokens[..|tokens|] == tokens;
      UpdatedAll(owners, ts, tokens, senderMap, r);
    }

    method DoRevert(b: Block) returns (alive: bool)
      requires FixedLength(Nfts(b))
      modifies this`store, this`number, this`clock
      ensures if alive then
                && store == Store(Flip(old(store).rows, b.number), Undo(old(store).owners, Nfts(b)))
                && number == Sub64(b.number, 1)
              else store == old(store) && number == old(number)
      ensures Healthy() ==> alive
    {
      var ts := Parse(b);
      var owners := RevertOwners(ts, store.owners);
      alive := Commits();
      if alive {
        store, number := Store(Flip(store.rows, b.number), owners), Sub64(b.number, 1);
      }
    }
  }

  // The number of the last block, or the given one without blocks.
  function LastOf(number: nat, blks: seq<Block>): nat {
    if blks == [] then number else blks[|blks| - 1].number
  }

  // The given blocks are written and marked.
  ghost predicate Written(s0: Store, n0: nat, c0: nat, blks: seq<Block>, s: Store, number: nat, cur: nat) {
    s == Saved(s0, blks) && number == LastOf(n0, blks) && cur == LastOf(c0, blks)
  }

  // The rows of blocks m..i are waiting to be written.
  ghost predicate Pending(blks: seq<Block>, m: nat, i: nat, rows: Rows<Nft>) {
    m <= i <= |blks| && rows == Part(Nfts, blks[m..i])
  }

  lemma Begin(s: Store, number: nat, cur: nat, blks: seq<Block>)
    ensures Written(s, number, cur, blks[..0], s, number, cur) && Pending(blks, 0, 0, [])
  {
  }

  lemma NextRows(blks: seq<Block>, m: nat, i: nat, rows: Rows<Nft>)
    requires Pending(blks, m, i, rows) && i < |blks|
    ensures Pending(blks, m, i + 1, rows + RowsOf(blks[i].number, Nfts(blks[i])))
  {
    assert blks[m..i + 1][..i - m] == blks[m..i];
  }

  lemma PendingRows(blks: seq<Block>, m: nat, i: nat, rows: Rows<Nft>)
    requires Pending(blks, m, i, rows)
    ensures m <= i <= |blks| && rows == Part(Nfts, blks[m..i])
  {
  }

  lemma MoreSaved(s0: Store, blks: seq<Block>, m: nat, i: nat)
    requires m <= i <= |blks|
    ensures var s := Saved(s0, blks[..m]); var rows := Part(Nfts, blks[m..i]);
            Saved(s0, blks[..i]) == Store(s.rows + rows, TakeRows(s.owners, rows))
  {
    var a, rows := Part(Nfts, blks[..m]), Part(Nfts, blks[m..i]);
    AsyncTheorems.PartConcat(Nfts, blks[..m], blks[m..i]);
    assert blks[..i] == blks[..m] + blks[m..i];
    assert s0.rows + a + rows == s0.rows + (a + rows);
    RowsApplyAll(s0.owners, blks[..m]);
    RowsApplyAll(s0.owners, blks[..i]);
    TakeRowsConcat(s0.owners, a, rows);
  }

  // One more chunk written and marked.
  lemma ChunkSaved(s0: Store, n0: nat, c0: nat, blks: seq<Block>, m: nat, i: nat, rows: Rows<Nft>, s: Store, n: nat,
          c: nat, s': Store)
    requires m <= i <= |blks| && Written(s0, n0, c0, blks[..m], s, n, c) && Pending(blks, m, i, rows) && m < i
    requires s' == Store(s.rows + rows, TakeRows(s.owners, rows))
    ensures Written(s0, n0, c0, blks[..i], s', blks[i - 1].number, blks[i - 1].number) && Pending(blks, i, i, [])
  {
    hide Part, TakeRows, Saved;
    MoreSaved(s0, blks, m, i);
    NoRows(blks, i);
  }

  lemma NoRows(blks: seq<Block>, i: nat)
    requires i <= |blks|
    ensures Part(Nfts, blks[i..i]) == []
  {
  }

  // A chunk that was not marked, and perhaps not written.
  lemma StoppedAt(s0: Store, n0: nat, c0: nat, blks: seq<Block>, m: nat, i: nat, rows: Rows<Nft>, s: Store, n: nat,
          c: nat, s': Store, saved: bool)
    requires m <= i <= |blks| && Written(s0, n0, c0, blks[..m], s, n, c) && Pending(blks, m, i, rows)
    requires s' == if saved then Store(s.rows + rows, TakeRows(s.owners, rows)) else s
    ensures n == LastOf(n0, blks[..m]) && c == LastOf(c0, blks[..m]) && s' == Saved(s0, blks[..if saved then i else m])
  {
    hide Part, TakeRows, Saved;
    MoreSaved(s0, blks, m, i);
  }

  lemma Finished(s0: Store, n0: nat, c0: nat, blks: seq<Block>, s: Store, n: nat, c: nat)
    requires Written(s0, n0, c0, blks[..|blks|], s, n, c)
    ensures s == Saved(s0, blks[..|blks|]) && n == LastOf(n0, blks[..|blks|]) && c == LastOf(c0, blks[..|blks|])
  {
  }

  // ------------------------------------------------------------------ the first senders

  predicate SeenAt(ts: seq<Nft>, tokens: seq<Token>, senders: map<string, string>, i: nat) {
    i < |tokens| ==>
      && Names(ts, tokens[i]) && Joined(tokens[i]) in senders
      && senders[Joined(tokens[i])] == FirstSender(ts, tokens[i])
  }

  // The tokens of the transfers, each once, and the sender of each one's first transfer.
  ghost predicate Seen(ts: seq<Nft>, tokens: seq<Token>, senders: map<string, string>) {
    && (forall i: nat :: SeenAt(ts, tokens, senders, i))
    && (forall t: Token :: Listed(ts, tokens, t))
    && (forall k {:trigger k in senders} :: k in senders ==> exists i :: 0 <= i < |tokens| && Joined(tokens[i]) == k)
  }

  predicate Listed(ts: seq<Nft>, tokens: seq<Token>, t: Token) {
    Names(ts, t) ==> t in tokens
  }

  lemma {:induction false} FirstSenderMore(ts: seq<Nft>, t: Nft, token: Token)
    ensures Names(ts + [t], token) <==> Names(ts, token) || t.token == token
    ensures Names(ts, token) ==> FirstSender(ts + [t], token) == FirstSender(ts, token)
    ensures !Names(ts, token) && t.token == token ==> FirstSender(ts + [t], token) == t.sender
    decreases |ts|
  {
    assert (ts + [t])[|ts|] == t;
    if Names(ts, token) {
      var i :| 0 <= i < |ts| && ts[i].token == token;
      assert (ts + [t])[i].token == token;
    }
    if ts != [] {
      assert (ts + [t])[1..] == ts[1..] + [t] && (ts + [t])[0] == ts[0];
      FirstSenderMore(ts[1..], t, token);
      if ts[0].token != token {
        NamesTail(ts, token);
      } else {
        assert Names(ts, token);
      }
    }
  }

  // Tokens whose keys run together are the same token, contract addresses having one length.
  lemma NamedKey(ts: seq<Nft>, a: Token, b: Token)
    requires FixedLength(ts) && Names(ts, a) && |b.contract| == 42 && Joined(a) == Joined(b)
    ensures a == b
  {
    JoinedInjective(a, b);
  }

  // What the loop over the transfers does with the next one.
  lemma SeeNext(ts: seq<Nft>, i: nat, tokens: seq<Token>, senders: map<string, string>)
    requires FixedLength(ts) && i < |ts| && Seen(ts[..i], tokens, senders)
    ensures var k := Joined(ts[i].token);
            if k in senders then Seen(ts[..i + 1], tokens, senders)
            else Seen(ts[..i + 1], tokens + [ts[i].token], senders[k := ts[i].sender])
  {
    hide Joined, FirstSender, Names;
    var t, k := ts[i].token, Joined(ts[i].token);
    var before, after := ts[..i], ts[..i + 1];
    assert after == before + [ts[i]];
    var tokens' := if k in senders then tokens else tokens + [t];
    var senders' := if k in senders then senders else senders[k := ts[i].sender];
    KeyKnown(ts, i, tokens, senders);
    forall j: nat ensures SeenAt(after, tokens', senders', j) {
      assert SeenAt(before, tokens, senders, j);
      if j < |tokens'| {
        FirstSenderMore(before, ts[i], tokens'[j]);
      }
    }
    forall x: Token ensures Listed(after, tokens', x) {
      assert Listed(before, tokens, x);
      FirstSenderMore(before, ts[i], x);
    }
    forall key | key in senders' ensures exists j :: 0 <= j < |tokens'| && Joined(tokens'[j]) == key {
      if key in senders {
        var j :| 0 <= j < |tokens| && Joined(tokens[j]) == key;
        assert Joined(tokens'[j]) == key;
      } else {
        assert Joined(tokens'[|tokens|]) == key;
      }
    }
  }

  // The next transfer's key is in the map exactly when its token was seen before.
  lemma KeyKnown(ts: seq<Nft>, i: nat, tokens: seq<Token>, senders: map<string, string>)
    requires FixedLength(ts) && i < |ts| && Seen(ts[..i], tokens, senders)
    ensures Joined(ts[i].token) in senders <==> Names(ts[..i], ts[i].token)
  {
    var t := ts[i].token;
    if Joined(t) in senders {
      var j :| 0 <= j < |tokens| && Joined(tokens[j]) == Joined(t);
      assert SeenAt(ts[..i], tokens, senders, j);
      NamedKey(ts[..i], tokens[j], t);
    }
    if Names(ts[..i], t) {
      assert Listed(ts[..i], tokens, t);
      var j :| 0 <= j < |tokens| && tokens[j] == t;
      assert SeenAt(ts[..i], tokens, senders, j);
    }
  }

  // The tokens done so far belong to their first senders, the others are as they were.
  ghost predicate Updated(owners: Owners, ts: seq<Nft>, done: seq<Token>, r: Owners) {
    forall t: Token :: UpdatedAt(owners, ts, done, r, t)
  }

  predicate UpdatedAt(owners: Owners, ts: seq<Nft>, done: seq<Token>, r: Owners, t: Token) {
    && (t in r <==> t in owners)
    && (t in owners ==>
          r[t] == if t in done && Names(ts, t) then owners[t].(owner := FirstSender(ts, t)) else owners[t])
  }

  lemma UpdateNext(owners: Owners, ts: seq<Nft>, tokens: seq<Token>, i: nat, senders: map<string, string>, r: Owners)
    requires i < |tokens| && Seen(ts, tokens, senders) && Updated(owners, ts, tokens[..i], r)
    ensures Joined(tokens[i]) in senders
    ensures Updated(owners, ts, tokens[..i + 1], SetOwner(r, tokens[i], senders[Joined(tokens[i])]))
  {
    assert SeenAt(ts, tokens, senders, i);
    var r' := SetOwner(r, tokens[i], senders[Joined(tokens[i])]);
    assert tokens[..i + 1] == tokens[..i] + [tokens[i]];
    var done := tokens[..i + 1];
    forall t: Token ensures UpdatedAt(owners, ts, done, r', t) {
      assert UpdatedAt(owners, ts, tokens[..i], r, t) && UpdatedAt(owners, ts, tokens[..i], r, tokens[i]);
    }
  }

  lemma UpdatedAll(owners: Owners, ts: seq<Nft>, tokens: seq<Token>, senders: map<string, string>, r: Owners)
    requires Seen(ts, tokens, senders) && Updated(owners, ts, tokens, r)
    ensures r == Undo(owners, ts)
  {
    var u := Undo(owners, ts);
    UndoKeys(owners, ts);
    forall t: Token ensures (t in r <==> t in u) && (t in r ==> r[t] == u[t]) {
      assert UpdatedAt(owners, ts, tokens, r, t) && Listed(ts, tokens, t);
      assert t in u.Keys <==> t in owners.Keys;
      if t in owners {
        UndoIsFirstSender(owners, ts, t);
      }
    }
    assert r.Keys == u.Keys;
  }
}
