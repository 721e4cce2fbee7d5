/** ERC-721 ownership: applying a block's transfers with upserts, and taking them back. */
module Erc721Spec {
  import opened Chain
  import opened Table
  import AsyncSpec
  import opened Listing

  const ZERO_ADDRESS: string := "0x0000000000000000000000000000000000000000"

  datatype Token = Token(contract: string, id: string)

  datatype Nft = Nft(txHash: Hash, token: Token, sender: string, receiver: string, logIndex: nat)

  datatype Owned = Owned(owner: string, height: nat)

  // The table token_erc721.
  type Owners = map<Token, Owned>

  // A Transfer log with four topics; the ERC-20 log of the same signature has three.
  predicate IsErc721Tx(l: EventLog) {
    l.topic0 == AsyncSpec.ERC20_TRANSFER && l.topic1 != "" && l.topic2 != "" && l.topic3 != ""
  }

  function NftsOfTx(hash: Hash, logs: seq<EventLog>): seq<Nft> {
    if logs == [] then []
    else
      var l := logs[0];
      (if IsErc721Tx(l) then [Nft(hash, Token(l.addr, l.topic3), l.topic1, l.topic2, l.index)] else [])
      + NftsOfTx(hash, logs[1..])
  }

  function NftsOf(txs: seq<Tx>): seq<Nft> {
    if txs == [] then [] else NftsOfTx(txs[0].hash, txs[0].logs) + NftsOf(txs[1..])
  }

  function Nfts(b: Block): seq<Nft> {
    NftsOf(b.txs)
  }

  // The j-th log of the i-th transaction is an ERC-721 transfer, and this is what it says.
  predicate HasNft(b: Block, c: Cell, t: Nft) {
    && c.i < |b.txs| && c.j < |b.txs[c.i].logs|
    && var l := b.txs[c.i].logs[c.j];
       && l.topic0 == AsyncSpec.ERC20_TRANSFER && l.topic1 != "" && l.topic2 != "" && l.topic3 != ""
       && t.txHash == b.txs[c.i].hash && t.token == Token(l.addr, l.topic3)
       && t.sender == l.topic1 && t.receiver == l.topic2 && t.logIndex == l.index
  }

  function NftOf(hash: Hash, l: EventLog): seq<Nft> {
    if IsErc721Tx(l) then [Nft(hash, Token(l.addr, l.topic3), l.topic1, l.topic2, l.index)] else []
  }

  lemma {:induction false} NftsOfTxFlat(hash: Hash, logs: seq<EventLog>)
    ensures NftsOfTx(hash, logs) == FlatTx(NftOf, hash, logs)
  {
    if logs != [] {
      NftsOfTxFlat(hash, logs[1..]);
    }
  }

  lemma {:induction false} NftsFlat(txs: seq<Tx>)
    ensures NftsOf(txs) == Flat(NftOf, txs)
  {
    if txs != [] {
      NftsOfTxFlat(txs[0].hash, txs[0].logs);
      NftsFlat(txs[1..]);
    }
  }

  // The transfers of a block: one for each ERC-721 transfer log of each transaction, in their order, and no other.
  lemma NftsListed(b: Block)
    ensures Lists(Nfts(b), b, HasNft)
  {
    NftsFlat(b.txs);
    FlatLists(NftOf, b, HasNft);
  }

  // The rows the blocks have in tx_erc721.
  lemma NftRows(blks: seq<Block>)
    ensures RowsInOrder(Part(Nfts, blks), blks, HasNft)
  {
    hide RowsInOrder, Lists, Nfts, Part, HasNft;
    forall b: Block ensures Lists(Nfts(b), b, HasNft) {
      NftsListed(b);
    }
    PartInOrder(Nfts, blks, HasNft);
  }

  // One upsert: the receiver owns the token now.
  function Give(db: Owners, t: Nft, height: nat): Owners {
    db[t.token := Owned(t.receiver, height)]
  }

  function Take(db: Owners, ts: seq<Nft>, height: nat): Owners
    decreases |ts|
  {
    if ts == [] then db else Take(Give(db, ts[0], height), ts[1..], height)
  }

  function ApplyBlock(db: Owners, b: Block): Owners {
    Take(db, Nfts(b), b.number)
  }

  function ApplyAll(db: Owners, blks: seq<Block>): Owners {
    if blks == [] then db else ApplyBlock(ApplyAll(db, blks[..|blks| - 1]), blks[|blks| - 1])
  }

  // update token_erc721 set owner_addr = ... : a token without a row stays without one.
  function SetOwner(db: Owners, token: Token, owner: string): Owners {
    if token in db then db[token := db[token].(owner := owner)] else db
  }

  // Taking the transfers back one by one, the last one first.
  function Undo(db: Owners, ts: seq<Nft>): Owners {
    if ts == [] then db else SetOwner(Undo(db, ts[1..]), ts[0].token, ts[0].sender)
  }

  // ------------------------------------------------------------------ owners

  // A token without a row belongs to the zero address.
  function Owner(db: Owners, token: Token): string {
    if token in db then db[token].owner else ZERO_ADDRESS
  }

  ghost predicate SameOwners(a: Owners, b: Owners) {
    forall t: Token :: SameOwner(a, b, t)
  }

  // a gives the token the owner b gives it, and has a row if b has.
  predicate SameOwner(a: Owners, b: Owners, t: Token) {
    Owner(a, t) == Owner(b, t) && (t in b ==> t in a)
  }

  // Each transfer's sender owns the token when the transfer happens.
  predicate Consistent(db: Owners, ts: seq<Nft>, height: nat)
    decreases |ts|
  {
    ts == [] || (Owner(db, ts[0].token) == ts[0].sender && Consistent(Give(db, ts[0], height), ts[1..], height))
  }

  lemma {:induction false} UndoKeys(db: Owners, ts: seq<Nft>)
    ensures Undo(db, ts).Keys == db.Keys
  {
    if ts != [] {
      UndoKeys(db, ts[1..]);
      var u := Undo(db, ts[1..]);
      if ts[0].token in u {
        assert u.Keys + {ts[0].token} == u.Keys;
      }
    }
  }

  // Taking back a block's transfers from any table with the owners after the block gives the owners before it.
  lemma {:induction false} UndoInverts(before: Owners, ts: seq<Nft>, height: nat, after: Owners)
    requires Consistent(before, ts, height) && SameOwners(after, Take(before, ts, height))
    ensures SameOwners(Undo(after, ts), before)
    decreases |ts|
  {
    if ts != [] {
      var t := ts[0];
      var given := Give(before, t, height);
      UndoInverts(given, ts[1..], height, after);
      var u := Undo(after, ts[1..]);
      assert SameOwner(u, given, t.token);
      forall x: Token ensures SameOwner(Undo(after, ts), before, x) {
        assert SameOwner(u, given, x);
      }
    }
  }

  lemma {:induction false} ConsistentSame(a: Owners, b: Owners, ts: seq<Nft>, height: nat)
    requires SameOwners(a, b) && Consistent(b, ts, height)
    ensures Consistent(a, ts, height) && SameOwners(Take(a, ts, height), Take(b, ts, height))
    decreases |ts|
  {
    if ts != [] {
      assert SameOwner(a, b, ts[0].token);
      forall x: Token ensures SameOwner(Give(a, ts[0], height), Give(b, ts[0], height), x) {
        assert SameOwner(a, b, x);
      }
      ConsistentSame(Give(a, ts[0], height), Give(b, ts[0], height), ts[1..], height);
    }
  }

  // ------------------------------------------------------------------ whole feeds

  function Process(db: Owners, e: Event): Owners {
    match e
    case Push(b) => ApplyBlock(db, b)
    case Pop(b) => Undo(db, Nfts(b))
  }

  function ProcessAll(db: Owners, feed: seq<Event>): Owners
    decreases |feed|
  {
    if feed == [] then db else ProcessAll(Process(db, feed[0]), feed[1..])
  }

  // On the chain of every moment, each transfer's sender owned the token.
  ghost predicate ConsistentFeed(db0: Owners, st: Stack, feed: seq<Event>)
    requires WellFormed(st, feed)
    decreases |feed|
  {
    feed == []
    || ((feed[0].Push? ==> Consistent(ApplyAll(db0, st.blocks), Nfts(feed[0].blk), feed[0].blk.number))
        && ConsistentFeed(db0, Apply(st, feed[0]), feed[1..]))
  }

  // The blocks already on the stack were consistent too.
  ghost predicate ConsistentStack(db0: Owners, st: Stack) {
    forall i: nat :: ConsistentBlock(db0, st, i)
  }

  ghost predicate ConsistentBlock(db0: Owners, st: Stack, i: nat) {
    i < |st.blocks| ==> Consistent(ApplyAll(db0, st.blocks[..i]), Nfts(st.blocks[i]), st.blocks[i].number)
  }

  lemma PushOwners(db0: Owners, st: Stack, db: Owners, b: Block)
    requires ConsistentStack(db0, st) && SameOwners(db, ApplyAll(db0, st.blocks))
    requires Consistent(ApplyAll(db0, st.blocks), Nfts(b), b.number)
    ensures var st' := Stack(st.base, st.blocks + [b]);
            ConsistentStack(db0, st') && SameOwners(ApplyBlock(db, b), ApplyAll(db0, st'.blocks))
  {
    var st' := Stack(st.base, st.blocks + [b]);
    assert st'.blocks[..|st.blocks|] == st.blocks;
    ConsistentSame(db, ApplyAll(db0, st.blocks), Nfts(b), b.number);
    forall i: nat ensures ConsistentBlock(db0, st', i) {
      assert ConsistentBlock(db0, st, i);
      assert i < |st.blocks| ==> st'.blocks[..i] == st.blocks[..i];
    }
  }

  lemma PopOwners(db0: Owners, st: Stack, db: Owners, b: Block)
    requires ConsistentStack(db0, st) && SameOwners(db, ApplyAll(db0, st.blocks)) && Enabled(st, Pop(b))
    ensures var st' := Apply(st, Pop(b));
            ConsistentStack(db0, st') && SameOwners(Undo(db, Nfts(b)), ApplyAll(db0, st'.blocks))
  {
    var n := |st.blocks| - 1;
    var st' := Apply(st, Pop(b));
    assert ConsistentBlock(db0, st, n);
    UndoInverts(ApplyAll(db0, st.blocks[..n]), Nfts(b), b.number, db);
    forall i: nat ensures ConsistentBlock(db0, st', i) {
      assert ConsistentBlock(db0, st, i);
      assert i < n ==> st'.blocks[..i] == st.blocks[..i];
    }
  }

  // Whatever blocks are applied and taken back, one or many at a time: every token's owner is the one that applying
  // just the blocks of the chain the feed leads to gives it.
  lemma {:induction false} OwnersFollowFeed(db0: Owners, st: Stack, db: Owners, feed: seq<Event>)
    requires WellFormed(st, feed) && ConsistentStack(db0, st) && ConsistentFeed(db0, st, feed)
    requires SameOwners(db, ApplyAll(db0, st.blocks))
    ensures SameOwners(ProcessAll(db, feed), ApplyAll(db0, Replay(st, feed).blocks))
    decreases |feed|
  {
    hide SameOwners, ConsistentStack, Consistent;
    if feed != [] {
      match feed[0]
      case Push(b) =>
        PushOwners(db0, st, db, b);
        OwnersFollowFeed(db0, Apply(st, feed[0]), Process(db, feed[0]), feed[1..]);
      case Pop(b) =>
        PopOwners(db0, st, db, b);
        OwnersFollowFeed(db0, Apply(st, feed[0]), Process(db, feed[0]), feed[1..]);
    }
  }

  // ------------------------------------------------------------------ the update by first sender

  predicate Names(ts: seq<Nft>, token: Token) {
    exists i :: 0 <= i < |ts| && ts[i].token == token
  }

  // The sender of the first transfer of the token.
  function FirstSender(ts: seq<Nft>, token: Token): string
    requires Names(ts, token)
  {
    if ts[0].token == token then ts[0].sender
    else
      assert Names(ts[1..], token) by {
        var i :| 0 <= i < |ts| && ts[i].token == token;
        assert ts[1..][i - 1].token == token;
      }
      FirstSender(ts[1..], token)
  }

  // Undoing transfer by transfer sets each token's owner to the sender of its first transfer, and nothing else.
  lemma {:induction false} UndoIsFirstSender(db: Owners, ts: seq<Nft>, token: Token)
    requires token in db
    ensures token in Undo(db, ts)
    ensures Undo(db, ts)[token] == if Names(ts, token) then db[token].(owner := FirstSender(ts, token)) else db[token]
  {
    UndoKeys(db, ts);
    if ts != [] {
      UndoKeys(db, ts[1..]);
      UndoIsFirstSender(db, ts[1..], token);
      if ts[0].token != token {
        NamesTail(ts, token);
      } else {
        assert Names(ts, token);
      }
    }
  }

  lemma NamesTail(ts: seq<Nft>, token: Token)
    requires ts != [] && ts[0].token != token
    ensures Names(ts, token) <==> Names(ts[1..], token)
  {
    if Names(ts, token) {
      var i :| 0 <= i < |ts| && ts[i].token == token;
      assert ts[1..][i - 1].token == token;
    }
    if Names(ts[1..], token) {
      var i :| 0 <= i < |ts[1..]| && ts[1..][i].token == token;
      assert ts[i + 1].token == token;
    }
  }

  // ------------------------------------------------------------------ chunked upserts

  // The upserts of a chunk, row by row in the order of the statements.
  function TakeRows(db: Owners, rows: Rows<Nft>): Owners {
    if rows == [] then db else Give(TakeRows(db, rows[..|rows| - 1]), rows[|rows| - 1].val, rows[|rows| - 1].num)
  }

  lemma {:induction false} TakeRowsConcat(db: Owners, a: Rows<Nft>, b: Rows<Nft>)
    ensures TakeRows(db, a + b) == TakeRows(TakeRows(db, a), b)
    decreases |b|
  {
    if b == [] {
      assert a + b == a;
    } else {
      assert (a + b)[..|a + b| - 1] == a + b[..|b| - 1];
      TakeRowsConcat(db, a, b[..|b| - 1]);
    }
  }

  lemma {:induction false} TakeIsRows(db: Owners, ts: seq<Nft>, height: nat)
    ensures Take(db, ts, height) == TakeRows(db, RowsOf(height, ts))
    decreases |ts|
  {
    if ts != [] {
      var first := RowsOf(height, [ts[0]]);
      assert RowsOf(height, ts) == first + RowsOf(height, ts[1..]);
      TakeRowsConcat(db, first, RowsOf(height, ts[1..]));
      assert first[..0] == [];
      TakeIsRows(Give(db, ts[0], height), ts[1..], height);
    }
  }

  // However the blocks are cut into chunks and statements, the upserts come to applying block after block.
  lemma {:induction false} RowsApplyAll(db: Owners, blks: seq<Block>)
    ensures TakeRows(db, Part(Nfts, blks)) == ApplyAll(db, blks)
  {
    if blks != [] {
      var last := blks[|blks| - 1];
      RowsApplyAll(db, blks[..|blks| - 1]);
      TakeRowsConcat(db, Part(Nfts, blks[..|blks| - 1]), RowsOf(last.number, Nfts(last)));
      TakeIsRows(ApplyAll(db, blks[..|blks| - 1]), Nfts(last), last.number);
    }
  }

  predicate InRows(rows: Rows<Nft>, t: Token) {
    exists i :: 0 <= i < |rows| && rows[i].val.token == t
  }

  lemma {:induction false} TakeRowsAt(a: Owners, b: Owners, rows: Rows<Nft>, t: Token)
    ensures InRows(rows, t) ==>
              && t in TakeRows(a, rows) && t in TakeRows(b, rows)
              && TakeRows(a, rows)[t] == TakeRows(b, rows)[t]
    ensures !InRows(rows, t) ==> (t in TakeRows(a, rows) <==> t in a) && (t in a ==> TakeRows(a, rows)[t] == a[t])
    ensures t in TakeRows(a, rows) ==> t in a || InRows(rows, t)
  {
    if rows != [] {
      var rest, last := rows[..|rows| - 1], rows[|rows| - 1];
      TakeRowsAt(a, b, rest, t);
      assert InRows(rows, t) <==> InRows(rest, t) || last.val.token == t by {
        if InRows(rest, t) {
          var i :| 0 <= i < |rest| && rest[i].val.token == t;
          assert rows[i].val.token == t;
        }
      }
    }
  }

  // Writing a chunk again, as after a crash between the rows and the task's number, changes no owner.
  lemma TakeTwice(db: Owners, rows: Rows<Nft>)
    ensures TakeRows(TakeRows(db, rows), rows) == TakeRows(db, rows)
  {
    var once := TakeRows(db, rows);
    var twice := TakeRows(once, rows);
    forall t: Token ensures (t in twice <==> t in once) && (t in once ==> twice[t] == once[t]) {
      TakeRowsAt(once, db, rows, t);
      TakeRowsAt(db, once, rows, t);
    }
    assert twice.Keys == once.Keys;
  }
}
