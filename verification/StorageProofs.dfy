/** The storage task keeps the tables equal to the fed chain, whatever the timer, the limits and the failures do. */
module StorageProofs {
  import opened Chain
  import opened Table
  import opened StorageSpec

  // ------------------------------------------------------------------ the four tables

  // The ok rows of every table are exactly those of the stack's blocks.
  ghost predicate Holds(t: Tables, st: Stack) {
    && st.Contiguous()
    && Mirrors(t.blocks, Headers, st) && Mirrors(t.txs, Hashes, st)
    && Mirrors(t.logs, Logs, st) && Mirrors(t.internals, Internals, st)
  }

  lemma EagerHolds(t: Tables, st: Stack, e: Event)
    requires Holds(t, st) && Enabled(st, e)
    ensures Holds(Eager(t, e), Apply(st, e))
  {
    ApplyContiguous(st, e);
    match e
    case Push(b) =>
      PushMirrors(t.blocks, Headers, st, b);
      PushMirrors(t.txs, Hashes, st, b);
      PushMirrors(t.logs, Logs, st, b);
      PushMirrors(t.internals, Internals, st, b);
    case Pop(b) =>
      assert st.NumberedAt(|st.blocks| - 1);
      PopMirrors(t.blocks, Headers, st);
      PopMirrors(t.txs, Hashes, st);
      PopMirrors(t.logs, Logs, st);
      PopMirrors(t.internals, Internals, st);
  }

  // ------------------------------------------------------------------ which heights have an ok row

  lemma {:induction false} LiveHas<T>(t: Rows<T>, num: nat)
    ensures HasOk(t, num) <==> exists i :: 0 <= i < |Live(t)| && Live(t)[i].num == num
  {
    if t != [] {
      var a, last := t[..|t| - 1], t[|t| - 1];
      LiveHas(a, num);
      var tail := if last.state == Ok then [last] else [];
      assert Live(t) == Live(a) + tail;
      if HasOk(t, num) {
        var i :| 0 <= i < |t| && t[i].num == num && t[i].state == Ok;
        if i < |a| {
          assert a[i] == t[i];
          var j :| 0 <= j < |Live(a)| && Live(a)[j].num == num;
          assert Live(t)[j].num == num;
        } else {
          assert Live(t)[|Live(a)|].num == num;
        }
      }
      if j :| 0 <= j < |Live(t)| && Live(t)[j].num == num {
        if j < |Live(a)| {
          assert Live(a)[j].num == num;
          var i :| 0 <= i < |a| && a[i].num == num && a[i].state == Ok;
          assert t[i] == a[i];
        } else {
          assert t[|t| - 1].num == num;
        }
      }
    }
  }

  lemma {:induction false} BlockRows(st: Stack, n: nat)
    requires st.Contiguous() && n <= |st.blocks|
    ensures var p := Part(Headers, st.blocks[..n]);
            |p| == n && forall i {:trigger p[i]} :: 0 <= i < n ==>
                p[i] == Row(st.base + i, Ok, Headers(st.blocks[i])[0])
  {
    if n != 0 {
      assert st.blocks[..n][..n - 1] == st.blocks[..n - 1];
      BlockRows(st, n - 1);
      assert st.NumberedAt(n - 1);
    }
  }

  // A height has an ok block row exactly when it lies on the stored chain.
  lemma HasOkIff(t: Tables, st: Stack, num: nat)
    requires Holds(t, st)
    ensures HasOk(t.blocks, num) <==> st.Has(num)
  {
    LiveHas(t.blocks, num);
    BlockRows(st, |st.blocks|);
    assert st.blocks[..|st.blocks|] == st.blocks;
    if st.Has(num) {
      assert Live(t.blocks)[num - st.base].num == num;
    }
  }

  function CountOk<T>(t: Rows<T>, num: nat): nat {
    if t == [] then 0 else CountOk(t[..|t| - 1], num) + if t[|t| - 1].num == num && t[|t| - 1].state == Ok then 1 else 0
  }

  lemma {:induction false} CountLive<T>(t: Rows<T>, num: nat)
    ensures CountOk(t, num) == CountOk(Live(t), num)
  {
    if t != [] {
      CountLive(t[..|t| - 1], num);
      if t[|t| - 1].state == Ok {
        assert Live(t) == Live(t[..|t| - 1]) + [t[|t| - 1]];
        assert Live(t)[..|Live(t)| - 1] == Live(t[..|t| - 1]);
      } else {
        assert Live(t) == Live(t[..|t| - 1]);
      }
    }
  }

  lemma {:induction false} CountRange<T>(t: Rows<T>, base: nat, num: nat)
    requires forall i :: 0 <= i < |t| ==> t[i].num == base + i && t[i].state == Ok
    ensures CountOk(t, num) == if base <= num < base + |t| then 1 else 0
  {
    if t != [] {
      CountRange(t[..|t| - 1], base, num);
    }
  }

  // Each height has at most one ok block row, and the stored heights have exactly one.
  lemma OneRowPerHeight(t: Tables, st: Stack, num: nat)
    requires Holds(t, st)
    ensures CountOk(t.blocks, num) == if st.Has(num) then 1 else 0
  {
    CountLive(t.blocks, num);
    BlockRows(st, |st.blocks|);
    assert st.blocks[..|st.blocks|] == st.blocks;
    CountRange(Live(t.blocks), st.base, num);
  }

  lemma {:induction false} MaxLive<T>(t: Rows<T>)
    ensures MaxOk(t) == MaxOk(Live(t))
  {
    if t != [] {
      MaxLive(t[..|t| - 1]);
      if t[|t| - 1].state == Ok {
        assert Live(t) == Live(t[..|t| - 1]) + [t[|t| - 1]];
        assert Live(t)[..|Live(t)| - 1] == Live(t[..|t| - 1]);
      } else {
        assert Live(t) == Live(t[..|t| - 1]);
      }
    }
  }

  lemma {:induction false} MaxRange<T>(t: Rows<T>, base: nat)
    requires forall i :: 0 <= i < |t| ==> t[i].num == base + i && t[i].state == Ok
    ensures MaxOk(t) == if t == [] then 0 else base + |t| - 1
  {
    if t != [] {
      MaxRange(t[..|t| - 1], base);
    }
  }

  // The current main block number is the top of the stored chain.
  lemma MainBlockIsTop(t: Tables, st: Stack)
    requires Holds(t, st)
    ensures GetCurrentMainBlockNum(t) == if st.blocks == [] then 0 else st.Next() - 1
  {
    MaxLive(t.blocks);
    BlockRows(st, |st.blocks|);
    assert st.blocks[..|st.blocks|] == st.blocks;
    MaxRange(Live(t.blocks), st.base);
  }

  // ------------------------------------------------------------------ saving

  // Saving twice, the first time only up to some block, is saving once.
  lemma {:induction false} SaveAgain(t: Tables, blocks: seq<Block>, k: nat)
    requires k <= |blocks|
    ensures SaveAll(SaveAll(t, blocks[..k]), blocks) == SaveAll(t, blocks)
    decreases k
  {
    if k == 0 {
      assert blocks[..0] == [];
    } else {
      var t' := SaveOne(t, blocks[0]);
      assert blocks[..k][1..] == blocks[1..][..k - 1] && blocks[..k][0] == blocks[0];
      var done := SaveAll(t', blocks[1..][..k - 1]);
      SaveOneHas(t, blocks[0]);
      SaveKeepsHas(t', blocks[1..][..k - 1], blocks[0].number);
      assert SaveOne(done, blocks[0]) == done;
      SaveAgain(t', blocks[1..], k - 1);
    }
  }

  lemma SaveOneHas(t: Tables, b: Block)
    ensures HasOk(SaveOne(t, b).blocks, b.number)
  {
    if !HasOk(t.blocks, b.number) {
      assert InsertBlock(t, b).blocks[|t.blocks|] == Row(b.number, Ok, Headers(b)[0]);
    }
  }

  lemma {:induction false} SaveKeepsHas(t: Tables, blocks: seq<Block>, num: nat)
    requires HasOk(t.blocks, num)
    ensures HasOk(SaveAll(t, blocks).blocks, num)
    decreases |blocks|
  {
    if blocks != [] {
      var t' := SaveOne(t, blocks[0]);
      var i :| 0 <= i < |t.blocks| && t.blocks[i].num == num && t.blocks[i].state == Ok;
      assert t'.blocks[i] == t.blocks[i];
      SaveKeepsHas(t', blocks[1..], num);
    }
  }

  // The stack with more blocks on top.
  function On(st: Stack, blocks: seq<Block>): Stack {
    Stack(st.base, st.blocks + blocks)
  }

  // Blocks that continue the stored chain are all inserted, none of them skipped as already committed.
  lemma {:induction false} SaveHolds(t: Tables, db: Stack, blocks: seq<Block>)
    requires Holds(t, db) && On(db, blocks).Contiguous()
    ensures Holds(SaveAll(t, blocks), On(db, blocks))
    decreases |blocks|
  {
    hide Holds, SaveOne, InsertBlock;
    if blocks == [] {
      assert db.blocks + blocks == db.blocks;
    } else {
      SaveNext(t, db, blocks);
      var db' := On(db, [blocks[0]]);
      assert db.blocks + blocks == db'.blocks + blocks[1..];
      SaveHolds(InsertBlock(t, blocks[0]), db', blocks[1..]);
    }
  }

  lemma SaveNext(t: Tables, db: Stack, blocks: seq<Block>)
    requires Holds(t, db) && On(db, blocks).Contiguous() && blocks != []
    ensures SaveOne(t, blocks[0]) == InsertBlock(t, blocks[0])
    ensures Enabled(db, Push(blocks[0])) && Holds(InsertBlock(t, blocks[0]), On(db, [blocks[0]]))
  {
    assert On(db, blocks).NumberedAt(|db.blocks|);
    HasOkIff(t, db, blocks[0].number);
    EagerHolds(t, db, Push(blocks[0]));
  }

  lemma {:induction false} SaveThenOne(t: Tables, blocks: seq<Block>, b: Block)
    ensures SaveAll(t, blocks + [b]) == SaveOne(SaveAll(t, blocks), b)
    decreases |blocks|
  {
    hide SaveOne;
    if blocks == [] {
      assert (blocks + [b])[1..] == [];
    } else {
      assert (blocks + [b])[1..] == blocks[1..] + [b];
      SaveThenOne(SaveOne(t, blocks[0]), blocks[1..], b);
    }
  }

  lemma OnLess(db: Stack, blocks: seq<Block>, b: Block)
    requires On(db, blocks + [b]).Contiguous()
    ensures On(db, blocks).Contiguous() && On(On(db, blocks), [b]).Contiguous()
  {
    var st := On(db, blocks);
    assert On(st, [b]).blocks == On(db, blocks + [b]).blocks;
    forall i: nat ensures st.NumberedAt(i) {
      assert On(db, blocks + [b]).NumberedAt(i);
    }
  }

  // Saving a buffer and then one more block is saving the longer buffer.
  lemma SaveSnoc(t: Tables, db: Stack, blocks: seq<Block>, b: Block)
    requires Holds(t, db) && On(db, blocks + [b]).Contiguous()
    ensures SaveAll(t, blocks + [b]) == InsertBlock(SaveAll(t, blocks), b)
  {
    hide Holds, SaveOne, InsertBlock, SaveAll, On;
    OnLess(db, blocks, b);
    SaveHolds(t, db, blocks);
    SaveNext(SaveAll(t, blocks), On(db, blocks), [b]);
    SaveThenOne(t, blocks, b);
  }
}
