/** ERC-721 transfers whose block arrives in the order in which the workers of the fetcher finished. */
module Erc721Order {
  import opened Chain
  import opened Erc721Spec
  import AsyncSpec

  // ------------------------------------------------------------------ groups of transactions

  // A block's transactions are cut into groups of at most batch; 0 stands for 1.
  function Groups(txs: seq<Tx>, batch: nat): seq<seq<Tx>>
    decreases |txs|
  {
    var n := if batch == 0 then 1 else batch;
    if txs == [] then [] else if |txs| <= n then [txs] else [txs[..n]] + Groups(txs[n..], batch)
  }

  function Flat(groups: seq<seq<Tx>>): seq<Tx> {
    if groups == [] then [] else groups[0] + Flat(groups[1..])
  }

  // The groups are put together in any order.
  ghost predicate DeliveredAs(txs: seq<Tx>, batch: nat, delivered: seq<Tx>)
  {
    exists order: seq<seq<Tx>> :: multiset(order) == multiset(Groups(txs, batch)) && Flat(order) == delivered
  }

  lemma {:induction false} FlatGroups(txs: seq<Tx>, batch: nat)
    ensures Flat(Groups(txs, batch)) == txs
    decreases |txs|
  {
    var n := if batch == 0 then 1 else batch;
    if |txs| > n {
      FlatGroups(txs[n..], batch);
    }
  }

  lemma {:induction false} FlatSnoc(groups: seq<seq<Tx>>, g: seq<Tx>)
    ensures Flat(groups + [g]) == Flat(groups) + g
  {
    if groups == [] {
      assert Flat([g]) == g + Flat([]);
    } else {
      assert (groups + [g])[0] == groups[0] && (groups + [g])[1..] == groups[1..] + [g];
      FlatSnoc(groups[1..], g);
    }
  }

  // One group is one order.
  lemma OneGroupInOrder(txs: seq<Tx>, batch: nat, delivered: seq<Tx>)
    requires |txs| <= batch && DeliveredAs(txs, batch, delivered)
    ensures delivered == txs
  {
    var order :| multiset(order) == multiset(Groups(txs, batch)) && Flat(order) == delivered;
    assert |order| == |multiset(order)| == |Groups(txs, batch)|;
    if order != [] {
      assert order[0] in multiset(order);
      assert order == [txs] && Flat([txs]) == txs + Flat([]);
    }
  }

  // ------------------------------------------------------------------ first and last transfer of a token

  // The receiver of the last transfer of the token.
  function LastReceiver(ts: seq<Nft>, token: Token): string
    requires Names(ts, token)
  {
    if Names(ts[1..], token) then LastReceiver(ts[1..], token) else ts[0].receiver
  }

  lemma {:induction false} TakeAt(db: Owners, ts: seq<Nft>, height: nat, token: Token)
    ensures token in Take(db, ts, height) <==> token in db || Names(ts, token)
    ensures token in Take(db, ts, height) ==>
              Take(db, ts, height)[token] ==
              if Names(ts, token) then Owned(LastReceiver(ts, token), height) else db[token]
    decreases |ts|
  {
    if ts != [] {
      TakeAt(Give(db, ts[0], height), ts[1..], height, token);
      NamesConcat([ts[0]], ts[1..], token);
      assert [ts[0]] + ts[1..] == ts;
    }
  }

  lemma NamesConcat(a: seq<Nft>, b: seq<Nft>, token: Token)
    ensures Names(a + b, token) <==> Names(a, token) || Names(b, token)
  {
    if Names(a, token) {
      var i :| 0 <= i < |a| && a[i].token == token;
      assert (a + b)[i].token == token;
    }
    if Names(b, token) {
      var i :| 0 <= i < |b| && b[i].token == token;
      assert (a + b)[|a| + i].token == token;
    }
  }

  lemma {:induction false} LastConcat(a: seq<Nft>, b: seq<Nft>, token: Token)
    requires Names(a + b, token)
    ensures if Names(b, token) then LastReceiver(a + b, token) == LastReceiver(b, token)
            else Names(a, token) && LastReceiver(a + b, token) == LastReceiver(a, token)
  {
    NamesConcat(a, b, token);
    if a == [] {
      assert a + b == b;
    } else {
      assert (a + b)[0] == a[0] && (a + b)[1..] == a[1..] + b;
      NamesConcat(a[1..], b, token);
      if Names(a[1..] + b, token) {
        LastConcat(a[1..], b, token);
      }
    }
  }

  lemma {:induction false} FirstConcat(a: seq<Nft>, b: seq<Nft>, token: Token)
    requires Names(a + b, token)
    ensures if Names(a, token) then FirstSender(a + b, token) == FirstSender(a, token)
            else Names(b, token) && FirstSender(a + b, token) == FirstSender(b, token)
  {
    NamesConcat(a, b, token);
    if a == [] {
      assert a + b == b;
    } else {
      assert (a + b)[0] == a[0] && (a + b)[1..] == a[1..] + b;
      if a[0].token != token {
        NamesTail(a + b, token);
        NamesTail(a, token);
        FirstConcat(a[1..], b, token);
      } else {
        assert Names(a, token);
      }
    }
  }

  // ------------------------------------------------------------------ groups that move a token

  predicate Moves(g: seq<Tx>, token: Token) {
    Names(NftsOf(g), token)
  }

  function Last(g: seq<Tx>, token: Token): string
    requires Moves(g, token)
  {
    LastReceiver(NftsOf(g), token)
  }

  function First(g: seq<Tx>, token: Token): string
    requires Moves(g, token)
  {
    FirstSender(NftsOf(g), token)
  }

  // Any two groups that move the token have the same last receiver for it.
  ghost predicate AgreeLast(groups: seq<seq<Tx>>, token: Token) {
    forall g, h :: g in groups && h in groups && Moves(g, token) && Moves(h, token) ==> Last(g, token) == Last(h, token)
  }

  // Any two groups that move the token have the same first sender for it.
  ghost predicate AgreeFirst(groups: seq<seq<Tx>>, token: Token) {
    forall g, h ::
      g in groups && h in groups && Moves(g, token) && Moves(h, token) ==> First(g, token) == First(h, token)
  }

  lemma {:induction false} NftsConcat(a: seq<Tx>, b: seq<Tx>)
    ensures NftsOf(a + b) == NftsOf(a) + NftsOf(b)
  {
    if a == [] {
      assert a + b == b;
    } else {
      assert (a + b)[0] == a[0] && (a + b)[1..] == a[1..] + b;
      NftsConcat(a[1..], b);
    }
  }

  // What the block does to the token, one group of it does.
  lemma {:induction false} FlatMoves(groups: seq<seq<Tx>>, token: Token)
    ensures Moves(Flat(groups), token) <==> exists g :: g in groups && Moves(g, token)
    ensures Moves(Flat(groups), token) ==>
              && (exists g :: g in groups && Moves(g, token) && Last(Flat(groups), token) == Last(g, token))
              && (exists g :: g in groups && Moves(g, token) && First(Flat(groups), token) == First(g, token))
  {
    hide Names, LastReceiver, FirstSender, NftsOf;
    if groups == [] {
      NoTransfers(token);
    } else {
      var head, rest := groups[0], Flat(groups[1..]);
      FlatMoves(groups[1..], token);
      NftsConcat(head, rest);
      NamesConcat(NftsOf(head), NftsOf(rest), token);
      if Moves(Flat(groups), token) {
        LastConcat(NftsOf(head), NftsOf(rest), token);
        FirstConcat(NftsOf(head), NftsOf(rest), token);
        assert Moves(head, token) ==> head in groups && First(Flat(groups), token) == First(head, token);
        if Moves(rest, token) {
          var g :| g in groups[1..] && Moves(g, token) && Last(rest, token) == Last(g, token);
          assert g in groups && Last(Flat(groups), token) == Last(g, token);
          var h :| h in groups[1..] && Moves(h, token) && First(rest, token) == First(h, token);
          assert h in groups;
        } else {
          assert head in groups && Last(Flat(groups), token) == Last(head, token);
        }
      }
    }
  }

  lemma NoTransfers(token: Token)
    ensures !Moves([], token)
  {
  }

  // If the groups agree on the token, every order of them moves it to the same receiver and from the same sender.
  lemma OrderSame(groups: seq<seq<Tx>>, order: seq<seq<Tx>>, token: Token)
    requires multiset(order) == multiset(groups)
    ensures Moves(Flat(order), token) <==> Moves(Flat(groups), token)
    ensures Moves(Flat(groups), token) && AgreeLast(groups, token) ==>
              Last(Flat(order), token) == Last(Flat(groups), token)
    ensures Moves(Flat(groups), token) && AgreeFirst(groups, token) ==>
              First(Flat(order), token) == First(Flat(groups), token)
  {
    hide Moves, Last, First, Flat;
    FlatMoves(groups, token);
    FlatMoves(order, token);
    forall g ensures g in groups <==> g in order {
      assert g in multiset(groups) <==> g in multiset(order);
    }
  }

  // One of the groups moved to the end, or to the front.
  lemma Moved(groups: seq<seq<Tx>>, x: seq<Tx>) returns (rest: seq<seq<Tx>>)
    requires x in groups
    ensures multiset(rest + [x]) == multiset(groups) && multiset([x] + rest) == multiset(groups)
  {
    var i :| 0 <= i < |groups| && groups[i] == x;
    rest := groups[..i] + groups[i + 1..];
    assert groups == groups[..i] + [x] + groups[i + 1..];
  }

  lemma EndsLast(rest: seq<seq<Tx>>, x: seq<Tx>, token: Token)
    requires Moves(x, token)
    ensures Moves(Flat(rest + [x]), token) && Last(Flat(rest + [x]), token) == Last(x, token)
  {
    hide Names, LastReceiver, NftsOf;
    FlatSnoc(rest, x);
    NftsConcat(Flat(rest), x);
    NamesConcat(NftsOf(Flat(rest)), NftsOf(x), token);
    LastConcat(NftsOf(Flat(rest)), NftsOf(x), token);
  }

  lemma StartsFirst(rest: seq<seq<Tx>>, x: seq<Tx>, token: Token)
    requires Moves(x, token)
    ensures Moves(Flat([x] + rest), token) && First(Flat([x] + rest), token) == First(x, token)
  {
    hide Names, FirstSender, NftsOf;
    assert ([x] + rest)[1..] == rest;
    NftsConcat(x, Flat(rest));
    NamesConcat(NftsOf(x), NftsOf(Flat(rest)), token);
    FirstConcat(NftsOf(x), NftsOf(Flat(rest)), token);
  }

  // ------------------------------------------------------------------ when the order makes no difference

  lemma SameTake(db: Owners, groups: seq<seq<Tx>>, order: seq<seq<Tx>>, height: nat)
    requires multiset(order) == multiset(groups) && forall token :: AgreeLast(groups, token)
    ensures Take(db, NftsOf(Flat(order)), height) == Take(db, NftsOf(Flat(groups)), height)
  {
    hide Flat, Take, NftsOf, AgreeLast, Names, LastReceiver;
    var a, b := Take(db, NftsOf(Flat(order)), height), Take(db, NftsOf(Flat(groups)), height);
    forall token: Token ensures (token in a <==> token in b) && (token in b ==> a[token] == b[token]) {
      assert AgreeLast(groups, token);
      OrderSame(groups, order, token);
      TakeAt(db, NftsOf(Flat(order)), height, token);
      TakeAt(db, NftsOf(Flat(groups)), height, token);
    }
    assert a.Keys == b.Keys;
  }

  lemma SameUndo(db: Owners, groups: seq<seq<Tx>>, order: seq<seq<Tx>>)
    requires multiset(order) == multiset(groups) && forall token :: token in db ==> AgreeFirst(groups, token)
    ensures Undo(db, NftsOf(Flat(order))) == Undo(db, NftsOf(Flat(groups)))
  {
    hide Flat, Undo, NftsOf, AgreeFirst, Names, FirstSender;
    var a, b := Undo(db, NftsOf(Flat(order))), Undo(db, NftsOf(Flat(groups)));
    UndoKeys(db, NftsOf(Flat(order)));
    UndoKeys(db, NftsOf(Flat(groups)));
    assert a.Keys == b.Keys;
    forall token: Token | token in b ensures a[token] == b[token] {
      assert token in db.Keys;
      assert AgreeFirst(groups, token);
      OrderSame(groups, order, token);
      UndoIsFirstSender(db, NftsOf(Flat(order)), token);
      UndoIsFirstSender(db, NftsOf(Flat(groups)), token);
    }
  }

  // Groups that disagree about the receiver have an order that leaves the token with another owner.
  lemma OtherTake(db: Owners, groups: seq<seq<Tx>>, height: nat, token: Token) returns (order: seq<seq<Tx>>)
    requires !AgreeLast(groups, token)
    ensures multiset(order) == multiset(groups)
    ensures Take(db, NftsOf(Flat(order)), height) != Take(db, NftsOf(Flat(groups)), height)
  {
    var g, h :| g in groups && h in groups && Moves(g, token) && Moves(h, token) && Last(g, token) != Last(h, token);
    hide Flat, Take, NftsOf, AgreeLast, Names, LastReceiver;
    FlatMoves(groups, token);
    var x := if Last(g, token) == Last(Flat(groups), token) then h else g;
    var rest := Moved(groups, x);
    order := rest + [x];
    EndsLast(rest, x, token);
    TakeAt(db, NftsOf(Flat(order)), height, token);
    TakeAt(db, NftsOf(Flat(groups)), height, token);
  }

  lemma OtherUndo(db: Owners, groups: seq<seq<Tx>>, token: Token) returns (order: seq<seq<Tx>>)
    requires token in db && !AgreeFirst(groups, token)
    ensures multiset(order) == multiset(groups)
    ensures Undo(db, NftsOf(Flat(order))) != Undo(db, NftsOf(Flat(groups)))
  {
    var g, h :| g in groups && h in groups && Moves(g, token) && Moves(h, token) && First(g, token) != First(h, token);
    hide Flat, Undo, NftsOf, AgreeFirst, Names, FirstSender;
    FlatMoves(groups, token);
    var x := if First(g, token) == First(Flat(groups), token) then h else g;
    var rest := Moved(groups, x);
    order := [x] + rest;
    StartsFirst(rest, x, token);
    UndoIsFirstSender(db, NftsOf(Flat(order)), token);
    UndoIsFirstSender(db, NftsOf(Flat(groups)), token);
  }

  // Whatever order the groups of a block come in, the owners after it are those of the execution order, if and only if
  // any two groups that move a token have the same last receiver for it.
  lemma AnyDeliveryTakesIff(db: Owners, txs: seq<Tx>, batch: nat, height: nat)
    ensures (forall d :: DeliveredAs(txs, batch, d) ==> Take(db, NftsOf(d), height) == Take(db, NftsOf(txs), height))
            <==> forall token :: AgreeLast(Groups(txs, batch), token)
  {
    hide Flat, Take, NftsOf, AgreeLast, Groups;
    var groups := Groups(txs, batch);
    FlatGroups(txs, batch);
    if forall token :: AgreeLast(groups, token) {
      forall d | DeliveredAs(txs, batch, d) ensures Take(db, NftsOf(d), height) == Take(db, NftsOf(txs), height) {
        var order :| multiset(order) == multiset(groups) && Flat(order) == d;
        SameTake(db, groups, order, height);
      }
    } else {
      var token :| !AgreeLast(groups, token);
      var order := OtherTake(db, groups, height, token);
      assert DeliveredAs(txs, batch, Flat(order));
    }
  }

  // Taking the block back, in whatever order its groups came in, gives the owners that taking it back in execution
  // order gives, if and only if any two groups that move a token of the table have the same first sender for it.
  lemma AnyDeliveryUndoesIff(db: Owners, txs: seq<Tx>, batch: nat)
    ensures (forall d :: DeliveredAs(txs, batch, d) ==> Undo(db, NftsOf(d)) == Undo(db, NftsOf(txs)))
            <==> forall token :: token in db ==> AgreeFirst(Groups(txs, batch), token)
  {
    hide Flat, Undo, NftsOf, AgreeFirst, Groups;
    var groups := Groups(txs, batch);
    FlatGroups(txs, batch);
    if forall token :: token in db ==> AgreeFirst(groups, token) {
      forall d | DeliveredAs(txs, batch, d) ensures Undo(db, NftsOf(d)) == Undo(db, NftsOf(txs)) {
        var order :| multiset(order) == multiset(groups) && Flat(order) == d;
        SameUndo(db, groups, order);
      }
    } else {
      var token :| token in db && !AgreeFirst(groups, token);
      var order := OtherUndo(db, groups, token);
      assert DeliveredAs(txs, batch, Flat(order));
    }
  }

  // ------------------------------------------------------------------ whole feeds

  // The block d is the executed block e with its groups in some order, which makes no difference.
  ghost predicate Harmless(e: Block, d: Block, batch: nat)
  {
    && d.number == e.number && DeliveredAs(e.txs, batch, d.txs)
    && forall token :: AgreeLast(Groups(e.txs, batch), token) && AgreeFirst(Groups(e.txs, batch), token)
  }

  ghost predicate HarmlessAt(executed: seq<Event>, delivered: seq<Event>, batch: nat, i: nat)
  {
    i < |executed| && i < |delivered| ==>
      && (executed[i].Push? <==> delivered[i].Push?)
      && Harmless(executed[i].blk, delivered[i].blk, batch)
  }

  // The feed with the blocks as they were delivered.
  ghost predicate Reordered(executed: seq<Event>, delivered: seq<Event>, batch: nat)
  {
    |executed| == |delivered| && forall i: nat :: HarmlessAt(executed, delivered, batch, i)
  }

  lemma SameProcess(db: Owners, executed: Event, delivered: Event, batch: nat)
    requires (executed.Push? <==> delivered.Push?) && Harmless(executed.blk, delivered.blk, batch)
    ensures Process(db, executed) == Process(db, delivered)
  {
    hide AgreeLast, AgreeFirst, Take, Undo, NftsOf, Flat, Groups;
    var e, d := executed.blk, delivered.blk;
    FlatGroups(e.txs, batch);
    var order :| multiset(order) == multiset(Groups(e.txs, batch)) && Flat(order) == d.txs;
    SameTake(db, Groups(e.txs, batch), order, e.number);
    SameUndo(db, Groups(e.txs, batch), order);
  }

  lemma {:induction false} SameProcessAll(db: Owners, executed: seq<Event>, delivered: seq<Event>, batch: nat)
    requires Reordered(executed, delivered, batch)
    ensures ProcessAll(db, executed) == ProcessAll(db, delivered)
    decreases |executed|
  {
    hide Harmless, Process;
    if executed != [] {
      assert HarmlessAt(executed, delivered, batch, 0);
      SameProcess(db, executed[0], delivered[0], batch);
      var e, d := executed[1..], delivered[1..];
      forall i: nat ensures HarmlessAt(e, d, batch, i) {
        assert HarmlessAt(executed, delivered, batch, i + 1);
      }
      SameProcessAll(Process(db, executed[0]), e, d, batch);
    }
  }

  // However the workers order the groups of each block, as long as the groups agree: after any feed of applied and
  // reverted blocks every owner is the one that executing the blocks of the chain the feed leads to gives it.
  lemma OwnersFollowExecution(db0: Owners, st: Stack, db: Owners, executed: seq<Event>, delivered: seq<Event>,
          batch: nat)
    requires Reordered(executed, delivered, batch)
    requires WellFormed(st, executed) && ConsistentStack(db0, st) && ConsistentFeed(db0, st, executed)
    requires SameOwners(db, ApplyAll(db0, st.blocks))
    ensures SameOwners(ProcessAll(db, delivered), ApplyAll(db0, Replay(st, executed).blocks))
  {
    hide *;
    SameProcessAll(db, executed, delivered, batch);
    OwnersFollowFeed(db0, st, db, executed);
  }

  // ------------------------------------------------------------------ a block whose order matters

  function Quiet(n: nat): (r: seq<Tx>)
    ensures |r| == n
  {
    if n == 0 then [] else [Tx("quiet", [])] + Quiet(n - 1)
  }

  lemma {:induction false} QuietHasNone(n: nat)
    ensures NftsOf(Quiet(n)) == []
  {
    if n != 0 {
      QuietHasNone(n - 1);
      assert Quiet(n)[1..] == Quiet(n - 1);
      assert NftsOfTx("quiet", []) + NftsOf(Quiet(n - 1)) == [];
    }
  }

  const PASSED: Token := Token("contract", "id")

  // A transaction that hands the token on.
  function Hands(sender: string, receiver: string, index: nat): Tx {
    Tx("hands", [EventLog("contract", AsyncSpec.ERC20_TRANSFER, sender, receiver, "id", 0, index)])
  }

  // From a to b in the first transaction, from b to c in the one after the first group.
  function HandedTwice(batch: nat): (r: seq<Tx>)
    requires 1 <= batch
    ensures |r| == batch + 1
  {
    [Hands("a", "b", 0)] + Quiet(batch - 1) + [Hands("b", "c", 1)]
  }

  lemma HandsOne(sender: string, receiver: string, index: nat)
    requires sender != "" && receiver != ""
    ensures NftsOf([Hands(sender, receiver, index)]) == [Nft("hands", PASSED, sender, receiver, index)]
  {
    var t := Hands(sender, receiver, index);
    assert IsErc721Tx(t.logs[0]);
    assert t.logs[1..] == [] && [t][1..] == [];
    assert NftsOfTx("hands", t.logs) == [Nft("hands", PASSED, sender, receiver, index)] + [];
    assert NftsOf([t]) == NftsOfTx("hands", t.logs) + NftsOf([]);
  }

  // Whatever the size of a group, a block of one transaction more has an order of its groups after which the token is
  // with b instead of c, no transfer's sender owns the token when it happens, and taking the block back leaves it with
  // b instead of a.
  lemma OrderLost(batch: nat, height: nat, before: Owners)
    requires 1 <= batch && Owner(before, PASSED) == "a"
    ensures var txs := HandedTwice(batch);
            exists late ::
              && DeliveredAs(txs, batch, late)
              && Consistent(before, NftsOf(txs), height) && !Consistent(before, NftsOf(late), height)
              && Owner(Take(before, NftsOf(txs), height), PASSED) == "c"
              && Owner(Take(before, NftsOf(late), height), PASSED) == "b"
              && Owner(Undo(Take(before, NftsOf(txs), height), NftsOf(txs)), PASSED) == "a"
              && Owner(Undo(Take(before, NftsOf(late), height), NftsOf(late)), PASSED) == "b"
  {
    hide Consistent, Take, Undo, Owner;
    var txs := HandedTwice(batch);
    var g, h := [Hands("a", "b", 0)] + Quiet(batch - 1), [Hands("b", "c", 1)];
    assert txs[..batch] == g && txs[batch..] == h;
    assert Groups(txs, batch) == [g, h];
    var late := h + g;
    assert Flat([h, g]) == late by {
      assert [h, g][1..] == [g] && Flat([g]) == g + Flat([]);
    }
    assert multiset([h, g]) == multiset([g, h]);
    assert DeliveredAs(txs, batch, late);
    HandsOne("a", "b", 0);
    HandsOne("b", "c", 1);
    QuietHasNone(batch - 1);
    NftsConcat([Hands("a", "b", 0)], Quiet(batch - 1));
    NftsConcat(g, h);
    NftsConcat(h, g);
    Handed(before, height);
  }

  // The two transfers in either order.
  lemma Handed(before: Owners, height: nat)
    requires Owner(before, PASSED) == "a"
    ensures var x, y := Nft("hands", PASSED, "a", "b", 0), Nft("hands", PASSED, "b", "c", 1);
            && Consistent(before, [x] + [y], height) && !Consistent(before, [y] + [x], height)
            && Owner(Take(before, [x] + [y], height), PASSED) == "c"
            && Owner(Take(before, [y] + [x], height), PASSED) == "b"
            && Owner(Undo(Take(before, [x] + [y], height), [x] + [y]), PASSED) == "a"
            && Owner(Undo(Take(before, [y] + [x], height), [y] + [x]), PASSED) == "b"
  {
    var x, y := Nft("hands", PASSED, "a", "b", 0), Nft("hands", PASSED, "b", "c", 1);
    TwoTransfers(before, x, y, height);
    TwoTransfers(before, y, x, height);
    UndoTwo(Take(before, [x] + [y], height), x, y);
    UndoTwo(Take(before, [y] + [x], height), y, x);
  }

  lemma TwoTransfers(db: Owners, x: Nft, y: Nft, height: nat)
    ensures Take(db, [x] + [y], height) == Give(Give(db, x, height), y, height)
    ensures Consistent(db, [x] + [y], height) <==>
            Owner(db, x.token) == x.sender && Owner(Give(db, x, height), y.token) == y.sender
  {
    assert ([x] + [y])[1..] == [y] && [y][1..] == [];
    assert Take(Give(db, x, height), [y], height) == Take(Give(Give(db, x, height), y, height), [], height);
    assert Consistent(Give(Give(db, x, height), y, height), [], height);
  }

  lemma UndoTwo(db: Owners, x: Nft, y: Nft)
    ensures Undo(db, [x] + [y]) == SetOwner(SetOwner(db, y.token, y.sender), x.token, x.sender)
  {
    assert ([x] + [y])[1..] == [y] && [y][1..] == [];
    assert Undo(db, [y]) == SetOwner(Undo(db, []), y.token, y.sender);
  }
}
