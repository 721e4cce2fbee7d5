/** Tables whose rows belong to a block and are flipped, not deleted, when the block is reverted. */
module Table {
  import opened Chain

  datatype RowState = Ok | Reverted

  datatype Row<T> = Row(num: nat, state: RowState, val: T)

  // The rows of a table, in the order they were inserted.
  type Rows<T> = seq<Row<T>>

  function RowsOf<T>(num: nat, vals: seq<T>): (r: Rows<T>)
    ensures |r| == |vals|
    ensures forall i {:trigger r[i]} :: 0 <= i < |r| ==> r[i] == Row(num, Ok, vals[i])
  {
    seq(|vals|, i requires 0 <= i < |vals| => Row(num, Ok, vals[i]))
  }

  predicate HasOk<T>(t: Rows<T>, num: nat) {
    exists i :: 0 <= i < |t| && t[i].num == num && t[i].state == Ok
  }

  // update ... set state = revert where num = n and state = ok
  function Flip<T>(t: Rows<T>, num: nat): (r: Rows<T>)
    ensures |r| == |t|
    ensures forall i {:trigger r[i]} :: 0 <= i < |r| ==>
              r[i] == if t[i].num == num && t[i].state == Ok then t[i].(state := Reverted) else t[i]
  {
    seq(|t|, i requires 0 <= i < |t| => if t[i].num == num && t[i].state == Ok then t[i].(state := Reverted) else t[i])
  }

  // ------------------------------------------------------------------ live rows

  function Live<T>(t: Rows<T>): Rows<T> {
    if t == [] then [] else Live(t[..|t| - 1]) + (if t[|t| - 1].state == Ok then [t[|t| - 1]] else [])
  }

  function Without<T>(t: Rows<T>, num: nat): Rows<T> {
    if t == [] then [] else Without(t[..|t| - 1], num) + (if t[|t| - 1].num != num then [t[|t| - 1]] else [])
  }

  // The rows the given blocks have in the table that `pick` fills.
  function Part<T>(pick: Block -> seq<T>, blocks: seq<Block>): Rows<T> {
    if blocks == [] then []
    else Part(pick, blocks[..|blocks| - 1]) + RowsOf(blocks[|blocks| - 1].number, pick(blocks[|blocks| - 1]))
  }

  lemma {:induction false} LiveConcat<T>(a: Rows<T>, b: Rows<T>)
    ensures Live(a + b) == Live(a) + Live(b)
    decreases |b|
  {
    if b == [] {
      assert a + b == a;
    } else {
      assert (a + b)[..|a + b| - 1] == a + b[..|b| - 1];
      LiveConcat(a, b[..|b| - 1]);
    }
  }

  lemma {:induction false} WithoutConcat<T>(a: Rows<T>, b: Rows<T>, num: nat)
    ensures Without(a + b, num) == Without(a, num) + Without(b, num)
    decreases |b|
  {
    if b == [] {
      assert a + b == a;
    } else {
      assert (a + b)[..|a + b| - 1] == a + b[..|b| - 1];
      WithoutConcat(a, b[..|b| - 1], num);
    }
  }

  lemma {:induction false} LiveNew<T>(num: nat, vals: seq<T>)
    ensures Live(RowsOf(num, vals)) == RowsOf(num, vals)
    decreases |vals|
  {
    var r := RowsOf(num, vals);
    if r != [] {
      assert r[..|r| - 1] == RowsOf(num, vals[..|vals| - 1]);
      LiveNew(num, vals[..|vals| - 1]);
      assert r == r[..|r| - 1] + [r[|r| - 1]] && r[|r| - 1].state == Ok;
    }
  }

  lemma {:induction false} WithoutAll<T>(num: nat, vals: seq<T>)
    ensures Without(RowsOf(num, vals), num) == []
    decreases |vals|
  {
    var r := RowsOf(num, vals);
    if r != [] {
      assert r[..|r| - 1] == RowsOf(num, vals[..|vals| - 1]);
      WithoutAll(num, vals[..|vals| - 1]);
    }
  }

  lemma {:induction false} WithoutNone<T>(t: Rows<T>, num: nat)
    requires NumbersIn(t, 0, num)
    ensures Without(t, num) == t
  {
    if t != [] {
      var a := t[..|t| - 1];
      forall i: nat ensures NumberIn(a, i, 0, num) {
        assert NumberIn(t, i, 0, num);
      }
      assert NumberIn(t, |t| - 1, 0, num);
      WithoutNone(a, num);
    }
  }

  lemma {:induction false} FlipDropsLive<T>(t: Rows<T>, num: nat)
    ensures Live(Flip(t, num)) == Without(Live(t), num)
  {
    if t != [] {
      var last := t[|t| - 1];
      assert Flip(t, num)[..|t| - 1] == Flip(t[..|t| - 1], num);
      FlipDropsLive(t[..|t| - 1], num);
      WithoutConcat(Live(t[..|t| - 1]), if last.state == Ok then [last] else [], num);
      assert last.state == Ok ==> [last][..0] == [];
    }
  }

  predicate NumberIn<T>(t: Rows<T>, i: nat, lo: nat, hi: nat) {
    i < |t| ==> lo <= t[i].num < hi
  }

  ghost predicate NumbersIn<T>(t: Rows<T>, lo: nat, hi: nat) {
    forall i: nat :: NumberIn(t, i, lo, hi)
  }

  lemma {:induction false} PartNumbers<T>(pick: Block -> seq<T>, st: Stack, n: nat)
    requires st.Contiguous() && n <= |st.blocks|
    ensures NumbersIn(Part(pick, st.blocks[..n]), st.base, st.base + n)
  {
    if n != 0 {
      assert st.blocks[..n][..n - 1] == st.blocks[..n - 1];
      PartNumbers(pick, st, n - 1);
      assert st.NumberedAt(n - 1);
      var p, a, r := Part(pick, st.blocks[..n]), Part(pick, st.blocks[..n - 1]),
          RowsOf(st.base + n - 1, pick(st.blocks[n - 1]));
      assert NumbersIn(a, st.base, st.base + n - 1);
      var hi := st.base + n;
      forall i: nat ensures NumberIn(p, i, st.base, hi) {
        assert NumberIn(a, i, st.base, st.base + n - 1);
        assert i < |p| ==> p[i] == if i < |a| then a[i] else r[i - |a|];
      }
    }
  }

  // A table whose live rows are those of the stack's blocks, in the order of the stack.
  ghost predicate Mirrors<T>(t: Rows<T>, pick: Block -> seq<T>, st: Stack) {
    Live(t) == Part(pick, st.blocks)
  }

  lemma PushMirrors<T>(t: Rows<T>, pick: Block -> seq<T>, st: Stack, b: Block)
    requires Mirrors(t, pick, st)
    ensures Mirrors(t + RowsOf(b.number, pick(b)), pick, Stack(st.base, st.blocks + [b]))
  {
    LiveConcat(t, RowsOf(b.number, pick(b)));
    LiveNew(b.number, pick(b));
    assert (st.blocks + [b])[..|st.blocks|] == st.blocks;
  }

  lemma PopMirrors<T>(t: Rows<T>, pick: Block -> seq<T>, st: Stack)
    requires Mirrors(t, pick, st) && st.Contiguous() && st.blocks != []
    ensures Mirrors(Flip(t, st.Next() - 1), pick, Stack(st.base, st.blocks[..|st.blocks| - 1]))
  {
    var n := |st.blocks| - 1;
    var top := st.blocks[n];
    assert st.NumberedAt(n);
    FlipDropsLive(t, top.number);
    WithoutConcat(Part(pick, st.blocks[..n]), RowsOf(top.number, pick(top)), top.number);
    PartNumbers(pick, st, n);
    var below := Part(pick, st.blocks[..n]);
    assert NumbersIn(below, st.base, st.base + n);
    forall i: nat ensures NumberIn(below, i, 0, top.number) {
      assert NumberIn(below, i, st.base, st.base + n);
    }
    WithoutNone(below, top.number);
    WithoutAll(top.number, pick(top));
  }
}
