/** Blocks, the push/pop events the fetcher publishes, and the block stack those events describe. */
module Chain {

  type Hash = string

  // The node reports the parent of the genesis block as this hash.
  const ZERO_HASH: Hash := "0x0000000000000000000000000000000000000000000000000000000000000000"

  const TWO_64: nat := 0x1_0000_0000_0000_0000
  const MAX_64: nat := TWO_64 - 1

  // Subtraction on uint64 heights: below zero it wraps around.
  function Sub64(a: nat, b: nat): nat {
    if b <= a then a - b else (a - b) % TWO_64
  }

  function Add64(a: nat, b: nat): nat {
    (a + b) % TWO_64
  }

  lemma Add64Fits(a: nat, b: nat)
    requires a + b < TWO_64
    ensures Add64(a, b) == a + b
  {
  }

  datatype EventLog = EventLog(addr: string, topic0: string, topic1: string, topic2: string, topic3: string,
                               value: nat, index: nat)

  datatype Tx = Tx(hash: Hash, logs: seq<EventLog>)

  datatype Internal = Internal(txHash: Hash, addrFrom: string, addrTo: string, value: nat)

  datatype Block = Block(number: nat, hash: Hash, parentHash: Hash, txCnt: nat, txs: seq<Tx>, internals: seq<Internal>)

  // A block on the feed: State 0 announces it, State 1 takes it back.
  datatype Event = Push(blk: Block) | Pop(blk: Block)

  // The chain a reader of the feed has seen and not seen reverted. blocks[i] has number base + i.
  datatype Stack = Stack(base: nat, blocks: seq<Block>) {

    // The number the next block must have.
    function Next(): nat {
      base + |blocks|
    }

    ghost predicate Contiguous() {
      forall i: nat :: NumberedAt(i)
    }

    predicate NumberedAt(i: nat) {
      i < |blocks| ==> blocks[i].number == base + i
    }

    predicate Has(height: nat) {
      base <= height < Next()
    }

    function At(height: nat): Block
      requires Has(height)
    {
      blocks[height - base]
    }

    // Every block names the block beneath it as its parent.
    ghost predicate Linked() {
      forall i: nat :: LinkedAt(i)
    }

    predicate LinkedAt(i: nat) {
      0 < i < |blocks| ==> blocks[i].parentHash == blocks[i - 1].hash
    }
  }

  predicate Enabled(st: Stack, e: Event) {
    match e
    case Push(b) => b.number == st.Next()
    case Pop(b) => st.blocks != [] && st.blocks[|st.blocks| - 1] == b
  }

  function Apply(st: Stack, e: Event): (r: Stack)
    requires Enabled(st, e)
    ensures r.base == st.base
  {
    match e
    case Push(b) => Stack(st.base, st.blocks + [b])
    case Pop(_) => Stack(st.base, st.blocks[..|st.blocks| - 1])
  }

  lemma ApplyContiguous(st: Stack, e: Event)
    requires st.Contiguous() && Enabled(st, e)
    ensures Apply(st, e).Contiguous()
  {
    var r := Apply(st, e);
    forall i: nat ensures r.NumberedAt(i) {
      assert st.NumberedAt(i);
    }
  }

  predicate WellFormed(st: Stack, feed: seq<Event>)
    decreases |feed|
  {
    feed == [] || (Enabled(st, feed[0]) && WellFormed(Apply(st, feed[0]), feed[1..]))
  }

  function Replay(st: Stack, feed: seq<Event>): (r: Stack)
    requires WellFormed(st, feed)
    ensures r.base == st.base
    decreases |feed|
  {
    if feed == [] then st else Replay(Apply(st, feed[0]), feed[1..])
  }

  lemma {:induction false} ReplayContiguous(st: Stack, feed: seq<Event>)
    requires st.Contiguous() && WellFormed(st, feed)
    ensures Replay(st, feed).Contiguous()
    decreases |feed|
  {
    if feed != [] {
      ApplyContiguous(st, feed[0]);
      ReplayContiguous(Apply(st, feed[0]), feed[1..]);
    }
  }

  lemma {:induction false} ReplayConcat(st: Stack, a: seq<Event>, b: seq<Event>)
    requires WellFormed(st, a) && WellFormed(Replay(st, a), b)
    ensures WellFormed(st, a + b) && Replay(st, a + b) == Replay(Replay(st, a), b)
    decreases |a|
  {
    if a == [] {
      assert a + b == b;
    } else {
      ReplayConcat(Apply(st, a[0]), a[1..], b);
      assert (a + b)[0] == a[0] && (a + b)[1..] == a[1..] + b;
    }
  }

  lemma {:induction false} SplitFeed(st: Stack, a: seq<Event>, b: seq<Event>)
    requires WellFormed(st, a + b)
    ensures WellFormed(st, a) && WellFormed(Replay(st, a), b)
    decreases |a|
  {
    if a == [] {
      assert a + b == b;
    } else {
      assert (a + b)[0] == a[0] && (a + b)[1..] == a[1..] + b;
      SplitFeed(Apply(st, a[0]), a[1..], b);
    }
  }

  lemma {:induction false} NextAtMost(st: Stack, feed: seq<Event>)
    requires WellFormed(st, feed)
    ensures Replay(st, feed).Next() <= st.Next() + |feed|
    decreases |feed|
  {
    if feed != [] {
      NextAtMost(Apply(st, feed[0]), feed[1..]);
    }
  }

  // The feed is well-formed and takes the stack st to goal.
  predicate Leads(st: Stack, feed: seq<Event>, goal: Stack) {
    WellFormed(st, feed) && Replay(st, feed) == goal
  }

  lemma LeadsNowhere(st: Stack)
    ensures Leads(st, [], st)
  {
  }

  lemma LeadsConcat(st: Stack, a: seq<Event>, mid: Stack, b: seq<Event>, goal: Stack)
    requires Leads(st, a, mid) && Leads(mid, b, goal)
    ensures Leads(st, a + b, goal)
  {
    ReplayConcat(st, a, b);
  }

  lemma LeadsOne(st: Stack, e: Event)
    requires Enabled(st, e)
    ensures Leads(st, [e], Apply(st, e))
  {
    assert [e][1..] == [];
    assert WellFormed(Apply(st, e), []);
  }

  // ------------------------------------------------------------------ feeds cut short

  // The feed takes the stack st to goal on its way: its first n events do.
  ghost predicate GoesThrough(st: Stack, feed: seq<Event>, goal: Stack) {
    exists n :: 0 <= n <= |feed| && Leads(st, feed[..n], goal)
  }

  lemma ThroughStart(st: Stack, feed: seq<Event>)
    ensures GoesThrough(st, feed, st)
  {
    LeadsNowhere(st);
    assert feed[..0] == [];
  }

  lemma ThroughLater(st: Stack, a: seq<Event>, mid: Stack, b: seq<Event>, goal: Stack)
    requires Leads(st, a, mid) && GoesThrough(mid, b, goal)
    ensures GoesThrough(st, a + b, goal)
  {
    var n :| 0 <= n <= |b| && Leads(mid, b[..n], goal);
    LeadsConcat(st, a, mid, b[..n], goal);
    assert (a + b)[..|a| + n] == a + b[..n];
  }

  lemma ThroughLonger(st: Stack, a: seq<Event>, b: seq<Event>, goal: Stack)
    requires GoesThrough(st, a, goal)
    ensures GoesThrough(st, a + b, goal)
  {
    var n :| 0 <= n <= |a| && Leads(st, a[..n], goal);
    assert (a + b)[..n] == a[..n];
  }

  // Feeds one after the other, each cut short at some point: the next one goes on from where the one before was cut.
  ghost predicate Passes(st: Stack, feeds: seq<seq<Event>>, goal: Stack)
    decreases |feeds|
  {
    if feeds == [] then goal == st else exists mid :: GoesThrough(st, feeds[0], mid) && Passes(mid, feeds[1..], goal)
  }
}
