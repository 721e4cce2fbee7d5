/** Batched contract calls: one aggregate call, and the bisection that isolates the inputs that make it fail. */
module MultiCallSpec {

  datatype Input = Input(target: string, callData: string)

  // What the node answers to one attempt: the request may fail, be answered from a chain that is too short, or the
  // call itself may fail; else it comes with the block it was made at and one output for each input.
  datatype Answer = Answer(failed: bool, chainHeight: nat, callFails: bool, blockNumber: nat, outputs: seq<string>)

  // The node's answer to its t-th request, which carries the given inputs.
  type Node = (nat, seq<Input>) -> Answer

  // The aggregate contract returns one output per input, from a block whose number fits an int64.
  ghost predicate Faithful(node: Node) {
    forall t: nat, inputs: seq<Input> {:trigger node(t, inputs)} ::
      |node(t, inputs).outputs| == |inputs| && node(t, inputs).blockNumber <= MAX_INT64
  }

  const MAX_INT64: nat := 0x7fff_ffff_ffff_ffff

  datatype Out = Output(data: string) | Err

  datatype Result = Result(blockNumber: nat, returnData: seq<Out>)

  function Outputs(outputs: seq<string>): (r: seq<Out>)
    ensures |r| == |outputs|
    ensures forall i {:trigger r[i]} :: 0 <= i < |r| ==> r[i] == Output(outputs[i])
  {
    seq(|outputs|, i requires 0 <= i < |outputs| => Output(outputs[i]))
  }

  // ------------------------------------------------------------------ specification

  // One aggregate call: the first attempt answered from a high enough chain, if there is one among `tries`.
  datatype Call = Failed(clock: nat) | Answered(result: Result, clock: nat)

  function Aggregate(node: Node, inputs: seq<Input>, minHeight: nat, tries: nat, t: nat): Call
    requires 1 <= tries
    decreases tries
  {
    var a := node(t, inputs);
    if a.failed || a.chainHeight < minHeight then
      if tries == 1 then Failed(t + 1) else Aggregate(node, inputs, minHeight, tries - 1, t + 1)
    else if a.callFails then Failed(t + 1)
    else Answered(Result(a.blockNumber, Outputs(a.outputs)), t + 1)
  }

  // A sub-call that is not split further: one that succeeds, or a single input that does not.
  datatype Leaf = Leaf(inputs: seq<Input>, blockNumber: nat, outs: seq<Out>)

  datatype Bisection = Bisection(leaves: seq<Leaf>, clock: nat, calls: nat)

  // What a batch that was split comes to.
  function Joined(a: Bisection, b: Bisection): Bisection {
    Bisection(a.leaves + b.leaves, b.clock, 1 + a.calls + b.calls)
  }

  function Bisect(node: Node, inputs: seq<Input>, minHeight: nat, tries: nat, t: nat): (r: Bisection)
    requires 1 <= tries && inputs != []
    ensures r.leaves != []
    decreases |inputs|
  {
    match Aggregate(node, inputs, minHeight, tries, t)
    case Answered(r, t') => Bisection([Leaf(inputs, r.blockNumber, r.returnData)], t', 1)
    case Failed(t') =>
      if |inputs| == 1 then Bisection([Leaf(inputs, MAX_INT64, [Err])], t', 1)
      else
        var mid := |inputs| / 2;
        var a := Bisect(node, inputs[..mid], minHeight, tries, t');
        var b := Bisect(node, inputs[mid..], minHeight, tries, a.clock);
        Joined(a, b)
  }

  function AllInputs(leaves: seq<Leaf>): seq<Input> {
    if leaves == [] then [] else leaves[0].inputs + AllInputs(leaves[1..])
  }

  function AllOuts(leaves: seq<Leaf>): seq<Out> {
    if leaves == [] then [] else leaves[0].outs + AllOuts(leaves[1..])
  }

  function MinBlock(leaves: seq<Leaf>): nat
    requires leaves != []
  {
    if |leaves| == 1 || leaves[0].blockNumber <= MinBlock(leaves[1..]) then leaves[0].blockNumber
    else MinBlock(leaves[1..])
  }

  // ------------------------------------------------------------------ what the bisection gives

  lemma {:induction false} LeavesConcat(a: seq<Leaf>, b: seq<Leaf>)
    ensures AllInputs(a + b) == AllInputs(a) + AllInputs(b) && AllOuts(a + b) == AllOuts(a) + AllOuts(b)
  {
    if a == [] {
      assert a + b == b;
    } else {
      assert (a + b)[0] == a[0] && (a + b)[1..] == a[1..] + b;
      LeavesConcat(a[1..], b);
    }
  }

  lemma {:induction false} MinConcat(a: seq<Leaf>, b: seq<Leaf>)
    requires a != [] && b != []
    ensures MinBlock(a + b) == if MinBlock(b) < MinBlock(a) then MinBlock(b) else MinBlock(a)
    decreases |a|
  {
    assert (a + b)[0] == a[0] && (a + b)[1..] == a[1..] + b;
    if |a| == 1 {
      assert a[1..] + b == b;
    } else {
      MinConcat(a[1..], b);
    }
  }

  lemma JustOne(l: Leaf)
    ensures AllOuts([l]) == l.outs && MinBlock([l]) == l.blockNumber
  {
    assert [l][1..] == [] && AllOuts([]) == [];
  }

  // A leaf is a sub-call answered from a high enough chain with one output per input, or a single input whose call
  // failed.
  ghost predicate IsLeaf(node: Node, minHeight: nat, l: Leaf) {
    && l.inputs != [] && |l.outs| == |l.inputs|
    && (IsAnswer(node, minHeight, l) || (|l.inputs| == 1 && l.outs == [Err] && l.blockNumber == MAX_INT64))
  }

  ghost predicate IsAnswer(node: Node, minHeight: nat, l: Leaf) {
    exists t: nat :: AnsweredAt(node, minHeight, l, t)
  }

  predicate AnsweredAt(node: Node, minHeight: nat, l: Leaf, t: nat) {
    var a := node(t, l.inputs);
    !a.failed && minHeight <= a.chainHeight && !a.callFails
        && l.blockNumber == a.blockNumber && l.outs == Outputs(a.outputs)
  }

  lemma {:induction false} AggregateAnswers(node: Node, inputs: seq<Input>, minHeight: nat, tries: nat, t: nat)
    requires 1 <= tries && Faithful(node)
    ensures var r := Aggregate(node, inputs, minHeight, tries, t);
            r.Answered? ==>
              && |r.result.returnData| == |inputs|
              && IsAnswer(node, minHeight, Leaf(inputs, r.result.blockNumber, r.result.returnData))
    decreases tries
  {
    var a := node(t, inputs);
    if a.failed || a.chainHeight < minHeight {
      if tries > 1 {
        AggregateAnswers(node, inputs, minHeight, tries - 1, t + 1);
      }
    } else if !a.callFails {
      assert AnsweredAt(node, minHeight, Leaf(inputs, a.blockNumber, Outputs(a.outputs)), t);
    }
  }

  // The attempt is answered, and from a high enough chain.
  predicate Usable(node: Node, inputs: seq<Input>, minHeight: nat, t: nat) {
    !node(t, inputs).failed && minHeight <= node(t, inputs).chainHeight
  }

  // Attempt n is the first usable one since attempt t.
  ghost predicate FirstUsable(node: Node, inputs: seq<Input>, minHeight: nat, t: nat, n: nat) {
    t <= n && Usable(node, inputs, minHeight, n) && forall k: nat :: t <= k < n ==> !Usable(node, inputs, minHeight, k)
  }

  // The first usable one of the attempts t .. t+tries-1 decides: the call gives what it answers, or fails if the
  // contract call failed there. Without a usable one all attempts are made and the call fails.
  lemma {:induction false} FirstDecides(node: Node, inputs: seq<Input>, minHeight: nat, tries: nat, t: nat)
    returns (n: nat)
    requires 1 <= tries
    ensures var r := Aggregate(node, inputs, minHeight, tries, t);
            if n < t + tries then FirstUsable(node, inputs, minHeight, t, n) && Decides(r, node(n, inputs), n)
            else
              && (forall k: nat :: t <= k < t + tries ==> !Usable(node, inputs, minHeight, k))
              && r == Failed(t + tries)
    decreases tries
  {
    if Usable(node, inputs, minHeight, t) {
      n := t;
    } else if tries > 1 {
      n := FirstDecides(node, inputs, minHeight, tries - 1, t + 1);
    } else {
      n := t + 1;
    }
  }

  // The call comes to what attempt n was answered.
  predicate Decides(r: Call, a: Answer, n: nat) {
    && r.clock == n + 1
    && (r.Failed? <==> a.callFails)
    && (r.Answered? ==>
          && r.result.blockNumber == a.blockNumber && |r.result.returnData| == |a.outputs|
          && forall i :: 0 <= i < |a.outputs| ==> r.result.returnData[i] == Output(a.outputs[i]))
  }

  ghost predicate AllLeaves(node: Node, minHeight: nat, leaves: seq<Leaf>) {
    forall i {:trigger leaves[i]} :: 0 <= i < |leaves| ==> IsLeaf(node, minHeight, leaves[i])
  }

  // The leaves split the inputs in order, with one output for each input.
  ghost predicate Partition(node: Node, minHeight: nat, inputs: seq<Input>, leaves: seq<Leaf>) {
    leaves != [] && AllInputs(leaves) == inputs && |AllOuts(leaves)| == |inputs| && AllLeaves(node, minHeight, leaves)
  }

  lemma OneLeaf(node: Node, minHeight: nat, l: Leaf)
    requires IsLeaf(node, minHeight, l)
    ensures Partition(node, minHeight, l.inputs, [l]) && AllOuts([l]) == l.outs
  {
    assert [l][1..] == [] && AllInputs([]) == [] && AllOuts([]) == [];
  }

  lemma MergePartitions(node: Node, minHeight: nat, a: seq<Input>, x: seq<Leaf>, b: seq<Input>, y: seq<Leaf>)
    requires Partition(node, minHeight, a, x) && Partition(node, minHeight, b, y)
    ensures Partition(node, minHeight, a + b, x + y) && AllOuts(x + y) == AllOuts(x) + AllOuts(y)
    ensures MinBlock(x + y) == if MinBlock(y) < MinBlock(x) then MinBlock(y) else MinBlock(x)
  {
    LeavesConcat(x, y);
    MinConcat(x, y);
    var leaves := x + y;
    forall i | 0 <= i < |leaves| ensures IsLeaf(node, minHeight, leaves[i]) {
      assert leaves[i] == if i < |x| then x[i] else y[i - |x|];
    }
  }

  // The sub-calls partition the inputs in order, and their outputs are the result in order.
  lemma {:induction false} BisectPartitions(node: Node, inputs: seq<Input>, minHeight: nat, tries: nat, t: nat)
    requires 1 <= tries && inputs != [] && Faithful(node)
    ensures Partition(node, minHeight, inputs, Bisect(node, inputs, minHeight, tries, t).leaves)
    decreases |inputs|
  {
    hide Partition, IsAnswer, Aggregate;
    var r := Aggregate(node, inputs, minHeight, tries, t);
    AggregateAnswers(node, inputs, minHeight, tries, t);
    if r.Answered? {
      OneLeaf(node, minHeight, Leaf(inputs, r.result.blockNumber, r.result.returnData));
    } else if |inputs| == 1 {
      OneLeaf(node, minHeight, Leaf(inputs, MAX_INT64, [Err]));
    } else {
      var mid := |inputs| / 2;
      BisectPartitions(node, inputs[..mid], minHeight, tries, r.clock);
      var x := Bisect(node, inputs[..mid], minHeight, tries, r.clock);
      BisectPartitions(node, inputs[mid..], minHeight, tries, x.clock);
      var y := Bisect(node, inputs[mid..], minHeight, tries, x.clock);
      MergePartitions(node, minHeight, inputs[..mid], x.leaves, inputs[mid..], y.leaves);
      assert inputs == inputs[..mid] + inputs[mid..];
    }
  }

  ghost predicate Attained(node: Node, minHeight: nat, leaves: seq<Leaf>, m: nat) {
    exists i :: 0 <= i < |leaves| && IsAnswer(node, minHeight, leaves[i]) && leaves[i].blockNumber == m
  }

  ghost predicate SomeAnswer(node: Node, minHeight: nat, leaves: seq<Leaf>) {
    exists i :: 0 <= i < |leaves| && IsAnswer(node, minHeight, leaves[i])
  }

  // The block number is the lowest of the answered sub-calls; if none was answered it is the largest int64.
  lemma {:induction false} MinIsLowest(node: Node, minHeight: nat, leaves: seq<Leaf>)
    requires leaves != [] && Faithful(node) && AllLeaves(node, minHeight, leaves)
    ensures var m := MinBlock(leaves);
            && (forall i {:trigger leaves[i]} :: 0 <= i < |leaves| ==> m <= leaves[i].blockNumber)
            && m <= MAX_INT64
            && if SomeAnswer(node, minHeight, leaves) then Attained(node, minHeight, leaves, m) else m == MAX_INT64
    decreases |leaves|
  {
    LeafBound(node, minHeight, leaves[0]);
    if |leaves| > 1 {
      var rest := leaves[1..];
      MinIsLowest(node, minHeight, rest);
      forall i | 0 <= i < |leaves| ensures MinBlock(leaves) <= leaves[i].blockNumber {
        if 0 < i {
          assert leaves[i] == rest[i - 1];
        }
      }
      hide IsAnswer;
      RestAnswers(node, minHeight, leaves, MinBlock(leaves));
    }
  }

  lemma RestAnswers(node: Node, minHeight: nat, leaves: seq<Leaf>, m: nat)
    requires leaves != []
    ensures SomeAnswer(node, minHeight, leaves) <==>
            IsAnswer(node, minHeight, leaves[0]) || SomeAnswer(node, minHeight, leaves[1..])
    ensures Attained(node, minHeight, leaves, m) <==>
            (IsAnswer(node, minHeight, leaves[0]) && leaves[0].blockNumber == m)
            || Attained(node, minHeight, leaves[1..], m)
  {
    hide IsAnswer;
    var rest := leaves[1..];
    forall i | 0 <= i < |rest| ensures rest[i] == leaves[i + 1] {
    }
    if SomeAnswer(node, minHeight, rest) {
      var i :| 0 <= i < |rest| && IsAnswer(node, minHeight, rest[i]);
      assert IsAnswer(node, minHeight, leaves[i + 1]);
    }
    if Attained(node, minHeight, rest, m) {
      var i :| 0 <= i < |rest| && IsAnswer(node, minHeight, rest[i]) && rest[i].blockNumber == m;
      assert IsAnswer(node, minHeight, leaves[i + 1]) && leaves[i + 1].blockNumber == m;
    }
    if SomeAnswer(node, minHeight, leaves) && !IsAnswer(node, minHeight, leaves[0]) {
      var i :| 0 <= i < |leaves| && IsAnswer(node, minHeight, leaves[i]);
      assert IsAnswer(node, minHeight, rest[i - 1]);
    }
    if Attained(node, minHeight, leaves, m) && !(IsAnswer(node, minHeight, leaves[0]) && leaves[0].blockNumber == m) {
      var i :| 0 <= i < |leaves| && IsAnswer(node, minHeight, leaves[i]) && leaves[i].blockNumber == m;
      assert IsAnswer(node, minHeight, rest[i - 1]) && rest[i - 1].blockNumber == m;
    }
  }

  lemma LeafBound(node: Node, minHeight: nat, l: Leaf)
    requires Faithful(node) && IsLeaf(node, minHeight, l)
    ensures l.blockNumber <= MAX_INT64
  {
    if IsAnswer(node, minHeight, l) {
      var t: nat :| AnsweredAt(node, minHeight, l, t);
      assert node(t, l.inputs).blockNumber <= MAX_INT64;
    }
  }

  // ------------------------------------------------------------------ bad inputs

  // A sub-call fails exactly when it contains a bad input.
  ghost predicate FailsOnBad(node: Node, minHeight: nat, bad: Input -> bool) {
    forall t: nat, inputs: seq<Input> :: FailsAt(node, minHeight, bad, t, inputs)
  }

  ghost predicate FailsAt(node: Node, minHeight: nat, bad: Input -> bool, t: nat, inputs: seq<Input>) {
    var a := node(t, inputs);
    !a.failed && minHeight <= a.chainHeight && (a.callFails <==> 0 < CountBad(inputs, bad))
  }

  function CountBad(inputs: seq<Input>, bad: Input -> bool): nat {
    if inputs == [] then 0 else (if bad(inputs[0]) then 1 else 0) + CountBad(inputs[1..], bad)
  }

  lemma {:induction false} CountConcat(a: seq<Input>, b: seq<Input>, bad: Input -> bool)
    ensures CountBad(a + b, bad) == CountBad(a, bad) + CountBad(b, bad)
  {
    if a == [] {
      assert a + b == b;
    } else {
      assert (a + b)[0] == a[0] && (a + b)[1..] == a[1..] + b;
      CountConcat(a[1..], b, bad);
    }
  }

  lemma {:induction false} NoneBad(inputs: seq<Input>, bad: Input -> bool, i: nat)
    requires CountBad(inputs, bad) == 0 && i < |inputs|
    ensures !bad(inputs[i])
  {
    if 0 < i {
      NoneBad(inputs[1..], bad, i - 1);
    }
  }

  // Result i is an error if and only if input i is bad.
  lemma {:induction false} ErrIffBad(node: Node, inputs: seq<Input>, minHeight: nat, tries: nat, t: nat,
          bad: Input -> bool, i: nat)
    requires 1 <= tries && inputs != [] && Faithful(node) && FailsOnBad(node, minHeight, bad) && i < |inputs|
    ensures var outs := AllOuts(Bisect(node, inputs, minHeight, tries, t).leaves);
            |outs| == |inputs| && (outs[i].Err? <==> bad(inputs[i]))
    decreases |inputs|
  {
    hide AllOuts, Aggregate, CountBad, FailsOnBad, Faithful, Joined;
    AnswersBad(node, inputs, minHeight, tries, t, bad);
    var r := Aggregate(node, inputs, minHeight, tries, t);
    if r.Failed? && |inputs| > 1 {
      var a, b := inputs[..|inputs| / 2], inputs[|inputs| / 2..];
      var x := Bisect(node, a, minHeight, tries, r.clock);
      var y := Bisect(node, b, minHeight, tries, x.clock);
      assert Bisect(node, inputs, minHeight, tries, t) == Joined(x, y);
      JoinedOuts(x, y);
      ErrIffBad(node, a, minHeight, tries, r.clock, bad, if i < |a| then i else 0);
      ErrIffBad(node, b, minHeight, tries, x.clock, bad, if i < |a| then 0 else i - |a|);
    } else {
      WholeOuts(node, inputs, minHeight, tries, t);
      if r.Answered? {
        OutputsOnly(node, inputs, minHeight, tries, t);
        NoneBad(inputs, bad, i);
      } else {
        OneBad(inputs, bad);
      }
    }
  }

  lemma OneBad(inputs: seq<Input>, bad: Input -> bool)
    requires |inputs| == 1 && 0 < CountBad(inputs, bad)
    ensures bad(inputs[0])
  {
    assert CountBad(inputs[1..], bad) == 0;
  }

  lemma {:induction false} OutputsOnly(node: Node, inputs: seq<Input>, minHeight: nat, tries: nat, t: nat)
    requires 1 <= tries && Faithful(node)
    ensures var r := Aggregate(node, inputs, minHeight, tries, t);
            r.Answered? ==>
              |r.result.returnData| == |inputs| && forall i :: 0 <= i < |inputs| ==> r.result.returnData[i].Output?
    decreases tries
  {
    var a := node(t, inputs);
    if (a.failed || a.chainHeight < minHeight) && 1 < tries {
      OutputsOnly(node, inputs, minHeight, tries - 1, t + 1);
    }
  }

  // A batch that is not split yields what its one call does.
  lemma WholeOuts(node: Node, inputs: seq<Input>, minHeight: nat, tries: nat, t: nat)
    requires 1 <= tries && inputs != []
    ensures match Aggregate(node, inputs, minHeight, tries, t)
            case Answered(r, _) => AllOuts(Bisect(node, inputs, minHeight, tries, t).leaves) == r.returnData
            case Failed(_) => |inputs| == 1 ==> AllOuts(Bisect(node, inputs, minHeight, tries, t).leaves) == [Err]
  {
    hide Aggregate, AllOuts;
    match Aggregate(node, inputs, minHeight, tries, t)
    case Answered(r, _) => JustOne(Leaf(inputs, r.blockNumber, r.returnData));
    case Failed(_) => JustOne(Leaf(inputs, MAX_INT64, [Err]));
  }

  lemma JoinedCalls(a: Bisection, b: Bisection)
    ensures Joined(a, b).calls == 1 + a.calls + b.calls
  {
  }

  // A batch that is split yields what its halves yield.
  lemma JoinedOuts(a: Bisection, b: Bisection)
    ensures AllOuts(Joined(a, b).leaves) == AllOuts(a.leaves) + AllOuts(b.leaves)
  {
    LeavesConcat(a.leaves, b.leaves);
  }

  // The logarithm to base 2, rounded up.
  function CeilLog2(n: nat): nat {
    if n <= 1 then 0 else 1 + CeilLog2((n + 1) / 2)
  }

  function Pow2(k: nat): nat {
    if k == 0 then 1 else 2 * Pow2(k - 1)
  }

  lemma {:induction false} CeilLog2Is(n: nat)
    requires 1 <= n
    ensures n <= Pow2(CeilLog2(n)) && (1 < n ==> Pow2(CeilLog2(n) - 1) < n)
  {
    if 1 < n {
      CeilLog2Is((n + 1) / 2);
    }
  }

  lemma {:induction false} CeilLog2Monotone(m: nat, n: nat)
    requires m <= n
    ensures CeilLog2(m) <= CeilLog2(n)
    decreases n
  {
    if 1 < m {
      CeilLog2Monotone((m + 1) / 2, (n + 1) / 2);
    }
  }

  function MaxCalls(k: nat, log: nat): nat {
    1 + 2 * (k * log)
  }

  // With k bad inputs among n, at most 1 + 2 k ceil(log2 n) aggregate calls are made.
  lemma {:induction false} CallsBounded(node: Node, inputs: seq<Input>, minHeight: nat, tries: nat, t: nat,
          bad: Input -> bool)
    requires 1 <= tries && inputs != [] && FailsOnBad(node, minHeight, bad)
    ensures Bisect(node, inputs, minHeight, tries, t).calls <= MaxCalls(CountBad(inputs, bad), CeilLog2(|inputs|))
    decreases |inputs|
  {
    hide Aggregate, CountBad, CeilLog2, MaxCalls, FailsOnBad, Joined;
    var k := CountBad(inputs, bad);
    AnswersBad(node, inputs, minHeight, tries, t, bad);
    var r := Aggregate(node, inputs, minHeight, tries, t);
    if r.Failed? && |inputs| > 1 {
      var a, b := inputs[..|inputs| / 2], inputs[|inputs| / 2..];
      var x := Bisect(node, a, minHeight, tries, r.clock);
      var y := Bisect(node, b, minHeight, tries, x.clock);
      assert Bisect(node, inputs, minHeight, tries, t) == Joined(x, y);
      JoinedCalls(x, y);
      CallsBounded(node, a, minHeight, tries, r.clock, bad);
      CallsBounded(node, b, minHeight, tries, x.clock, bad);
      assert inputs == a + b;
      CountConcat(a, b, bad);
      Halves(|inputs|, CountBad(a, bad), CountBad(b, bad));
    } else {
      assert Bisect(node, inputs, minHeight, tries, t).calls == 1;
      AtLeastOne(k, CeilLog2(|inputs|));
    }
  }

  lemma AtLeastOne(k: nat, log: nat)
    ensures 1 <= MaxCalls(k, log)
  {
  }

  lemma AnswersBad(node: Node, inputs: seq<Input>, minHeight: nat, tries: nat, t: nat, bad: Input -> bool)
    requires 1 <= tries && FailsOnBad(node, minHeight, bad)
    ensures Aggregate(node, inputs, minHeight, tries, t).Failed? <==> 0 < CountBad(inputs, bad)
  {
    hide CountBad;
    assert FailsAt(node, minHeight, bad, t, inputs);
  }

  // A batch of n inputs that fails costs one call more than its halves, and its halves are one level lower.
  lemma Halves(n: nat, j: nat, k: nat)
    requires 1 < n && 0 < j + k
    ensures 1 + MaxCalls(j, CeilLog2(n / 2)) + MaxCalls(k, CeilLog2(n - n / 2)) <= MaxCalls(j + k, CeilLog2(n))
  {
    var log := CeilLog2(n - n / 2);
    assert CeilLog2(n) == 1 + log by {
      assert n - n / 2 == (n + 1) / 2;
    }
    CeilLog2Monotone(n / 2, n - n / 2);
    hide CeilLog2, MaxCalls;
    Levels(j, k, CeilLog2(n / 2), log);
  }

  lemma Levels(j: nat, k: nat, l: nat, log: nat)
    requires l <= log && 0 < j + k
    ensures 1 + MaxCalls(j, l) + MaxCalls(k, log) <= MaxCalls(j + k, 1 + log)
  {
    assert j * l <= j * log;
    assert (j + k) * (1 + log) == j * log + k * log + j + k;
  }
}
