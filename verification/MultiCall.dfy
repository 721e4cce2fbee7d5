/** The batched contract caller as the program runs it. */
module MultiCall {
  import opened MultiCallSpec
  import opened Wrappers

  class MultiCall {
    const node: Node
    const retryTimes: nat
    // How many requests the node has answered, and how many aggregate calls were made.
    var clock: nat
    var calls: nat

    constructor (node: Node, retryTimes: nat)
      ensures this.node == node && this.retryTimes == retryTimes && clock == 0 && calls == 0
    {
      this.node, this.retryTimes := node, retryTimes;
      clock, calls := 0, 0;
    }

    method Aggregate(inputs: seq<Input>, minHeight: nat) returns (res: Option<Result>)
      modifies this
      ensures calls == old(calls) + 1
      ensures match MultiCallSpec.Aggregate(node, inputs, minHeight, retryTimes + 1, old(clock))
              case Failed(t) => res == None && clock == t
              case Answered(r, t) => res == Some(r) && clock == t
    {
      calls := calls + 1;
      var inc := 0;
      while true
        invariant inc <= retryTimes && calls == old(calls) + 1
        invariant MultiCallSpec.Aggregate(node, inputs, minHeight, retryTimes + 1 - inc, clock)
               == MultiCallSpec.Aggregate(node, inputs, minHeight, retryTimes + 1, old(clock))
        decreases retryTimes - inc
      {
        var a := node(clock, inputs);
        clock := clock + 1;
        if !a.failed && a.chainHeight >= minHeight {
          if a.callFails {
            return None;
          }
          var outs: seq<Out> := [];
          var i := 0;
          while i < |a.outputs|
            invariant 0 <= i <= |a.outputs| && |outs| == i
            invariant forall j {:trigger outs[j]} :: 0 <= j < i ==> outs[j] == Output(a.outputs[j])
          {
            outs := outs + [Output(a.outputs[i])];
            i := i + 1;
          }
          assert outs == Outputs(a.outputs);
          return Some(Result(a.blockNumber, outs));
        }
        inc := inc + 1;
        if inc > retryTimes {
          return None;
        }
      }
    }

    // A failing batch is split in two until the inputs that fail stand alone.
    method AggregateWithRetry(inputs: seq<Input>, minHeight: nat) returns (res: Option<Result>)
      modifies this
      ensures if inputs == [] then
                match MultiCallSpec.Aggregate(node, inputs, minHeight, retryTimes + 1, old(clock))
                case Failed(_) => res == None
                case Answered(r, _) => res == Some(r)
              else
                var b := Bisect(node, inputs, minHeight, retryTimes + 1, old(clock));
                && res == Some(Result(MinBlock(b.leaves), AllOuts(b.leaves))) && clock == b.clock
                && calls == old(calls) + b.calls
      decreases |inputs|
    {
      res := Aggregate(inputs, minHeight);
      if res != None || |inputs| == 0 {
        if res != None && |inputs| != 0 {
          JustOne(Leaf(inputs, res.value.blockNumber, res.value.returnData));
        }
        return;
      }
      if |inputs| == 1 {
        JustOne(Leaf(inputs, MAX_INT64, [Err]));
        return Some(Result(MAX_INT64, [Err]));
      }
      var size := |inputs|;
      ghost var x := Bisect(node, inputs[..size / 2], minHeight, retryTimes + 1, clock);
      var res1 := AggregateWithRetry(inputs[..size / 2], minHeight);
      ghost var y := Bisect(node, inputs[size / 2..], minHeight, retryTimes + 1, clock);
      var res2 := AggregateWithRetry(inputs[size / 2..], minHeight);
      LeavesConcat(x.leaves, y.leaves);
      MinConcat(x.leaves, y.leaves);
      var returnData := res1.value.returnData + res2.value.returnData;
      var blockNumber := res1.value.blockNumber;
      if res2.value.blockNumber < res1.value.blockNumber {
        blockNumber := res2.value.blockNumber;
      }
      res := Some(Result(blockNumber, returnData));
    }
  }
}
