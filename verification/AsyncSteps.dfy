/** What one message makes of the asynchronous task in any state: when it goes on, and what stays in its cache. */
module AsyncSteps {
  import opened Chain
  import opened Table
  import opened AsyncSpec

  predicate AllLive(ds: seq<Delivery>) {
    forall i {:trigger ds[i]} :: 0 <= i < |ds| ==> ds[i].fate.Lives?
  }

  // Whatever state the task is in and whatever arrives: without a failure it goes on.
  lemma {:induction false} StaysAlive(cfg: Config, a: Task, ds: seq<Delivery>)
    requires 1 <= cfg.bufferSize && AllLive(ds)
    ensures ReceiveAll(cfg, a, ds).Alive?
    decreases |ds|
  {
    if ds != [] {
      assert ds[0].fate.Lives?;
      StaysAlive(cfg, Receive(cfg, a, ds[0]).task, ds[1..]);
    }
  }

  // A failing transaction ends the task: for the next block with nothing or all of it written, for a revert with
  // nothing flagged. Any other message needs no transaction, so it cannot fail.
  lemma FailureEnds(cfg: Config, a: Task, e: Event, m: nat)
    requires 1 <= cfg.bufferSize && a.cur + 1 < TWO_64
    ensures var r := Receive(cfg, a, Delivery(e, Dies(m)));
            && (r.Alive? <==> if e.Push? then e.blk.number != a.cur + 1 else a.cur < e.blk.number)
            && (r.Dead? && e.Pop? ==> r.store == a.store)
            && (r.Dead? && e.Push? ==>
                  r.store == a.store
                  || r.store == Store(a.store.rows + RowsOf(e.blk.number, Transfers(e.blk)), e.blk.number))
  {
    assert [e.blk][..0] == [] && [e.blk][..1] == [e.blk];
    assert Part(Transfers, [e.blk]) == RowsOf(e.blk.number, Transfers(e.blk));
  }

  // A revert at or below the task's height steps it back and takes the newest block from the cache if that one is not
  // below the revert; every other cached block stays, those the revert took back included. A revert above the height
  // changes nothing but the latest height.
  lemma RevertCaches(cfg: Config, a: Task, b: Block)
    requires 1 <= cfg.bufferSize && 1 <= b.number
    ensures var r := Receive(cfg, a, Delivery(Pop(b), Lives));
            && r.Alive? && r.task.latest == b.number - 1 && r.task.tokens == a.tokens
            && if b.number <= a.cur then
                 && r.task.cur == r.task.store.number == b.number - 1
                 && r.task.cache <= a.cache
                 && |a.cache| == |r.task.cache| + if NewestFrom(a.cache, b.number) then 1 else 0
               else r.task == a.(latest := b.number - 1)
  {
  }

  predicate NewestFrom(cache: seq<Block>, height: nat) {
    cache != [] && height <= cache[|cache| - 1].number
  }
}
