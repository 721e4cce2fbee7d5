/** The buffered storage task refines the eager one, and its tables survive failures, retries and crashes. */
module StorageTheorems {
  import opened Chain
  import opened Table
  import opened StorageSpec
  import opened StorageProofs
  import StorageRows
  import Seqs

  // ------------------------------------------------------------------ the invariant

  // The tables once everything buffered has been written.
  function Settled(s: Task): Tables {
    SaveAll(s.tables, s.buffer)
  }

  function SumTxs(blocks: seq<Block>): nat {
    if blocks == [] then 0 else SumTxs(blocks[..|blocks| - 1]) + blocks[|blocks| - 1].txCnt
  }

  function SumLogs(blocks: seq<Block>): nat {
    if blocks == [] then 0 else SumLogs(blocks[..|blocks| - 1]) + CountLogs(blocks[|blocks| - 1].txs)
  }

  // db is the stored chain, and the buffered blocks are on top of it; curHeight is the top of both. The counters
  // are the sums over the buffer, and none of them is over its limit.
  ghost predicate Inv(limits: Limits, s: Task, db: Stack, st: Stack) {
    && Holds(s.tables, db) && st.Contiguous() && st.Next() < TWO_64
    && st == On(db, s.buffer)
    && Add64(s.cur, 1) == st.Next() && s.cur < TWO_64
    && s.txCount == SumTxs(s.buffer) && s.logCount == SumLogs(s.buffer)
    && !Over(limits, |s.buffer|, s.txCount, s.logCount)
  }

  lemma InvSettled(limits: Limits, s: Task, db: Stack, st: Stack)
    requires Inv(limits, s, db, st)
    ensures Holds(Settled(s), st)
  {
    SaveHolds(s.tables, db, s.buffer);
  }

  // What has been read is in the tables, once the buffer is written: row by row.
  lemma SettledRows(limits: Limits, s: Task, db: Stack, st: Stack)
    requires Inv(limits, s, db, st)
    ensures StorageRows.AllRows(Settled(s), st.blocks)
  {
    hide Inv, Settled, StorageRows.AllRows;
    InvSettled(limits, s, db, st);
    StorageRows.HoldsAllRows(Settled(s), st);
  }

  // The buffer never holds more blocks, transactions or logs than the limits allow, and the counters count them.
  lemma BufferBounded(limits: Limits, s: Task, db: Stack, st: Stack)
    requires Inv(limits, s, db, st)
    ensures |s.buffer| <= limits.blocks
    ensures TxTotal(s.buffer) == s.txCount <= limits.txs
    ensures |Part(Logs, s.buffer)| == s.logCount <= limits.logs
  {
    CountersAre(s.buffer);
  }

  function TxTotal(blocks: seq<Block>): nat {
    if blocks == [] then 0 else blocks[0].txCnt + TxTotal(blocks[1..])
  }

  lemma {:induction false} TxTotalSnoc(blocks: seq<Block>, b: Block)
    ensures TxTotal(blocks + [b]) == TxTotal(blocks) + b.txCnt
  {
    if blocks == [] {
      assert (blocks + [b])[1..] == [];
    } else {
      assert (blocks + [b])[1..] == blocks[1..] + [b];
      TxTotalSnoc(blocks[1..], b);
    }
  }

  lemma {:induction false} CountersAre(blocks: seq<Block>)
    ensures SumTxs(blocks) == TxTotal(blocks) && SumLogs(blocks) == |Part(Logs, blocks)|
  {
    if blocks != [] {
      var n := |blocks| - 1;
      CountersAre(blocks[..n]);
      TxTotalSnoc(blocks[..n], blocks[n]);
      assert blocks == blocks[..n] + [blocks[n]];
      StorageRows.CountIsRows(blocks[n].txs);
    }
  }

  // Without a failure the buffer is written exactly when the block makes it pass a limit.
  lemma FlushesIff(limits: Limits, s: Task, b: Block)
    requires b.number == Add64(s.cur, 1)
    ensures var r := Handle(limits, s, Arrived(Push(b)), Fine);
            r.Alive?
            && if |s.buffer| + 1 <= limits.blocks && s.txCount + b.txCnt <= limits.txs
                  && s.logCount + |Logs(b)| <= limits.logs
               then r.task.buffer == s.buffer + [b] && r.task.tables == s.tables
               else r.task.buffer == [] && r.task.tables == SaveAll(s.tables, s.buffer + [b])
  {
    StorageRows.CountIsRows(b.txs);
  }

  // Without a failure an event stops the task if and only if it is a block that is not the next one, or takes back a
  // block that is not the current one.
  lemma StopsIff(limits: Limits, s: Task, e: Event)
    requires s.cur + 1 < TWO_64
    ensures var r := Handle(limits, s, Arrived(e), Fine);
            && (r.Stopped? <==> e.blk.number != if e.Push? then s.cur + 1 else s.cur)
            && (r.Stopped? ==>
                  && r.cause == Feed
                  && r.tables == if e.Push? || e.blk.number > s.cur + 1 then s.tables else Settled(s))
  {
  }

  // A save cut short stops the task with what was committed of the buffer, and a revert that cannot be marked stops it
  // with the buffer written and nothing flagged.
  lemma FaultsStop(limits: Limits, s: Task, m: Message, k: nat)
    requires s.cur + 1 < TWO_64 && (m.Timer? || (m.event.Pop? && m.event.blk.number == s.cur))
    ensures s.buffer != [] ==>
              Handle(limits, s, m, SaveDies(k))
              == Stopped(SaveAll(s.tables, s.buffer[..if k < |s.buffer| then k else |s.buffer|]), Database)
    ensures m.Arrived? ==> Handle(limits, s, m, RevertDies) == Stopped(Settled(s), Database)
  {
  }

  // What became of a feed: the tables hold a chain it goes through on its way.
  ghost predicate HoldsPart(t: Tables, db: Stack, feed: seq<Event>) {
    exists st :: GoesThrough(db, feed, st) && Holds(t, st)
  }

  lemma PartNow(t: Tables, db: Stack, feed: seq<Event>)
    requires Holds(t, db)
    ensures HoldsPart(t, db, feed)
  {
    ThroughStart(db, feed);
  }

  lemma PartLater(t: Tables, db: Stack, done: seq<Event>, mid: Stack, feed: seq<Event>)
    requires Leads(db, done, mid) && HoldsPart(t, mid, feed)
    ensures HoldsPart(t, db, done + feed)
  {
    hide Leads, GoesThrough, Holds;
    var st :| GoesThrough(mid, feed, st) && Holds(t, st);
    ThroughLater(db, done, mid, feed, st);
  }

  lemma PartLonger(t: Tables, db: Stack, feed: seq<Event>, more: seq<Event>)
    requires HoldsPart(t, db, feed)
    ensures HoldsPart(t, db, feed + more)
  {
    hide GoesThrough, Holds;
    var st :| GoesThrough(db, feed, st) && Holds(t, st);
    ThroughLonger(db, feed, more, st);
  }

  // The events by which the buffered blocks arrived.
  function Pushes(blocks: seq<Block>): (r: seq<Event>)
    ensures |r| == |blocks|
  {
    if blocks == [] then [] else Pushes(blocks[..|blocks| - 1]) + [Push(blocks[|blocks| - 1])]
  }

  lemma PushesSnoc(blocks: seq<Block>, b: Block)
    ensures Pushes(blocks + [b]) == Pushes(blocks) + [Push(b)]
  {
    assert (blocks + [b])[..|blocks|] == blocks;
  }

  lemma {:induction false} PushesLead(db: Stack, blocks: seq<Block>)
    requires On(db, blocks).Contiguous()
    ensures Leads(db, Pushes(blocks), On(db, blocks))
  {
    if blocks == [] {
      LeadsNowhere(db);
      assert On(db, blocks).blocks == db.blocks;
    } else {
      var n := |blocks| - 1;
      var less := On(db, blocks[..n]);
      PartContiguous(blocks, db, On(db, blocks), n);
      PushesLead(db, blocks[..n]);
      assert On(db, blocks).NumberedAt(|db.blocks| + n);
      LeadsOne(less, Push(blocks[n]));
      assert Apply(less, Push(blocks[n])).blocks == On(db, blocks).blocks;
      LeadsConcat(db, Pushes(blocks[..n]), less, [Push(blocks[n])], On(db, blocks));
    }
  }

  // The tables have everything that was read but for what is in the buffer.
  ghost predicate Carries(db: Stack, read: seq<Event>, db': Stack, buffer: seq<Block>) {
    exists done :: Leads(db, done, db') && read == done + Pushes(buffer)
  }

  // ------------------------------------------------------------------ one message

  // Whatever k blocks a failing save has committed, the tables hold a chain the buffered events go through.
  lemma FlushDies(t: Tables, buffer: seq<Block>, db: Stack, k: nat)
    requires Holds(t, db) && On(db, buffer).Contiguous() && k <= |buffer|
    ensures HoldsPart(SaveAll(t, buffer[..k]), db, Pushes(buffer))
  {
    hide Holds, SaveAll, GoesThrough, Leads;
    var part := buffer[..k];
    PartContiguous(buffer, db, On(db, buffer), k);
    SaveHolds(t, db, part);
    PushesLead(db, part);
    PushesTake(buffer, k);
    PartNow(SaveAll(t, part), On(db, part), []);
    PartLater(SaveAll(t, part), db, Pushes(part), On(db, part), []);
    var rest := Pushes(buffer)[k..];
    assert Pushes(part) + [] + rest == Pushes(buffer);
    PartLonger(SaveAll(t, part), db, Pushes(part) + [], rest);
  }

  lemma {:induction false} PushesTake(blocks: seq<Block>, k: nat)
    requires k <= |blocks|
    ensures Pushes(blocks)[..k] == Pushes(blocks[..k])
  {
    if k < |blocks| {
      PushesTake(blocks[..|blocks| - 1], k);
      assert blocks[..|blocks| - 1][..k] == blocks[..k];
    } else {
      assert blocks[..k] == blocks;
    }
  }

  lemma PartContiguous(buffer: seq<Block>, db: Stack, st: Stack, k: nat)
    requires st == On(db, buffer) && st.Contiguous() && k <= |buffer|
    ensures On(db, buffer[..k]).Contiguous()
  {
    var part := On(db, buffer[..k]);
    forall i: nat ensures part.NumberedAt(i) {
      assert st.NumberedAt(i);
    }
  }

  // A task that stopped did so because of the database, and its tables hold a chain that what it read goes through.
  ghost predicate StoppedWell(r: Reached, db: Stack, read: seq<Event>) {
    r.Stopped? ==> r.cause == Database && HoldsPart(r.tables, db, read)
  }

  lemma TickKeeps(limits: Limits, s: Task, fault: Fault, db: Stack, st: Stack)
    requires Inv(limits, s, db, st)
    ensures var r := Tick(s, fault);
            && StoppedWell(r, db, Pushes(s.buffer))
            && (r.Alive? ==>
                  && Inv(limits, r.task, st, st) && r.task.buffer == [] && Leads(db, Pushes(s.buffer), st)
                  && r.task.cur == s.cur && r.task.tables == Settled(s))
  {
    hide Holds, HoldsPart;
    InvSettled(limits, s, db, st);
    PushesLead(db, s.buffer);
    assert On(st, []).blocks == st.blocks;
    if s.buffer == [] {
      assert On(db, []).blocks == db.blocks;
    } else if fault.SaveDies? {
      var k := if fault.k < |s.buffer| then fault.k else |s.buffer|;
      FlushDies(s.tables, s.buffer, db, k);
    }
  }

  // The buffer with one more block on it, before the limits are looked at.
  lemma Buffered(t: Tables, buffer: seq<Block>, db: Stack, st: Stack, b: Block)
    requires Holds(t, db) && st == On(db, buffer) && st.Contiguous() && Enabled(st, Push(b))
    ensures Apply(st, Push(b)) == On(db, buffer + [b]) && Apply(st, Push(b)).Contiguous()
    ensures SaveAll(t, buffer + [b]) == InsertBlock(SaveAll(t, buffer), b)
    ensures SumTxs(buffer + [b]) == SumTxs(buffer) + b.txCnt
    ensures SumLogs(buffer + [b]) == SumLogs(buffer) + CountLogs(b.txs)
  {
    ApplyContiguous(st, Push(b));
    assert db.blocks + (buffer + [b]) == st.blocks + [b];
    SaveSnoc(t, db, buffer, b);
    assert (buffer + [b])[..|buffer|] == buffer;
  }

  // What handling an event must come to: the eager tables, and an invariant for the chain after the event.
  ghost predicate Refines(limits: Limits, s: Task, e: Event, r: Reached, db: Stack, st: Stack) {
    if r.Alive? then
      && Settled(r.task) == Eager(Settled(s), e)
      && GoesOn(limits, r.task, db, Pushes(s.buffer) + [e], st)
    else r.cause == Database
  }

  // The task is in order for the chain st, and its tables have what was read since db but for what is in the buffer.
  ghost predicate GoesOn(limits: Limits, s: Task, db: Stack, read: seq<Event>, st: Stack) {
    exists db' :: Inv(limits, s, db', st) && Carries(db, read, db', s.buffer)
  }

  lemma StoredAll(limits: Limits, s: Task, db: Stack, read: seq<Event>, st: Stack)
    requires Inv(limits, s, st, st) && s.buffer == [] && Leads(db, read, st)
    ensures GoesOn(limits, s, db, read, st)
  {
    assert read == read + Pushes(s.buffer);
    assert Carries(db, read, st, s.buffer);
  }

  lemma BufferedAll(limits: Limits, s: Task, db: Stack, st: Stack)
    requires Inv(limits, s, db, st)
    ensures GoesOn(limits, s, db, Pushes(s.buffer), st)
  {
    LeadsNowhere(db);
    assert Pushes(s.buffer) == [] + Pushes(s.buffer);
    assert Carries(db, Pushes(s.buffer), db, s.buffer);
  }

  lemma NothingBuffered(limits: Limits)
    ensures !Over(limits, 0, 0, 0) && SumTxs([]) == 0 && SumLogs([]) == 0
  {
  }

  lemma ReceiveOkKeeps(limits: Limits, s: Task, b: Block, fault: Fault, db: Stack, st: Stack)
    requires Inv(limits, s, db, st) && Enabled(st, Push(b)) && st.Next() + 1 < TWO_64
    ensures var r := ReceiveOk(limits, s, b, fault);
            && Refines(limits, s, Push(b), r, db, Apply(st, Push(b)))
            && StoppedWell(r, db, Pushes(s.buffer) + [Push(b)])
  {
    hide Holds, InsertBlock, Leads, HoldsPart, GoesOn, Over, SumTxs, SumLogs, CountLogs, Pushes;
    NothingBuffered(limits);
    var st' := Apply(st, Push(b));
    Buffered(s.tables, s.buffer, db, st, b);
    PushesSnoc(s.buffer, b);
    var buffer := s.buffer + [b];
    PushesLead(db, buffer);
    var s' := s.(buffer := buffer, txCount := s.txCount + b.txCnt, logCount := s.logCount + CountLogs(b.txs));
    if Over(limits, |buffer|, s'.txCount, s'.logCount) {
      if fault.SaveDies? {
        FlushDies(s.tables, buffer, db, if fault.k < |buffer| then fault.k else |buffer|);
      } else {
        SaveHolds(s.tables, db, buffer);
        assert On(st', []).blocks == st'.blocks;
        StoredAll(limits, ReceiveOk(limits, s, b, fault).task, db, Pushes(buffer), st');
      }
    } else {
      BufferedAll(limits, ReceiveOk(limits, s, b, fault).task, db, st');
    }
  }

  // curHeight is the number of the top block; with an empty chain it is the number before the first one.
  lemma CurIsTop(cur: nat, next: nat)
    requires cur < TWO_64 && next < TWO_64 && Add64(cur, 1) == next
    ensures cur == Sub64(next, 1) && (0 < next ==> cur == next - 1)
  {
  }

  lemma Below64(n: nat)
    requires n < TWO_64
    ensures Sub64(n, 1) < TWO_64 && Add64(Sub64(n, 1), 1) == n
  {
  }

  // With the buffer written, taking back the top block leaves the shorter chain.
  lemma RevertKeeps(limits: Limits, f: Task, b: Block, st: Stack)
    requires Inv(limits, f, st, st) && Enabled(st, Pop(b))
    ensures b.number == f.cur == st.Next() - 1
    ensures var r := f.(tables := RevertBlock(f.tables, b.number), cur := Sub64(b.number, 1));
            Inv(limits, r, Apply(st, Pop(b)), Apply(st, Pop(b))) && Settled(r) == RevertBlock(f.tables, b.number)
  {
    hide Holds, RevertBlock;
    var st' := Apply(st, Pop(b));
    assert f.buffer == [] by {
      assert |st.blocks + f.buffer| == |st.blocks| + |f.buffer|;
    }
    assert st.Contiguous() && st'.Contiguous() by {
      ApplyContiguous(st, Pop(b));
    }
    assert st.NumberedAt(|st.blocks| - 1);
    CurIsTop(f.cur, st.Next());
    Below64(b.number);
    EagerHolds(f.tables, st, Pop(b));
    assert On(st', []).blocks == st'.blocks;
  }

  lemma ReceiveRevertKeeps(limits: Limits, s: Task, b: Block, fault: Fault, db: Stack, st: Stack)
    requires Inv(limits, s, db, st) && Enabled(st, Pop(b))
    ensures var r := ReceiveRevert(s, b, fault);
            && Refines(limits, s, Pop(b), r, db, Apply(st, Pop(b)))
            && StoppedWell(r, db, Pushes(s.buffer) + [Pop(b)])
  {
    TickKeeps(limits, s, fault, db, st);
    assert b.number <= Add64(s.cur, 1) by {
      assert st.Contiguous() && st.NumberedAt(|st.blocks| - 1);
    }
    InvSettled(limits, s, db, st);
    var f, pushes := Tick(s, fault), Pushes(s.buffer);
    if f.Stopped? {
      hide *;
      PartLonger(f.tables, db, pushes, [Pop(b)]);
    } else {
      RevertKeeps(limits, f.task, b, st);
      LeadsOne(st, Pop(b));
      LeadsConcat(db, pushes, st, [Pop(b)], Apply(st, Pop(b)));
      PartNow(f.task.tables, st, [Pop(b)]);
      PartLater(f.task.tables, db, pushes, st, [Pop(b)]);
      hide Inv, Tick, Settled, RevertBlock, Leads, HoldsPart, GoesOn;
      var r := ReceiveRevert(s, b, fault);
      if r.Alive? {
        StoredAll(limits, r.task, db, pushes + [Pop(b)], Apply(st, Pop(b)));
      }
    }
  }

  // ------------------------------------------------------------------ whole runs

  // The task goes on with tables that, once settled, are those of the eager task, on the chain the feed leads to.
  ghost predicate Goes(limits: Limits, s: Task, feed: seq<Event>, st: Stack, task: Task) {
    && WellFormed(st, feed)
    && Settled(task) == EagerAll(Settled(s), feed)
    && exists db :: Inv(limits, task, db, Replay(st, feed))
  }

  // Alive or stopped, the tables hold a chain that what was buffered and the feed go through.
  ghost predicate RunsWell(limits: Limits, s: Task, feed: seq<Event>, db: Stack, st: Stack, r: Reached) {
    && (if r.Alive? then Goes(limits, s, feed, st, r.task) else r.cause == Database)
    && HoldsPart(TablesOf(r), db, Pushes(s.buffer) + feed)
  }

  // What is in the database.
  function TablesOf(r: Reached): Tables {
    match r
    case Alive(task) => task.tables
    case Stopped(t, _) => t
  }

  function EventOf(m: Message): seq<Event> {
    if m.Arrived? then [m.event] else []
  }

  lemma HandleKeeps(limits: Limits, s: Task, m: Message, fault: Fault, db: Stack, st: Stack)
    requires Inv(limits, s, db, st) && (m.Arrived? ==> Enabled(st, m.event) && st.Next() + 1 < TWO_64)
    ensures var r := Handle(limits, s, m, fault);
            var read := Pushes(s.buffer) + EventOf(m);
            && (r.Alive? ==>
                  && Settled(r.task) == (if m.Arrived? then Eager(Settled(s), m.event) else Settled(s))
                  && GoesOn(limits, r.task, db, read, if m.Arrived? then Apply(st, m.event) else st))
            && StoppedWell(r, db, read)
  {
    hide Inv, Leads, HoldsPart, Settled, Eager;
    match m
    case Timer =>
      TickKeeps(limits, s, fault, db, st);
      TickSettled(s, fault);
      var r := Tick(s, fault);
      assert Pushes(s.buffer) + [] == Pushes(s.buffer);
      if r.Alive? {
        StoredAll(limits, r.task, db, Pushes(s.buffer), st);
      }
    case Arrived(Push(b)) => ReceiveOkKeeps(limits, s, b, fault, db, st);
    case Arrived(Pop(b)) => ReceiveRevertKeeps(limits, s, b, fault, db, st);
  }

  lemma TickSettled(s: Task, fault: Fault)
    ensures Tick(s, fault).Alive? ==> Settled(Tick(s, fault).task) == Settled(s)
  {
  }

  lemma StepPart(t: Tables, db: Stack, read: seq<Event>, db': Stack, buffer: seq<Block>, rest: seq<Event>)
    requires Carries(db, read, db', buffer) && HoldsPart(t, db', Pushes(buffer) + rest)
    ensures HoldsPart(t, db, read + rest)
  {
    hide Leads, HoldsPart, Pushes;
    var done :| Leads(db, done, db') && read == done + Pushes(buffer);
    PartLater(t, db, done, db', Pushes(buffer) + rest);
    assert done + (Pushes(buffer) + rest) == read + rest;
  }

  lemma StepGoes(limits: Limits, s: Task, m: Message, s': Task, st: Stack, rest: seq<Event>, end: Task)
    requires m.Arrived? ==> Enabled(st, m.event)
    requires Settled(s') == if m.Arrived? then Eager(Settled(s), m.event) else Settled(s)
    requires Goes(limits, s', rest, if m.Arrived? then Apply(st, m.event) else st, end)
    ensures Goes(limits, s, EventOf(m) + rest, st, end)
  {
    hide Inv, Settled, Eager;
    var feed := EventOf(m) + rest;
    if m.Arrived? {
      assert feed[0] == m.event && feed[1..] == rest;
      assert Replay(st, feed) == Replay(Apply(st, m.event), rest);
      assert EagerAll(Settled(s), feed) == EagerAll(Eager(Settled(s), m.event), rest);
    } else {
      assert feed == rest;
    }
  }

  lemma FirstEvent(steps: seq<Step>, st: Stack)
    requires steps != [] && WellFormed(st, EventsOf(steps))
    ensures var m, rest := steps[0].msg, EventsOf(steps[1..]);
            && EventsOf(steps) == EventOf(m) + rest
            && (m.Arrived? ==> Enabled(st, m.event) && WellFormed(Apply(st, m.event), rest))
            && (m.Timer? ==> WellFormed(st, rest))
  {
    var m, rest := steps[0].msg, EventsOf(steps[1..]);
    assert m.Arrived? ==> ([m.event] + rest)[0] == m.event && ([m.event] + rest)[1..] == rest;
    assert m.Timer? ==> [] + rest == rest;
  }

  // Whatever the limits, the timer and the failures do: no Fatal but the one for a database that stays down is
  // reached, and a task that is alive has, buffer included, exactly the tables of the eager task. Wherever the run
  // ends, the tables alone hold a chain the feed went through.
  lemma {:induction false} RunRefines(limits: Limits, s: Task, steps: seq<Step>, db: Stack, st: Stack)
    requires Inv(limits, s, db, st) && WellFormed(st, EventsOf(steps)) && st.Next() + |steps| < TWO_64
    ensures RunsWell(limits, s, EventsOf(steps), db, st, Run(limits, s, steps))
    decreases |steps|
  {
    var feed, pushes := EventsOf(steps), Pushes(s.buffer);
    if steps == [] {
      assert EagerAll(Settled(s), []) == Settled(s);
      assert Replay(st, []) == st;
      PartNow(s.tables, db, pushes + feed);
    } else {
      hide Inv, HoldsPart, Settled, Handle, Eager, Goes, Pushes, Carries, EventsOf, WellFormed, EventOf;
      var m, rest := steps[0].msg, EventsOf(steps[1..]);
      FirstEvent(steps, st);
      HandleKeeps(limits, s, m, steps[0].fault, db, st);
      var r := Handle(limits, s, m, steps[0].fault);
      assert pushes + feed == pushes + EventOf(m) + rest;
      if r.Alive? {
        var st' := if m.Arrived? then Apply(st, m.event) else st;
        var db' :| Inv(limits, r.task, db', st') && Carries(db, pushes + EventOf(m), db', r.task.buffer);
        RunRefines(limits, r.task, steps[1..], db', st');
        var end := Run(limits, r.task, steps[1..]);
        StepPart(TablesOf(end), db, pushes + EventOf(m), db', r.task.buffer, rest);
        if end.Alive? {
          StepGoes(limits, s, m, r.task, st, rest, end.task);
        }
      } else {
        PartLonger(r.tables, db, pushes + EventOf(m), rest);
      }
    }
  }

  // ------------------------------------------------------------------ restarts

  // A first block can follow: the table has a block, or block 1 is the one to start with.
  predicate Rooted(db: Stack) {
    db.blocks != [] || db.base == 1
  }

  // The task resumes exactly above the stored chain if and only if no start height is configured, or the one that is
  // happens to be the next height.
  lemma ResumesIff(limits: Limits, t: Tables, startHeight: nat, db: Stack)
    requires Holds(t, db) && Rooted(db) && db.Next() < TWO_64 && startHeight < TWO_64
    ensures Inv(limits, Resume(t, startHeight), db, db) <==> startHeight == 0 || startHeight == db.Next()
  {
    StoredTop(t, db);
    hide Holds, GetCurrentMainBlockNum, Inv;
    FreshInv(limits, Resume(t, startHeight), db);
  }

  lemma StoredTop(t: Tables, db: Stack)
    requires Holds(t, db) && Rooted(db) && db.Next() < TWO_64
    ensures GetCurrentMainBlockNum(t) + 1 == db.Next()
  {
    hide Mirrors, GetCurrentMainBlockNum;
    MainBlockIsTop(t, db);
  }

  lemma FreshInv(limits: Limits, s: Task, db: Stack)
    requires Holds(s.tables, db) && db.Next() < TWO_64 && s.buffer == [] && s.txCount == 0 && s.logCount == 0
    requires s.cur + 1 < TWO_64
    ensures Inv(limits, s, db, db) <==> s.cur + 1 == db.Next()
  {
    hide Mirrors;
    assert On(db, []).blocks == db.blocks;
  }

  // What one life of the process leaves in the tables: the buffer is lost, whether it stopped or was killed.
  function Life(limits: Limits, t: Tables, steps: seq<Step>): Tables {
    TablesOf(Run(limits, Resume(t, 0), steps))
  }

  function Lives(limits: Limits, t: Tables, lives: seq<seq<Step>>): Tables
    decreases |lives|
  {
    if lives == [] then t else Lives(limits, Life(limits, t, lives[0]), lives[1..])
  }

  // The life is fed from the chain the tables hold when it starts.
  ghost predicate Fed(t: Tables, db: Stack, steps: seq<Step>) {
    Holds(t, db) && Rooted(db) && WellFormed(db, EventsOf(steps)) && db.Next() + |steps| < TWO_64
  }

  // Each life is fed from a chain that the tables hold when it starts, and that the feed of the life before went
  // through.
  ghost predicate AllFed(limits: Limits, t: Tables, db: Stack, lives: seq<seq<Step>>)
    decreases |lives|
  {
    lives == []
    || (Fed(t, db, lives[0])
        && exists db' ::
             GoesThrough(db, EventsOf(lives[0]), db') && AllFed(limits, Life(limits, t, lives[0]), db', lives[1..]))
  }

  // However a life ends, the tables hold a chain that its feed went through.
  lemma LifeHoldsPart(limits: Limits, t: Tables, db: Stack, steps: seq<Step>)
    requires Fed(t, db, steps)
    ensures HoldsPart(Life(limits, t, steps), db, EventsOf(steps))
  {
    hide Holds, GoesThrough, Leads, Goes;
    ResumesIff(limits, t, 0, db);
    RunRefines(limits, Resume(t, 0), steps, db, db);
    assert [] + EventsOf(steps) == EventsOf(steps);
  }

  // One ok row for each header, transaction, log and internal transaction of the chain's blocks and no other, one block
  // row at each height; the next life resumes from its top.
  ghost predicate RowsOfChain(t: Tables, st: Stack) {
    && (forall num: nat :: CountOk(t.blocks, num) == if st.Has(num) then 1 else 0)
    && GetCurrentMainBlockNum(t) == (if st.blocks == [] then 0 else st.Next() - 1)
    && StorageRows.AllRows(t, st.blocks)
  }

  // The tables hold a chain that the feeds go through, one after the other, and nothing else.
  ghost predicate HoldsAfter(t: Tables, db: Stack, feeds: seq<seq<Event>>) {
    exists st :: Passes(db, feeds, st) && Holds(t, st) && RowsOfChain(t, st)
  }

  lemma HeldRows(t: Tables, db: Stack)
    requires Holds(t, db)
    ensures RowsOfChain(t, db)
  {
    forall num: nat ensures CountOk(t.blocks, num) == if db.Has(num) then 1 else 0 {
      OneRowPerHeight(t, db, num);
    }
    hide StorageRows.AllRows;
    MainBlockIsTop(t, db);
    StorageRows.HoldsAllRows(t, db);
  }

  // After any number of lives, each ended at any point by a failure or a kill: the ok rows of all tables are those of
  // a chain that the feeds of the lives went through, one after the other.
  lemma {:induction false} LivesHoldChain(limits: Limits, t: Tables, db: Stack, lives: seq<seq<Step>>)
    requires Holds(t, db)
    requires AllFed(limits, t, db, lives)
    ensures HoldsAfter(Lives(limits, t, lives), db, Seqs.Map(EventsOf, lives))
    decreases |lives|
  {
    hide Holds, GoesThrough, Life, EventsOf, RowsOfChain;
    var feeds := Seqs.Map(EventsOf, lives);
    if lives == [] {
      HeldRows(t, db);
      assert Passes(db, feeds, db);
    } else {
      var t' := Life(limits, t, lives[0]);
      LifeHoldsPart(limits, t, db, lives[0]);
      var db' :| GoesThrough(db, EventsOf(lives[0]), db') && (lives[1..] == [] ==> Holds(t', db'))
                 && AllFed(limits, t', db', lives[1..]);
      LivesHoldChain(limits, t', db', lives[1..]);
      var rest := Seqs.Map(EventsOf, lives[1..]);
      var st :| Passes(db', rest, st) && Holds(Lives(limits, t', lives[1..]), st)
                && RowsOfChain(Lives(limits, t', lives[1..]), st);
      assert feeds[0] == EventsOf(lives[0]) && feeds[1..] == rest;
      assert Passes(db, feeds, st);
    }
  }
}
