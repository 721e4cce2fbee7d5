/** Every run of the delayed sender keeps its queue, what it sends and its height in order. */
module DelayRuns {
  import opened Chain
  import opened DelaySpec
  import opened DelayNumbering
  import opened DelayCatchUp

  // Tables answer with the right heights, and a catch-up pass that reads them finds the next height stored.
  ghost predicate StepFits(cfg: Config, t: Task, step: Step) {
    && DbNumbered(step.db)
    && (step.Token? && (t.token || Lags(cfg, t)) ==> step.dbErr || t.cur < step.db.stored)
  }

  lemma TokenKeeps(cfg: Config, t: Task, next: nat, from: nat)
    requires Inv(cfg, t, next, from)
    ensures Inv(cfg, t.(token := t.token || Lags(cfg, t)), next, from) && Inv(cfg, t.(token := false), next, from)
    ensures t.token ==> Lags(cfg, t)
  {
  }

  lemma PopKeeps(cfg: Config, t: Task, next: nat, from: nat)
    requires 1 <= next && Inv(cfg, t, next, from)
    ensures Inv(cfg, t, next - 1, from)
  {
  }

  // The height of the chain's next block after a step.
  function NextAfter(st: Stack, step: Step): nat
    requires step.Message? ==> Enabled(st, step.event)
  {
    (if step.Message? then Apply(st, step.event) else st).Next()
  }

  lemma PassKeeps(cfg: Config, t: Task, step: Step, st: Stack, from: nat)
    requires Inv(cfg, t, st.Next(), from) && StepFits(cfg, t, step) && st.Contiguous()
    requires step.Message? ==> Enabled(st, step.event)
    ensures Keeps(cfg, Pass(cfg, t, step), NextAfter(st, step), from)
  {
    hide Inv, OnPush, CatchUp, DbNumbered;
    TokenKeeps(cfg, t, st.Next(), from);
    var t' := t.(token := t.token || Lags(cfg, t));
    match step
    case Message(Pop(b), _, _, _) => PopKeeps(cfg, t', st.Next(), from);
    case Message(Push(b), db, dbErr, fault) =>
      PushKeeps(cfg, t', b, db, dbErr, fault, from);
    case Token(db, dbErr, faults) =>
      if t'.token {
        TokenKeeps(cfg, t', st.Next(), from);
        CatchUpKeeps(cfg, t'.(token := false), db, dbErr, faults, st.Next(), from);
      }
  }

  ghost predicate RunFits(cfg: Config, t: Task, steps: seq<Step>)
    decreases |steps|
  {
    steps == []
    || (StepFits(cfg, t, steps[0])
        && (Pass(cfg, t, steps[0]).Alive? ==> RunFits(cfg, Pass(cfg, t, steps[0]).task, steps[1..])))
  }

  lemma EventsStep(steps: seq<Step>)
    requires steps != []
    ensures EventsOf(steps) == (if steps[0].Message? then [steps[0].event] else []) + EventsOf(steps[1..])
    ensures steps[0].Message? ==>
              && EventsOf(steps) != [] && EventsOf(steps)[0] == steps[0].event
              && EventsOf(steps)[1..] == EventsOf(steps[1..])
    ensures !steps[0].Message? ==> EventsOf(steps) == EventsOf(steps[1..])
  {
  }

  // On every well-formed feed neither Fatal is reached, and the invariant holds at the end: consecutive heights in a
  // queue of at most delay + 1, every height sent at least delay below the highest block, and none skipped.
  lemma {:induction false} RunKeeps(cfg: Config, t: Task, steps: seq<Step>, st: Stack, from: nat)
    requires Inv(cfg, t, st.Next(), from) && RunFits(cfg, t, steps) && st.Contiguous()
    requires WellFormed(st, EventsOf(steps))
    ensures Keeps(cfg, Run(cfg, t, steps), Replay(st, EventsOf(steps)).Next(), from)
    decreases |steps|
  {
    hide Inv, Pass, StepFits;
    if steps != [] {
      EventsStep(steps);
      PassKeeps(cfg, t, steps[0], st, from);
      if steps[0].Message? {
        ApplyContiguous(st, steps[0].event);
      }
      var st' := if steps[0].Message? then Apply(st, steps[0].event) else st;
      RunKeeps(cfg, Pass(cfg, t, steps[0]).task, steps[1..], st', from);
    }
  }
}
