/** What one iteration of the fetcher's loop does, as a function of its state and of what the node answers. */
module FetchSpec {
  import opened Chain

  datatype Config = Config(blocksSafe: nat, blockBatch: nat)

  // What the node answers to its t-th block request when that request asks for the given height.
  // Nothing relates two requests: the node may switch chains between any two of them.
  type Node = (nat, nat) -> Block

  ghost predicate Numbered(node: Node) {
    forall t: nat, h: nat :: node(t, h).number == h
  }

  // ------------------------------------------------------------------ the walk down to the fork point

  datatype WalkResult =
    | Fatal
    | Found(height: nat, hash: Hash, reverts: seq<Block>, clock: nat)

  predicate Disagree(local: Block, chain: Block) {
    chain.parentHash != ZERO_HASH && chain.parentHash != "" && local.hash != chain.parentHash
  }

  // mayMiss says that the fetcher has not moved since it started; only then may a block be missing from the cache.
  // Below height 0 the heights wrap; no cache holds a block of number MAX_64, so the walk ends there.
  function Walk(cache: map<nat, Block>, mayMiss: bool, local: nat, hash: Hash, reverts: seq<Block>, node: Node,
          t: nat): WalkResult
    decreases local
  {
    if local !in cache then
      if mayMiss then Found(local, hash, reverts, t + 1) else Fatal
    else if Disagree(cache[local], node(t, local + 1)) then
      var reverts' := reverts + [cache[local]];
      if local == 0 then
        if mayMiss then Found(MAX_64, cache[0].hash, reverts', t + 2) else Fatal
      else
        Walk(cache, mayMiss, local - 1, cache[local].hash, reverts', node, t + 1)
    else
      Found(local, cache[local].hash, reverts, t + 1)
  }

  // ------------------------------------------------------------------ one iteration

  datatype State = State(height: nat, startNum: nat, firstLoop: bool, cache: map<nat, Block>, clock: nat)

  function Pops(reverts: seq<Block>): (r: seq<Event>)
    ensures |r| == |reverts| && forall i {:trigger r[i]} :: 0 <= i < |r| ==> r[i] == Pop(reverts[i])
  {
    seq(|reverts|, i requires 0 <= i < |reverts| => Pop(reverts[i]))
  }

  function Numbers(blocks: seq<Block>): (r: set<nat>)
    ensures forall b :: b in blocks ==> b.number in r
    ensures forall n :: n in r ==> exists b :: b in blocks && b.number == n
  {
    set b | b in blocks :: b.number
  }

  // The blocks from..from+count as the node answers them from its t-th request on, in ascending order.
  function Fetched(node: Node, t: nat, from: nat, count: nat): (r: seq<Block>)
    ensures |r| == count
    ensures forall i {:trigger r[i]} :: 0 <= i < count ==> r[i] == node(t + i, from + i)
  {
    seq(count, i requires 0 <= i < count => node(t + i, from + i))
  }

  datatype Published = Published(height: nat, cache: map<nat, Block>, events: seq<Event>)

  function Publish(cfg: Config, height: nat, cache: map<nat, Block>, prevHash: Hash, blocks: seq<Block>): Published
    decreases |blocks|
  {
    if blocks == [] || (prevHash != "" && blocks[0].parentHash != prevHash) then
      Published(height, cache, [])
    else
      var b := blocks[0];
      var cache' := (cache - {Sub64(b.number, 2 * cfg.blocksSafe)})[b.number := b];
      var rest := Publish(cfg, b.number + 1, cache', b.hash, blocks[1..]);
      rest.(events := [Push(b)] + rest.events)
  }

  datatype Outcome = Died | Alive(st: State, events: seq<Event>)

  predicate Walks(cfg: Config, st: State, end: nat) {
    st.firstLoop || st.height + cfg.blocksSafe > end
  }

  function WalkFrom(st: State, node: Node): WalkResult {
    Walk(st.cache, st.height == st.startNum, Sub64(st.height, 1), "", [], node, st.clock)
  }

  // The state after the walk, and the events it sends.
  function AfterWalk(st: State, w: WalkResult): Outcome
    requires w.Found?
  {
    var pops := if w.height < Sub64(st.height, 1) then w.reverts else [];
    Alive(State(Add64(w.height, 1), st.startNum, false, st.cache - Numbers(pops), w.clock), Pops(pops))
  }

  function BatchSize(cfg: Config, height: nat, end: nat): nat {
    if height + cfg.blockBatch > end then (if end < height then 0 else end - height) else cfg.blockBatch
  }

  function PublishBatch(cfg: Config, node: Node, st: State, prevHash: Hash, end: nat, fetchErr: bool): Outcome {
    var count := BatchSize(cfg, st.height, end);
    var st' := st.(clock := st.clock + count);
    if fetchErr then
      Alive(st', [])
    else
      var p := Publish(cfg, st.height, st.cache, prevHash, Fetched(node, st.clock, st.height, count));
      Alive(st'.(height := p.height, cache := p.cache), p.events)
  }

  function Iterate(cfg: Config, node: Node, st: State, end: nat, fetchErr: bool): Outcome {
    if Walks(cfg, st, end) then
      var w := WalkFrom(st, node);
      if w.Fatal? then Died
      else
        var a := AfterWalk(st, w);
        var p := PublishBatch(cfg, node, a.st, w.hash, end, fetchErr);
        p.(events := a.events + p.events)
    else
      PublishBatch(cfg, node, st, "", end, fetchErr)
  }

  // ------------------------------------------------------------------ whole runs

  // One turn of the loop: an iteration (skipped while there is nothing to fetch), or a new target height.
  datatype Turn = Fetch(fetchErr: bool) | NewEnd(end: nat)

  function TakeTurn(cfg: Config, node: Node, st: State, end: nat, turn: Turn): Outcome {
    if turn.NewEnd? || end <= st.height then Alive(st, []) else Iterate(cfg, node, st, end, turn.fetchErr)
  }

  function EndAfter(end: nat, turn: Turn): nat {
    if turn.NewEnd? then turn.end else end
  }

  // What a run yields once the given events have been sent.
  function After(sent: seq<Event>, r: Outcome): Outcome {
    match r
    case Died => Died
    case Alive(st, events) => Alive(st, sent + events)
  }

  function Run(cfg: Config, node: Node, st: State, end: nat, turns: seq<Turn>): Outcome
    decreases |turns|
  {
    if turns == [] then Alive(st, [])
    else
      match TakeTurn(cfg, node, st, end, turns[0])
      case Died => Died
      case Alive(st', events) => After(events, Run(cfg, node, st', EndAfter(end, turns[0]), turns[1..]))
  }
}
