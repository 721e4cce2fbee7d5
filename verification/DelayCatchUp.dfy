/** A catch-up pass of the delayed sender sends stored blocks in order, and skips none that is stored. */
module DelayCatchUp {
  import opened Chain
  import opened DelaySpec
  import opened DelayNumbering

  lemma {:induction false} SendAllKeeps(t: Task, blocks: seq<Block>, faults: nat -> Fault, n: nat, from: nat,
          cfg: Config)
    requires SentTo(t.sent, from, n) && from <= t.cur <= n && Deep(cfg, t.sent, t.latest)
    requires forall i {:trigger blocks[i]} :: 0 <= i < |blocks| ==> blocks[i].number == n + 1 + i
    requires n + |blocks| + cfg.delay <= t.latest
    ensures var r := SendAll(t, blocks, faults);
            && r == t.(sent := r.sent, cur := r.cur) && t.cur <= r.cur <= n + |blocks|
            && SentTo(r.sent, from, r.cur) && Deep(cfg, r.sent, r.latest)
    decreases |blocks|
  {
    if blocks == [] || faults(blocks[0].number).SendFails? {
      SentToLess(t.sent, from, n, t.cur);
    } else {
      var s := Sent(blocks[0], false);
      SendKeeps(t.sent, from, n, s);
      DeepSend(cfg, t.sent, t.latest, s);
      SendAllKeeps(SendOne(t, s, blocks[0].number, faults(blocks[0].number)), blocks[1..], faults, n + 1, from, cfg);
    }
  }

  // A catch-up pass sends stored blocks that are deep enough, as long as the next height is stored.
  lemma CatchUpKeeps(cfg: Config, t: Task, db: Db, dbErr: bool, faults: nat -> Fault, next: nat, from: nat)
    requires Inv(cfg, t, next, from) && Lags(cfg, t) && !t.token && DbNumbered(db)
    requires dbErr || t.cur < db.stored
    ensures Inv(cfg, CatchUp(cfg, t, db, dbErr, faults), next, from)
  {
    assert from <= t.cur && SentTo(t.sent, from, t.cur) && Deep(cfg, t.sent, t.latest);
    var end := BatchEnd(cfg, t);
    assert t.cur + 1 <= end && end + cfg.delay <= t.latest;
    hide SentTo, BatchEnd, Deep, Consecutive, Inv;
    if !dbErr {
      var blocks := ReadRange(db, t.cur + 1, end);
      forall i | 0 <= i < |blocks| ensures blocks[i].number == t.cur + 1 + i {
        assert NumberAt(db, t.cur + 1 + i);
      }
      SendAllKeeps(t, blocks, faults, t.cur, from, cfg);
      Moved(cfg, t, SendAll(t, blocks, faults), next, from);
    }
  }

  lemma Moved(cfg: Config, t: Task, r: Task, next: nat, from: nat)
    requires Inv(cfg, t, next, from) && t.q != [] && !t.token
    requires r == t.(sent := r.sent, cur := r.cur) && r.cur + cfg.delay <= t.latest
    requires SentTo(r.sent, from, r.cur) && Deep(cfg, r.sent, t.latest)
    ensures Inv(cfg, r, next, from)
  {
  }

  lemma {:induction false} SendAllGrows(t: Task, blocks: seq<Block>, faults: nat -> Fault)
    ensures |t.sent| <= |SendAll(t, blocks, faults).sent|
    decreases |blocks|
  {
    if blocks != [] && !faults(blocks[0].number).SendFails? {
      SendAllGrows(SendOne(t, Sent(blocks[0], false), blocks[0].number, faults(blocks[0].number)), blocks[1..], faults);
    }
  }

  // Without errors a catch-up pass moves on without sending anything if and only if the next height is not stored;
  // otherwise every height up to the new one has been sent.
  lemma SkipsIff(cfg: Config, t: Task, db: Db, next: nat, from: nat)
    requires Inv(cfg, t, next, from) && Lags(cfg, t) && !t.token && DbNumbered(db)
    ensures var r := CatchUp(cfg, t, db, false, _ => Fine);
            && (r.sent == t.sent && t.cur < r.cur <==> db.stored <= t.cur)
            && (t.cur < db.stored ==> SentTo(r.sent, from, r.cur))
  {
    assert SentTo(t.sent, from, t.cur);
    if t.cur < db.stored {
      CatchUpKeeps(cfg, t, db, false, _ => Fine, next, from);
      var end := BatchEnd(cfg, t);
      assert t.cur + 1 <= end;
      hide SentTo, BatchEnd, Deep, Consecutive, Inv;
      var blocks := ReadRange(db, t.cur + 1, end);
      SendAllGrows(SendOne(t, Sent(blocks[0], false), blocks[0].number, Fine), blocks[1..], _ => Fine);
    }
  }
}
