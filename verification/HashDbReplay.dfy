/**
 * Whole runs of the code: the calls of db_store, db_delete, db_fetch and the db_nextrec loop, one after the other on
 * one open database, are a run of the finite map.
 */
module HashDbReplay {
  import opened HashDb
  import opened HashDbSpec
  import opened HashDbInv
  import opened HashDbOps
  import opened HashDbScan
  import opened HashDbRuns
  import opened IndexFile
  import opened Machine

  /** One call, as the operation says. */
  method Call(db: Db, op: Op) returns (reply: Reply)
    requires db.Valid() && |db.lists| >= 2 && Exact(db.Value())
    requires OpKeyOk(op) && HintSaved(db.Value(), op) && CalmOp(db.Value(), op)
    modifies db, db.nodes
    ensures db.Valid() && fresh(set n | n in db.nodes && n !in old(db.nodes))
    ensures (reply, db.Value()) == StepOp(old(db.Value()), op)
  {
    hide Db.Valid, Exact, CalmOp, StoreStep, DeleteStep, FetchStep, Scan, Pairs, Saved, FetchReply;
    ghost var s := db.Value();
    ValidInv(db);
    match op
    case Store(k, d, f, h) =>
      SavedOk(db, k, h);
      CalmLives(s, op);
      var out := db.Store(k, d, f, h);
      reply := Code(if out.Died? then -2 else out.rc);
    case Delete(k) =>
      var rc := db.Delete(k);
      reply := Code(rc);
    case Fetch(k, h) =>
      SavedOk(db, k, h);
      var r, pos := db.Fetch(k, h);
      reply := FetchReply(r);
    case LoadAll =>
      var recs := db.LoadAll();
      reply := Listed(recs);
  }

  lemma CalmLives(s: State, op: Op)
    requires Inv(s) && op.Store? && CalmOp(s, op)
    ensures !StoreStep(s, op.key, op.data, op.flag).0.Died?
  {
    hide StoreStep;
  }

  lemma ValidInv(db: Db)
    requires db.Valid()
    ensures |db.lists| == db.nhash + 1 && Inv(db.Value())
  {
  }

  lemma SavedOk(db: Db, key: string, hint: nat)
    requires db.Valid() && |db.lists| >= 2 && Exact(db.Value()) && Saved(db.Value(), key, hint)
    ensures db.HintOk(key, hint)
  {
    hide Exact;
    if 0 < hint < db.idxLen {
      db.SavedPositionOk(key, hint);
    }
  }

  /** The calls of a calm run give the replies of the run and leave its last state, and so behave as the map does. */
  method Replay(db: Db, ops: seq<Op>) returns (replies: seq<Reply>)
    requires db.Valid() && |db.lists| >= 2 && Exact(db.Value()) && CalmRun(db.Value(), ops)
    modifies db, db.nodes
    ensures db.Valid() && |db.lists| >= 2 && Exact(db.Value())
    ensures (replies, db.Value()) == Run(old(db.Value()), ops)
    ensures Agrees(old(Contents(db.Value())), ops, Shorts(old(db.Value()), ops), replies)
    ensures Contents(db.Value()) == MapRun(old(Contents(db.Value())), ops, replies)
  {
    hide Db.Valid, Exact, CalmRun, Run, StepOp, CalmOp, Contents, Allowed, MapStep, Agrees, MapRun, Inv, HintSaved, Shorts;
    ghost var s := db.Value();
    RunRefinesMap(s, ops);
    replies := [];
    var i := 0;
    assert ops[0..] == ops && [] + Run(s, ops).0 == Run(s, ops).0;
    while i < |ops|
      invariant i <= |ops| && db.Valid() && |db.lists| >= 2 && Exact(db.Value())
      invariant fresh(set n | n in db.nodes && n !in old(db.nodes))
      invariant CalmRun(db.Value(), ops[i..])
      invariant Run(s, ops) == (replies + Run(db.Value(), ops[i..]).0, Run(db.Value(), ops[i..]).1)
    {
      assert ops[i..][0] == ops[i] && ops[i..][1..] == ops[i + 1..];
      RunStep(db.Value(), ops[i..]);
      ghost var r, t := OpRefines(db.Value(), ops[i]);
      ghost var was := replies;
      var reply := Call(db, ops[i]);
      assert was + ([reply] + Run(db.Value(), ops[i + 1..]).0) == (was + [reply]) + Run(db.Value(), ops[i + 1..]).0;
      replies := replies + [reply];
      i := i + 1;
    }
    RunEnd(db.Value(), ops[i..]);
    assert replies + [] == replies;
  }

  lemma RunStep(s: State, ops: seq<Op>)
    requires CalmRun(s, ops) && ops != []
    ensures Inv(s) && OpKeyOk(ops[0]) && HintSaved(s, ops[0]) && CalmOp(s, ops[0])
    ensures var (reply, t) := StepOp(s, ops[0]);
            && CalmRun(t, ops[1..])
            && Run(s, ops) == ([reply] + Run(t, ops[1..]).0, Run(t, ops[1..]).1)
  {
    hide Inv, StepOp, CalmOp, HintSaved;
  }

  lemma RunEnd(s: State, ops: seq<Op>)
    requires CalmRun(s, ops) && ops == []
    ensures Run(s, ops) == ([], s)
  {
  }
}
