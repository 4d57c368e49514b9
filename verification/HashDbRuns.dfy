/**
 * Whole runs of store, delete, fetch and scan against the finite map: when they agree with it, and when they cannot
 * fail to.
 */
module HashDbRuns {
  import opened CText
  import opened Machine
  import opened IndexRecord
  import opened IndexFile
  import opened HashDbSpec
  import opened HashDbInv
  import opened HashDbOps
  import opened HashDbTheorems
  import opened HashDbScan

  // ---------------------------------------------------------------- room in every slot

  /** The slot has room for any key whose length has D digits and any used length up to the extent's. */
  predicate RoomySlot(r: Slot, D: nat) {
    NumLen(|r.key|) == D && r.area + 7 + NumLen(r.datoff) + 2 * NumLen(r.datlen) + D <= r.size
  }

  ghost predicate Roomy(s: State, D: nat) {
    forall o :: o in s.slots ==> RoomySlot(s.slots[o], D)
  }

  lemma RoomyFits(r: Slot, D: nat, key: string, used: nat)
    requires RoomySlot(r, D) && NumLen(|key|) == D && |key| <= r.area && used <= r.datlen
    ensures !Outgrows(r.(key := key, used := used, free := false))
    ensures RoomySlot(r.(key := key, used := used, free := false), D)
  {
    NumLenMonotone(used, r.datlen);
  }

  lemma RoomyDelete(s: State, i: nat, a: nat, D: nat)
    requires 1 <= i < |s.lists| && a < |s.lists[i]| && s.lists[i][a] in s.slots && Roomy(s, D)
    ensures Roomy(DeleteAt(s, i, a), D)
  {
  }

  lemma RoomyPut(s: State, key: string, data: Bytes, width: nat, minSize: nat, D: nat)
    requires Inv(s) && KeyOk(key) && Roomy(s, D) && NumLen(|key|) == D
    ensures !PutStep(s, key, data, width, minSize).0.Died?
    ensures Roomy(PutStep(s, key, data, width, minSize).1, D)
  {
    hide Hash, NumLen, HomeOf, KeysOk, Laid, Contiguous;
    var a := FirstFit(s.slots, s.lists[0], |key|, |data|);
    if a < |s.lists[0]| {
      FreeExtentInside(s, a);
      RoomyFits(s.slots[s.lists[0][a]], D, key, |data|);
    }
  }

  lemma RoomyDeleteStep(s: State, key: string, D: nat)
    requires Inv(s) && Roomy(s, D)
    ensures Roomy(DeleteStep(s, key).1, D)
  {
    hide Roomy, DeleteAt, SlotsOk, KeysOk, Owned, Laid, Contiguous, Hash, NoDup;
    var i := ChainOf(s, key);
    var a := FindKey(s.slots, s.lists[i], key);
    if a < |s.lists[i]| {
      assert s.lists[i][a] in s.lists[i];
      RoomyDelete(s, i, a, D);
    }
  }

  lemma RoomyInPlace(s: State, key: string, o: nat, data: Bytes, D: nat)
    requires Inv(s) && Roomy(s, D) && Holds(s, key, o) && NumLen(|key|) == D
    requires |data| <= s.slots[o].datlen && s.slots[o].datoff + |data| <= |s.dat|
    ensures !Outgrows(Rewritten(s, o, data)) && Roomy(InPlaceStep(s, o, data), D)
  {
    PrintableAt(s, o);
    hide Inv, NumLen, TextLen, IsLive, RoomySlot, Outgrows;
    RoomyFits(s.slots[o], D, key, |data|);
    assert Rewritten(s, o, data) == s.slots[o].(key := key, used := |data|, free := false);
  }

  lemma GoneOnce(s: State, key: string)
    requires Inv(s)
    ensures key in Contents(s) ==> exists o :: Holds(s, key, o)
    ensures forall o :: Holds(s, key, o) ==> o in s.slots
  {
  }

  /** With room everywhere no record ever outgrows its slot: no overflow, no relocation, and room remains. */
  lemma RoomyStore(s: State, key: string, data: Bytes, flag: nat, D: nat)
    requires Inv(s) && KeyOk(key) && Roomy(s, D) && NumLen(|key|) == D
    ensures !StoreStep(s, key, data, flag).0.Died? && !Overflows(s, key, data, flag)
    ensures Roomy(StoreStep(s, key, data, flag).1, D)
  {
    InvShape(s);
    GoneOnce(s, key);
    hide *;
    if !DataOk(data) {
      StoreTooLong(s, key, data, flag);
    } else if key !in Contents(s) {
      StoreStepAbsent(s, key, data, flag);
      if !HasReplace(flag) { RoomyPut(s, key, data, 0, 0, D); }
    } else if HasInsert(flag) {
      StorePresentInsert(s, key, data, flag);
    } else {
      var o := RecordOf(s, key);
      if |data| > s.slots[o].datlen {
        var d := StoreStepBigger(s, key, data, flag, o);
        RoomyDeleteStep(s, key, D);
        RoomyPut(d, key, data, s.slots[o].area, s.slots[o].size, D);
      } else {
        StoreStepOver(s, key, data, flag, o);
        RoomyInPlace(s, key, o, data, D);
      }
    }
  }

  // ---------------------------------------------------------------- operations on the finite map

  /** hint is the saved position passed with the key, 0 for none. */
  datatype Op =
    | Store(key: string, data: Bytes, flag: nat, hint: nat)
    | Delete(key: string)
    | Fetch(key: string, hint: nat)
    | LoadAll
  datatype Reply = Code(rc: int) | Found(data: Bytes) | NotFound | Listed(recs: seq<(string, Bytes)>)

  function MapStep(m: map<string, Bytes>, op: Op, reply: Reply): map<string, Bytes> {
    match op
    case Store(k, d, _, _) => if reply == Code(0) then m[k := d] else if reply == Code(2) then m - {k} else m
    case Delete(k) => m - {k}
    case Fetch(_, _) => m
    case LoadAll => m
  }

  /** The reply of a map; short says that there is no room for what a store brings. */
  ghost predicate Allowed(m: map<string, Bytes>, op: Op, short: bool, reply: Reply) {
    match op
    case Store(k, d, f, _) => reply == Code(StoreCode(k in m, |d|, f, short))
    case Delete(k) => reply == Code(if k in m then 0 else -1)
    case Fetch(k, _) => reply == if k in m then Found(m[k]) else NotFound
    case LoadAll => reply.Listed? && ListsMap(reply.recs, m)
  }

  ghost predicate Agrees(m: map<string, Bytes>, ops: seq<Op>, shorts: seq<bool>, replies: seq<Reply>)
    decreases |ops|
  {
    && |ops| == |replies| == |shorts|
    && (ops == [] || (&& Allowed(m, ops[0], shorts[0], replies[0])
                      && Agrees(MapStep(m, ops[0], replies[0]), ops[1..], shorts[1..], replies[1..])))
  }

  function MapRun(m: map<string, Bytes>, ops: seq<Op>, replies: seq<Reply>): map<string, Bytes>
    requires |ops| == |replies|
    decreases |ops|
  {
    if ops == [] then m else MapRun(MapStep(m, ops[0], replies[0]), ops[1..], replies[1..])
  }

  // ---------------------------------------------------------------- the same operations on the database

  function FetchReply(r: Option<Bytes>): Reply {
    match r
    case None => NotFound
    case Some(data) => Found(data)
  }

  predicate OpKeyOk(op: Op) { op.Store? ==> KeyOk(op.key) }

  /** A position to pass with a key: none, one past the end, or a record boundary; with a boundary the key is not all
      blanks, as the keys of deleted records are. */
  predicate Saved(s: State, key: string, hint: nat) {
    hint == 0 || hint >= s.idxLen || (hint in s.slots && !AllBlank(key))
  }

  predicate HintSaved(s: State, op: Op) {
    op.Store? || op.Fetch? ==> Saved(s, op.key, op.hint)
  }

  ghost function StepOp(s: State, op: Op): (Reply, State)
    requires Inv(s)
  {
    match op
    case Store(k, d, f, _) =>
      var (out, t) := StoreStep(s, k, d, f);
      (Code(if out.Died? then -2 else out.rc), t)
    case Delete(k) =>
      var (rc, t) := DeleteStep(s, k);
      (Code(rc), t)
    case Fetch(k, _) => (FetchReply(FetchStep(s, k)), s)
    case LoadAll => (Listed(Pairs(s, Scan(s, Start(|s.lists|)))), s)
  }

  /** The step neither outgrows a slot in place nor needs a record offset no chain pointer can hold. */
  predicate CalmOp(s: State, op: Op)
    requires Inv(s)
  {
    op.Store? ==> !StoreStep(s, op.key, op.data, op.flag).0.Died? && !Overflows(s, op.key, op.data, op.flag)
  }

  /** There is no room for what a store brings. */
  ghost predicate ShortOf(s: State, op: Op)
    requires |s.lists| >= 2
  {
    op.Store? && Short(s, op.key, |op.data|)
  }

  lemma PromiseRefines(m: map<string, Bytes>, key: string, data: Bytes, flag: nat, hint: nat, short: bool, rc: int, same: bool,
                       n: map<string, Bytes>)
    requires StorePromise(m, key, data, flag, short, false, rc, same, n)
    ensures Allowed(m, Store(key, data, flag, hint), short, Code(rc)) && n == MapStep(m, Store(key, data, flag, hint), Code(rc))
  {
  }

  lemma StoreRefines(s: State, key: string, data: Bytes, flag: nat, hint: nat) returns (reply: Reply, t: State)
    requires Inv(s) && Exact(s) && KeyOk(key) && CalmOp(s, Store(key, data, flag, hint))
    ensures StepOp(s, Store(key, data, flag, hint)) == (reply, t)
    ensures |s.lists| >= 2 && |t.lists| >= 2
    ensures Allowed(Contents(s), Store(key, data, flag, hint), Short(s, key, |data|), reply)
    ensures Contents(t) == MapStep(Contents(s), Store(key, data, flag, hint), reply)
    ensures Inv(t) && Exact(t)
  {
    hide Inv, StoreStep, Overflows, Contents, Exact, Allowed, MapStep, StorePromise, Short;
    StoreGrows(s, key, data, flag);
    var rc;
    rc, t := StoreMeans(s, key, data, flag);
    reply := Code(rc);
    PromiseRefines(Contents(s), key, data, flag, hint, Short(s, key, |data|), rc, t == s, Contents(t));
  }

  lemma DeleteRefines(s: State, key: string) returns (reply: Reply, t: State)
    requires Inv(s) && Exact(s)
    ensures StepOp(s, Delete(key)) == (reply, t)
    ensures |s.lists| >= 2 && |t.lists| >= 2
    ensures Allowed(Contents(s), Delete(key), false, reply)
    ensures Contents(t) == MapStep(Contents(s), Delete(key), reply)
    ensures Inv(t) && Exact(t)
  {
    DeleteStepGrows(s, key);
    hide Inv, DeleteStep, Contents, Exact;
    DeleteMeans(s, key);
    t := DeleteStep(s, key).1;
    reply := Code(DeleteStep(s, key).0);
  }

  lemma AllowedFetch(m: map<string, Bytes>, key: string, hint: nat, r: Option<Bytes>)
    requires r == if key in m then Some(m[key]) else None
    ensures Allowed(m, Fetch(key, hint), false, FetchReply(r)) && MapStep(m, Fetch(key, hint), FetchReply(r)) == m
  {
  }

  lemma FetchRefines(s: State, key: string, hint: nat) returns (reply: Reply, t: State)
    requires Inv(s) && Exact(s)
    ensures StepOp(s, Fetch(key, hint)) == (reply, t)
    ensures |s.lists| >= 2 && |t.lists| >= 2
    ensures Allowed(Contents(s), Fetch(key, hint), false, reply)
    ensures Contents(t) == MapStep(Contents(s), Fetch(key, hint), reply)
    ensures Inv(t) && Exact(t)
  {
    assert |s.lists| >= 2;
    t := s;
    reply := FetchReply(FetchStep(s, key));
    assert StepOp(s, Fetch(key, hint)) == (reply, t);
    hide *;
    FetchMeans(s, key);
    AllowedFetch(Contents(s), key, hint, FetchStep(s, key));
  }

  lemma LoadRefines(s: State) returns (reply: Reply, t: State)
    requires Inv(s) && Exact(s)
    ensures StepOp(s, LoadAll) == (reply, t)
    ensures |s.lists| >= 2 && |t.lists| >= 2
    ensures Allowed(Contents(s), LoadAll, false, reply)
    ensures Contents(t) == MapStep(Contents(s), LoadAll, reply)
    ensures Inv(t) && Exact(t)
  {
    ScanListsMap(s);
    t := s;
    reply := Listed(Pairs(s, Scan(s, Start(|s.lists|))));
    hide Inv, Exact, Scan, Pairs, Contents, ListsMap;
  }

  /** One operation is one step of the map. */
  lemma OpRefines(s: State, op: Op) returns (reply: Reply, t: State)
    requires Inv(s) && Exact(s) && OpKeyOk(op) && CalmOp(s, op)
    ensures StepOp(s, op) == (reply, t)
    ensures |s.lists| >= 2 && |t.lists| >= 2
    ensures Allowed(Contents(s), op, ShortOf(s, op), reply)
    ensures Contents(t) == MapStep(Contents(s), op, reply)
    ensures Inv(t) && Exact(t)
  {
    assert op.Store? ==> KeyOk(op.key);
    assert |s.lists| >= 2 && ShortOf(s, op) == if op.Store? then Short(s, op.key, |op.data|) else false;
    hide *;
    match op
    case Store(k, d, f, h) => reply, t := StoreRefines(s, k, d, f, h);
    case Delete(k) => reply, t := DeleteRefines(s, k);
    case Fetch(k, h) => reply, t := FetchRefines(s, k, h);
    case LoadAll => reply, t := LoadRefines(s);
  }

  ghost predicate CalmRun(s: State, ops: seq<Op>)
    decreases |ops|
  {
    Inv(s) && (ops == [] || (OpKeyOk(ops[0]) && HintSaved(s, ops[0]) && CalmOp(s, ops[0]) && CalmRun(StepOp(s, ops[0]).1, ops[1..])))
  }

  ghost function Run(s: State, ops: seq<Op>): (r: (seq<Reply>, State))
    requires CalmRun(s, ops)
    ensures |r.0| == |ops|
    decreases |ops|
  {
    if ops == [] then ([], s)
    else
      var (reply, t) := StepOp(s, ops[0]);
      var (replies, u) := Run(t, ops[1..]);
      ([reply] + replies, u)
  }

  /** For each operation of a run, whether there is no room for what it brings. */
  ghost function Shorts(s: State, ops: seq<Op>): (r: seq<bool>)
    requires CalmRun(s, ops)
    ensures |r| == |ops|
    decreases |ops|
  {
    if ops == [] then []
    else
      InvShape(s);
      [ShortOf(s, ops[0])] + Shorts(StepOp(s, ops[0]).1, ops[1..])
  }

  /** Every calm run is a run of the finite map, reply by reply, and ends in the state of the map. */
  lemma {:induction false} RunRefinesMap(s: State, ops: seq<Op>)
    requires CalmRun(s, ops) && Exact(s)
    ensures var (replies, t) := Run(s, ops);
            && |s.lists| >= 2 && |t.lists| >= 2
            && Agrees(Contents(s), ops, Shorts(s, ops), replies)
            && Contents(t) == MapRun(Contents(s), ops, replies)
            && Inv(t) && Exact(t)
    decreases |ops|
  {
    if ops != [] {
      var reply, t := OpRefines(s, ops[0]);
      hide Inv, Exact, StepOp, Contents, Allowed, MapStep, CalmOp, ShortOf;
      var (replies, u) := Run(t, ops[1..]);
      RunRefinesMap(t, ops[1..]);
      assert ([reply] + replies)[1..] == replies;
      assert ([ShortOf(s, ops[0])] + Shorts(t, ops[1..]))[1..] == Shorts(t, ops[1..]);
    }
  }

  /** Over a whole run no record boundary moves, so a saved position stays one. */
  lemma {:induction false} RunGrows(s: State, ops: seq<Op>)
    requires CalmRun(s, ops) && Exact(s)
    ensures Grows(s, Run(s, ops).1)
    decreases |ops|
  {
    if ops == [] {
      GrowsSelf(s);
    } else {
      var reply, t := OpRefines(s, ops[0]);
      OpGrows(s, ops[0]);
      hide Inv, Exact, StepOp, Contents, Allowed, MapStep, CalmOp, Grows;
      RunGrows(t, ops[1..]);
      GrowsOn(s, t, Run(t, ops[1..]).1);
    }
  }

  lemma OpGrows(s: State, op: Op)
    requires Inv(s) && OpKeyOk(op) && CalmOp(s, op)
    ensures Grows(s, StepOp(s, op).1)
  {
    hide Inv, Grows, StoreStep, DeleteStep, Overflows;
    match op
    case Store(k, d, f, _) => StoreGrows(s, k, d, f);
    case Delete(k) => DeleteStepGrows(s, k);
    case Fetch(_, _) => GrowsSelf(s);
    case LoadAll => GrowsSelf(s);
  }

  /** Every operation of the run is passed a saved position, if any. */
  ghost predicate HintsSaved(s: State, ops: seq<Op>)
    decreases |ops|
  {
    Inv(s) && ops != [] ==> HintSaved(s, ops[0]) && HintsSaved(StepOp(s, ops[0]).1, ops[1..])
  }

  /** When every key's length has the same number of digits, as with the decimal record names of the crawler,
      no run can leave the map: every sequence of operations is calm. */
  lemma {:induction false} RoomyRunIsCalm(s: State, ops: seq<Op>, D: nat)
    requires Inv(s) && Exact(s) && Roomy(s, D) && HintsSaved(s, ops)
    requires forall i :: 0 <= i < |ops| && ops[i].Store? ==> KeyOk(ops[i].key) && NumLen(|ops[i].key|) == D
    ensures CalmRun(s, ops)
    decreases |ops|
  {
    if ops != [] {
      RoomyOp(s, ops[0], D);
      var reply, t := OpRefines(s, ops[0]);
      hide Inv, Exact, StepOp, Contents, Allowed, MapStep, CalmOp, Roomy, HintSaved;
      RoomyRunIsCalm(t, ops[1..], D);
    }
  }

  lemma RoomyOp(s: State, op: Op, D: nat)
    requires Inv(s) && Roomy(s, D) && (op.Store? ==> KeyOk(op.key) && NumLen(|op.key|) == D)
    ensures CalmOp(s, op) && Roomy(StepOp(s, op).1, D)
  {
    hide Inv, Roomy, StoreStep, DeleteStep, FetchStep, Scan, Pairs, Overflows;
    match op
    case Store(k, d, f, _) => RoomyStore(s, k, d, f, D);
    case Delete(k) => RoomyDeleteStep(s, k, D);
    case Fetch(_, _) =>
    case LoadAll =>
  }

  // ---------------------------------------------------------------- an empty database

  function EmptyDb(nhash: nat): State
    requires nhash >= 1
  {
    State(map[], seq(nhash + 1, _ => []), Start(nhash + 1), [], [])
  }

  lemma EmptyDbOk(nhash: nat, D: nat)
    requires nhash >= 1
    ensures Inv(EmptyDb(nhash)) && Exact(EmptyDb(nhash)) && Roomy(EmptyDb(nhash), D)
    ensures Contents(EmptyDb(nhash)) == map[]
  {
    assert forall k, o :: !Holds(EmptyDb(nhash), k, o);
  }

  /** From an empty database, with keys of one digit-length, every run is a run of the empty map. */
  lemma EveryRoomyRun(nhash: nat, ops: seq<Op>, D: nat)
    requires nhash >= 1 && HintsSaved(EmptyDb(nhash), ops)
    requires forall i :: 0 <= i < |ops| && ops[i].Store? ==> KeyOk(ops[i].key) && NumLen(|ops[i].key|) == D
    ensures CalmRun(EmptyDb(nhash), ops)
    ensures Agrees(map[], ops, Shorts(EmptyDb(nhash), ops), Run(EmptyDb(nhash), ops).0)
    ensures var t := Run(EmptyDb(nhash), ops).1; |t.lists| >= 2 && Contents(t) == MapRun(map[], ops, Run(EmptyDb(nhash), ops).0)
  {
    EmptyDbOk(nhash, D);
    hide *;
    RoomyRunIsCalm(EmptyDb(nhash), ops, D);
    RunRefinesMap(EmptyDb(nhash), ops);
  }

  // ---------------------------------------------------------------- room for all

  /** The bytes a run stores, and how many stores it makes. */
  function Volume(ops: seq<Op>): nat {
    if ops == [] then 0 else (if ops[0].Store? then |ops[0].data| else 0) + Volume(ops[1..])
  }

  function Stores(ops: seq<Op>): nat {
    if ops == [] then 0 else (if ops[0].Store? then 1 else 0) + Stores(ops[1..])
  }

  /** A step never makes the data file grow by more than the data, nor the index file by more than a record. */
  ghost predicate Bounded(s: State, t: State, n: nat, records: nat) {
    |t.dat| <= |s.dat| + n && t.idxLen <= s.idxLen + 4109 * records
  }

  lemma PutBounded(s: State, key: string, data: Bytes, width: nat, minSize: nat)
    requires Inv(s) && KeyOk(key) && DataOk(data) && width <= KEY_MAX && minSize <= IDXLEN_MAX
    ensures Bounded(s, PutStep(s, key, data, width, minSize).1, |data|, 1)
  {
    hide Inv, Hash, Outgrows, FirstFit, TextLen;
    InvShape(s);
    var a := FirstFit(s.slots, s.lists[0], |key|, |data|);
    if a < |s.lists[0]| {
      ReusedPrintable(s, key, data, a);
    } else if EnoughSpace(s, |key|, |data|) {
      NewSlotPrintable(width, minSize, key, |s.dat|, |data|, |data|);
    }
  }

  lemma DeleteBounded(s: State, key: string)
    requires Inv(s)
    ensures DeleteStep(s, key).1.dat == s.dat && DeleteStep(s, key).1.idxLen == s.idxLen
  {
  }

  lemma StoreBounded(s: State, key: string, data: Bytes, flag: nat)
    requires Inv(s) && KeyOk(key) && !StoreStep(s, key, data, flag).0.Died? && !Overflows(s, key, data, flag)
    ensures Bounded(s, StoreStep(s, key, data, flag).1, |data|, 1)
  {
    InvShape(s);
    GoneOnce(s, key);
    hide *;
    BoundedSelf(s, |data|);
    if !DataOk(data) {
      StoreTooLong(s, key, data, flag);
    } else if key !in Contents(s) {
      StoreStepAbsent(s, key, data, flag);
      if !HasReplace(flag) { PutBounded(s, key, data, 0, 0); }
    } else if HasInsert(flag) {
      StorePresentInsert(s, key, data, flag);
    } else {
      var o := RecordOf(s, key);
      if |data| > s.slots[o].datlen {
        var d := StoreStepBigger(s, key, data, flag, o);
        DeleteBounded(s, key);
        PutBounded(d, key, data, s.slots[o].area, s.slots[o].size);
        BoundedFrom(s, d, StoreStep(s, key, data, flag).1, |data|);
      } else {
        StoreStepOver(s, key, data, flag, o);
        InPlaceBounded(s, o, data);
      }
    }
  }

  lemma BoundedSelf(s: State, n: nat)
    ensures Bounded(s, s, n, 1) && Bounded(s, s, 0, 0)
  {
  }

  lemma BoundedFrom(s: State, d: State, t: State, n: nat)
    requires d.dat == s.dat && d.idxLen == s.idxLen && Bounded(d, t, n, 1)
    ensures Bounded(s, t, n, 1)
  {
  }

  lemma InPlaceBounded(s: State, o: nat, data: Bytes)
    requires o in s.slots && s.slots[o].datoff + |data| <= |s.dat| && !Outgrows(Rewritten(s, o, data))
    ensures Bounded(s, InPlaceStep(s, o, data), |data|, 1)
  {
  }

  lemma OpBounded(s: State, op: Op)
    requires Inv(s) && OpKeyOk(op) && CalmOp(s, op)
    ensures Bounded(s, StepOp(s, op).1, if op.Store? then |op.data| else 0, if op.Store? then 1 else 0)
  {
    hide Inv, StoreStep, DeleteStep, Overflows;
    match op
    case Store(k, d, f, _) => StoreBounded(s, k, d, f);
    case Delete(k) => DeleteBounded(s, k);
    case Fetch(_, _) =>
    case LoadAll =>
  }

  lemma BoundedMeans(s: State, t: State, n: nat, records: nat)
    requires Bounded(s, t, n, records)
    ensures |t.dat| <= |s.dat| + n && t.idxLen <= s.idxLen + 4109 * records
  {
  }

  lemma BoundedIf(s: State, t: State, n: nat, records: nat)
    requires |t.dat| <= |s.dat| + n && t.idxLen <= s.idxLen + 4109 * records
    ensures Bounded(s, t, n, records)
  {
  }

  lemma {:induction false} RunBounded(s: State, ops: seq<Op>)
    requires CalmRun(s, ops) && Exact(s)
    ensures Bounded(s, Run(s, ops).1, Volume(ops), Stores(ops))
    decreases |ops|
  {
    hide Inv, Exact, StepOp, Contents, Allowed, MapStep, CalmOp, ShortOf, HintSaved, Bounded;
    if ops == [] {
      BoundedSelf(s, 0);
    } else {
      var reply, t := OpRefines(s, ops[0]);
      OpBounded(s, ops[0]);
      RunBounded(t, ops[1..]);
      var n, k := if ops[0].Store? then |ops[0].data| else 0, if ops[0].Store? then 1 else 0;
      BoundedMeans(s, t, n, k);
      BoundedMeans(t, Run(t, ops[1..]).1, Volume(ops[1..]), Stores(ops[1..]));
      BoundedIf(s, Run(s, ops).1, Volume(ops), Stores(ops));
    }
  }

  /** After any run on an empty database, a store is not refused for want of space as long as the bytes stored so far,
      with its own, and the index with its key are within the limits of the two files; and the index has then grown by
      at most one record of the greatest length for each store. */
  lemma WithinLimits(nhash: nat, ops: seq<Op>, key: string, data: Bytes, flag: nat)
    requires nhash >= 1 && CalmRun(EmptyDb(nhash), ops) && KeyOk(key)
    ensures var s := Run(EmptyDb(nhash), ops).1;
            && Inv(s) && s.idxLen <= 9 * (nhash + 1) + 1 + 4109 * Stores(ops)
            && (Volume(ops) + |data| <= 2_000_000_000 && s.idxLen + |key| <= 999_999_999 ==>
                  StoreStep(s, key, data, flag).0.Returned? ==> StoreStep(s, key, data, flag).0.rc != 2)
  {
    EmptyDbOk(nhash, 1);
    EmptySizes(nhash);
    hide Inv, Exact, StoreStep, Contents, Agrees, MapRun, CalmRun, Run, Shorts, Volume, Stores, EmptyDb;
    RunRefinesMap(EmptyDb(nhash), ops);
    RunBounded(EmptyDb(nhash), ops);
    var s := Run(EmptyDb(nhash), ops).1;
    if !StoreStep(s, key, data, flag).0.Died? {
      var rc, t := StoreMeans(s, key, data, flag);
    }
  }

  lemma EmptySizes(nhash: nat)
    requires nhash >= 1
    ensures |EmptyDb(nhash).dat| == 0 && EmptyDb(nhash).idxLen == 9 * (nhash + 1) + 1
  {
  }

  function Ample(n: nat): seq<bool> { seq(n, _ => false) }

  lemma AmpleCons(n: nat)
    ensures Ample(n + 1) == [false] + Ample(n) && Ample(0) == []
  {
  }

  /** The runs of a map that has room for everything. */
  ghost predicate AgreesFully(m: map<string, Bytes>, ops: seq<Op>, replies: seq<Reply>) {
    Agrees(m, ops, Ample(|ops|), replies)
  }

  lemma {:induction false} NeverShort(s: State, ops: seq<Op>)
    requires CalmRun(s, ops) && Exact(s)
    requires |s.dat| + Volume(ops) <= 2_000_000_000 && s.idxLen + 4109 * Stores(ops) <= 999_999_999
    ensures Shorts(s, ops) == Ample(|ops|)
    decreases |ops|
  {
    hide Inv, Exact, StepOp, Contents, Allowed, MapStep, CalmOp, ShortOf, HintSaved, Ample, Bounded;
    if ops == [] {
      AmpleCons(0);
    } else {
      var reply, t := OpRefines(s, ops[0]);
      OpBounded(s, ops[0]);
      BoundedMeans(s, t, if ops[0].Store? then |ops[0].data| else 0, if ops[0].Store? then 1 else 0);
      NotShort(s, ops[0], Volume(ops), Stores(ops));
      NeverShort(t, ops[1..]);
      AmpleCons(|ops| - 1);
    }
  }

  lemma NotShort(s: State, op: Op, volume: nat, stores: nat)
    requires |s.lists| >= 2 && OpKeyOk(op) && |s.dat| + volume <= 2_000_000_000 && s.idxLen + 4109 * stores <= 999_999_999
    requires op.Store? ==> |op.data| <= volume && stores >= 1
    ensures !ShortOf(s, op)
  {
    hide OnList, IsLive;
  }

  /** Within the limits of the two files a run on an empty database replies exactly as the map does: every store that
      its flag and its length allow succeeds. */
  lemma RoomForAll(nhash: nat, ops: seq<Op>)
    requires nhash >= 1 && CalmRun(EmptyDb(nhash), ops)
    requires Volume(ops) <= 2_000_000_000 && 9 * (nhash + 1) + 1 + 4109 * Stores(ops) <= 999_999_999
    ensures AgreesFully(map[], ops, Run(EmptyDb(nhash), ops).0)
  {
    EmptyDbOk(nhash, 1);
    EmptySizes(nhash);
    hide Inv, Exact, Contents, Agrees, MapRun, CalmRun, Run, Shorts, Volume, Stores, EmptyDb;
    RunRefinesMap(EmptyDb(nhash), ops);
    NeverShort(EmptyDb(nhash), ops);
  }
}
