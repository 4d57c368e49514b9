/**
 * What db_store, db_delete, db_fetch and db_nextrec promise, for every state and every run.
 */
module HashDbTheorems {
  import opened CText
  import opened Machine
  import opened IndexRecord
  import opened IndexFile
  import opened HashDbSpec
  import opened HashDbInv
  import opened HashDbOps

  // ---------------------------------------------------------------- db_store

  lemma StoreStepAbsent(s: State, key: string, data: Bytes, flag: nat)
    requires Inv(s) && DataOk(data) && key !in Contents(s)
    ensures StoreStep(s, key, data, flag) == if HasReplace(flag) then (Returned(-1, 0), s) else PutStep(s, key, data, 0, 0)
    ensures !Overflows(s, key, data, flag)
  {
    hide PutStep, InPlaceStep, DeleteAt, Contents, Rewritten;
    FoundIffPresent(s, key);
  }

  lemma StoreAbsent(s: State, key: string, data: Bytes, flag: nat) returns (rc: int, t: State)
    requires Inv(s) && KeyOk(key) && DataOk(data) && key !in Contents(s) && !StoreStep(s, key, data, flag).0.Died?
    ensures StoreStep(s, key, data, flag).0.rc == rc && StoreStep(s, key, data, flag).1 == t
    ensures |t.lists| >= 2
    ensures if HasReplace(flag) then rc == -1 && t == s
            else (rc == 0 && Contents(t) == Contents(s)[key := data]) || (rc == 2 && t == s)
    ensures !HasReplace(flag) ==> rc == if Full(s, |key|, |data|) then 2 else 0
    ensures !Overflows(s, key, data, flag)
    ensures Inv(t)
  {
    StoreStepAbsent(s, key, data, flag);
    PutFull(s, key, data, 0, 0);
    hide *;
    if HasReplace(flag) {
      rc, t := -1, s;
    } else {
      rc, t := PutMeans(s, key, data, 0, 0);
    }
  }

  /** A present key that may be replaced is found at o. */
  lemma StoreReplaces(s: State, key: string, data: Bytes, flag: nat, o: nat) returns (i: nat, a: nat)
    requires Inv(s) && DataOk(data) && Holds(s, key, o) && !HasInsert(flag)
    ensures i == ChainOf(s, key) < |s.lists| && a < |s.lists[i]| && s.lists[i][a] == o
    ensures StoreStep(s, key, data, flag) == ReplaceStep(s, key, data, i, a)
    ensures DeleteStep(s, key) == (0, DeleteAt(s, i, a))
    ensures Overflows(s, key, data, flag) <==> |data| <= s.slots[o].datlen && Outgrows(Rewritten(s, o, data))
  {
    InvShape(s);
    hide Inv, ListsOk, ReplaceStep, DeleteAt, Rewritten, Hash, IsLive;
    i := ChainOf(s, key);
    a := FindKey(s.slots, s.lists[i], key);
    FindKeyFinds(s, key);
    HoldsOnce(s, key, o, s.lists[i][a]);
  }

  /** A present key whose record is too small is deleted first. */
  lemma StoreStepBigger(s: State, key: string, data: Bytes, flag: nat, o: nat) returns (d: State)
    requires Inv(s) && DataOk(data) && Holds(s, key, o) && !HasInsert(flag) && |data| > s.slots[o].datlen
    ensures DeleteStep(s, key) == (0, d)
    ensures Inv(d) && Contents(d) == Contents(s) - {key}
    ensures StoreStep(s, key, data, flag) == PutStep(d, key, data, s.slots[o].area, s.slots[o].size)
    ensures s.slots[o].area <= KEY_MAX && s.slots[o].size <= IDXLEN_MAX
    ensures !Overflows(s, key, data, flag)
    ensures |d.lists| == |s.lists| >= 2 && (Full(d, |key|, |data|) <==> Full(s, |key|, |data|))
  {
    var i, a := StoreReplaces(s, key, data, flag, o);
    ChainExtentInside(s, i, a);
    DeleteRemoves(s, key, i, a);
    FullAfterDelete(s, i, a, |key|, |data|);
    d := DeleteAt(s, i, a);
    hide Inv, StoreStep, DeleteStep, Overflows, PutStep, InPlaceStep, DeleteAt, Rewritten, Contents, Hash, IsLive, FindKey;
  }

  /** ... and then stored afresh. */
  lemma StoreBigger(s: State, key: string, data: Bytes, flag: nat, o: nat) returns (rc: int, t: State)
    requires Inv(s) && KeyOk(key) && DataOk(data) && Holds(s, key, o) && !HasInsert(flag)
    requires |data| > s.slots[o].datlen && !StoreStep(s, key, data, flag).0.Died?
    ensures StoreStep(s, key, data, flag).0.rc == rc && StoreStep(s, key, data, flag).1 == t
    ensures |t.lists| >= 2
    ensures (rc == 0 && Contents(t) == Contents(s)[key := data]) || (rc == 2 && Contents(t) == Contents(s) - {key})
    ensures rc == if Full(s, |key|, |data|) then 2 else 0
    ensures !Overflows(s, key, data, flag)
    ensures Inv(t)
  {
    var d := StoreStepBigger(s, key, data, flag, o);
    PutFull(d, key, data, s.slots[o].area, s.slots[o].size);
    hide *;
    rc, t := PutMeans(d, key, data, s.slots[o].area, s.slots[o].size);
    PutAfterRemove(Contents(s), key, data);
  }

  /** A present key whose record is large enough is overwritten where it is. */
  lemma StoreStepOver(s: State, key: string, data: Bytes, flag: nat, o: nat)
    requires Inv(s) && DataOk(data) && Holds(s, key, o) && !HasInsert(flag) && |data| <= s.slots[o].datlen
    ensures s.slots[o].datoff + |data| <= |s.dat|
    ensures StoreStep(s, key, data, flag).0.Returned? && StoreStep(s, key, data, flag).0.rc == 0
    ensures StoreStep(s, key, data, flag).1 == InPlaceStep(s, o, data)
    ensures Overflows(s, key, data, flag) <==> Outgrows(Rewritten(s, o, data))
  {
    var i, a := StoreReplaces(s, key, data, flag, o);
    ChainExtentInside(s, i, a);
    hide Inv, StoreStep, DeleteStep, Overflows, PutStep, InPlaceStep, DeleteAt, Rewritten, Hash, IsLive, FindKey;
  }

  lemma StoreOver(s: State, key: string, data: Bytes, flag: nat, o: nat) returns (t: State)
    requires Inv(s) && KeyOk(key) && DataOk(data) && Holds(s, key, o) && !HasInsert(flag)
    requires |data| <= s.slots[o].datlen
    ensures StoreStep(s, key, data, flag).0.Returned? && StoreStep(s, key, data, flag).0.rc == 0
    ensures StoreStep(s, key, data, flag).1 == t
    ensures |t.lists| >= 2
    ensures Contents(t) == Contents(s)[key := data] <==> !Overflows(s, key, data, flag)
    ensures Inv(t)
  {
    hide StoreStep, InPlaceStep, Overflows, Rewritten, Contents;
    StoreStepOver(s, key, data, flag, o);
    InPlaceIff(s, key, o, data);
    InPlacePut(s, key, o, data);
    t := InPlaceStep(s, o, data);
  }

  lemma StorePresentInsert(s: State, key: string, data: Bytes, flag: nat)
    requires Inv(s) && DataOk(data) && key in Contents(s) && HasInsert(flag)
    ensures StoreStep(s, key, data, flag).0.Returned? && StoreStep(s, key, data, flag).0.rc == 1
    ensures StoreStep(s, key, data, flag).1 == s && !Overflows(s, key, data, flag)
  {
    FoundIffPresent(s, key);
  }

  lemma StoreTooLong(s: State, key: string, data: Bytes, flag: nat)
    requires Inv(s) && !DataOk(data)
    ensures StoreStep(s, key, data, flag) == (Returned(3, 0), s) && !Overflows(s, key, data, flag) && |s.lists| >= 2
  {
  }

  lemma StorePresent(s: State, key: string, data: Bytes, flag: nat) returns (rc: int, t: State)
    requires Inv(s) && KeyOk(key) && DataOk(data) && key in Contents(s) && !StoreStep(s, key, data, flag).0.Died?
    ensures StoreStep(s, key, data, flag).0.rc == rc && StoreStep(s, key, data, flag).1 == t
    ensures |t.lists| >= 2
    ensures if HasInsert(flag) then rc == 1 && t == s && !Overflows(s, key, data, flag)
            else (rc == 0 && (Contents(t) == Contents(s)[key := data] <==> !Overflows(s, key, data, flag)))
                 || (rc == 2 && Contents(t) == Contents(s) - {key} && !Overflows(s, key, data, flag))
    ensures !HasInsert(flag) ==> rc == if Short(s, key, |data|) then 2 else 0
    ensures Inv(t)
  {
    assert |s.lists| >= 2 && exists o :: Holds(s, key, o);
    hide *;
    if HasInsert(flag) {
      StorePresentInsert(s, key, data, flag);
      rc, t := 1, s;
    } else {
      var o := RecordOf(s, key);
      ShortPresent(s, key, |data|, o);
      if |data| > s.slots[o].datlen {
        rc, t := StoreBigger(s, key, data, flag, o);
      } else {
        t := StoreOver(s, key, data, flag, o);
        rc := 0;
      }
    }
  }

  /** There is no room for the key and n bytes, neither in a record the key has nor elsewhere. */
  ghost predicate Short(s: State, key: string, n: nat)
    requires |s.lists| >= 2
  {
    Full(s, |key|, n) && forall o :: Holds(s, key, o) ==> s.slots[o].datlen < n
  }

  lemma ShortPresent(s: State, key: string, n: nat, o: nat)
    requires Inv(s) && Holds(s, key, o)
    ensures Short(s, key, n) <==> Full(s, |key|, n) && s.slots[o].datlen < n
  {
    hide Inv, Full, IsLive;
    InvOneEach(s);
  }

  lemma ShortAbsent(s: State, key: string, n: nat)
    requires |s.lists| >= 2 && key !in Contents(s)
    ensures Short(s, key, n) <==> Full(s, |key|, n)
  {
    hide Full;
  }

  /** The code db_store returns: too long, nothing to replace, something there already, no room, or done. */
  function StoreCode(present: bool, n: nat, flag: nat, short: bool): int {
    if n > 2_097_152 then 3
    else if !present && HasReplace(flag) then -1
    else if present && HasInsert(flag) then 1
    else if short then 2
    else 0
  }

  /**
   * What db_store promises about the map m it finds and the map n it leaves: the code says exactly what was
   * the case, an error leaves the state the same, running out of space leaves the key absent, and success
   * is one map update exactly when no record outgrew its slot in place.
   */
  ghost predicate StorePromise(m: map<string, Bytes>, key: string, data: Bytes, flag: nat, short: bool, overflow: bool,
                               rc: int, same: bool, n: map<string, Bytes>) {
    && rc == StoreCode(key in m, |data|, flag, short)
    && (rc == 3 || rc == -1 || rc == 1 ==> same && n == m)
    && (rc == 2 ==> n == m - {key})
    && (rc == 0 ==> (n == m[key := data] <==> !overflow))
    && (rc != 0 ==> !overflow)
  }

  lemma PromiseAbsent(m: map<string, Bytes>, key: string, data: Bytes, flag: nat, short: bool, rc: int, same: bool, n: map<string, Bytes>)
    requires DataOk(data) && key !in m
    requires if HasReplace(flag) then rc == -1 && same && n == m
             else rc == (if short then 2 else 0) && n == if short then m else m[key := data]
    ensures StorePromise(m, key, data, flag, short, false, rc, same, n)
  {
    RemoveAbsent(m, key);
  }

  lemma PromisePresent(m: map<string, Bytes>, key: string, data: Bytes, flag: nat, short: bool, overflow: bool,
                       rc: int, same: bool, n: map<string, Bytes>)
    requires DataOk(data) && key in m
    requires if HasInsert(flag) then rc == 1 && same && n == m && !overflow
             else (rc == 0 && !short && (n == m[key := data] <==> !overflow)) || (rc == 2 && short && n == m - {key} && !overflow)
    ensures StorePromise(m, key, data, flag, short, overflow, rc, same, n)
  {
  }

  lemma PromiseTooLong(m: map<string, Bytes>, key: string, data: Bytes, flag: nat, short: bool)
    requires !DataOk(data)
    ensures StorePromise(m, key, data, flag, short, false, 3, true, m)
  {
  }

  /** db_store, all outcomes. */
  lemma StoreMeans(s: State, key: string, data: Bytes, flag: nat) returns (rc: int, t: State)
    requires Inv(s) && KeyOk(key) && !StoreStep(s, key, data, flag).0.Died?
    ensures StoreStep(s, key, data, flag).0.rc == rc && StoreStep(s, key, data, flag).1 == t
    ensures |t.lists| >= 2
    ensures StorePromise(Contents(s), key, data, flag, Short(s, key, |data|), Overflows(s, key, data, flag), rc, t == s, Contents(t))
    ensures Inv(t)
  {
    assert |s.lists| >= 2;
    hide *;
    var m := Contents(s);
    if !DataOk(data) {
      StoreTooLong(s, key, data, flag);
      rc, t := 3, s;
      PromiseTooLong(m, key, data, flag, Short(s, key, |data|));
    } else if key !in m {
      rc, t := StoreAbsent(s, key, data, flag);
      ShortAbsent(s, key, |data|);
      PromiseAbsent(m, key, data, flag, Short(s, key, |data|), rc, t == s, Contents(t));
    } else {
      rc, t := StorePresent(s, key, data, flag);
      PromisePresent(m, key, data, flag, Short(s, key, |data|), Overflows(s, key, data, flag), rc, t == s, Contents(t));
    }
  }
}
