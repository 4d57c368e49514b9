/**
 * Record boundaries: they never move, a sequential scan visits each live record once, and a saved record
 * position leads to the record the chain walk finds.
 */
module HashDbScan {
  import opened CText
  import opened Machine
  import opened IndexRecord
  import opened IndexFile
  import opened HashDbSpec
  import opened HashDbInv
  import opened HashDbOps
  import opened HashDbTheorems

  // ---------------------------------------------------------------- boundaries never move

  /** Every record of s is still a record of t, in the same place and of the same size. */
  ghost predicate Grows(s: State, t: State) {
    && s.idxLen <= t.idxLen
    && (forall o :: o in s.slots ==> o in t.slots && t.slots[o].size == s.slots[o].size)
  }

  lemma DeleteGrows(s: State, i: nat, a: nat)
    requires Inv(s) && 1 <= i < |s.lists| && a < |s.lists[i]|
    ensures s.lists[i][a] in s.slots && Grows(s, DeleteAt(s, i, a))
    ensures Exact(s) ==> Exact(DeleteAt(s, i, a))
  {
    hide SlotsOk, KeysOk, Owned, Laid, Contiguous, NoDup, Hash;
    OnlyHome(s, i, s.lists[i][a]);
    DeleteKeepsInv(s, i, a);
    DeleteExact(s, i, a);
  }

  lemma DeleteExact(s: State, i: nat, a: nat)
    requires |s.lists| >= 2 && 1 <= i < |s.lists| && a < |s.lists[i]| && s.lists[i][a] in s.slots
    requires forall x :: OnList(DeleteAt(s, i, a), x) <==> OnList(s, x)
    ensures Exact(s) ==> Exact(DeleteAt(s, i, a))
  {
  }

  lemma AppendGrows(s: State, key: string, data: Bytes, width: nat, minSize: nat)
    requires Inv(s) && KeyOk(key) && DataOk(data) && width <= KEY_MAX && minSize <= IDXLEN_MAX
    requires Absent(s, key) && EnoughSpace(s, |key|, |data|)
    ensures Grows(s, AppendStep(s, key, data, width, minSize))
    ensures Exact(s) ==> Exact(AppendStep(s, key, data, width, minSize))
  {
    hide KeysOk, Owned, Contiguous, NoDup, Hash, TextLen, Printable, Moved;
    var t := AppendStep(s, key, data, width, minSize);
    NotYetASlot(s);
    var i := ChainOf(s, key);
    var r := NewSlot(width, minSize, key, |s.dat|, |data|, |data|);
    PushMoves(s, t, i, s.idxLen);
    MovedLists(s, t, s.idxLen, i);
    AddedExact(s, t, s.idxLen);
  }

  /** One linked record added, every other one linked or not as before. */
  lemma AddedExact(s: State, t: State, n: nat)
    requires |s.lists| >= 2 && |t.lists| == |s.lists| && n !in s.slots
    requires n in t.slots && t.slots == s.slots[n := t.slots[n]] && OnList(t, n)
    requires forall x :: x != n && x in s.slots && !s.slots[x].free ==> (OnList(t, x) <==> OnList(s, x))
    ensures Exact(s) ==> Exact(t)
  {
  }

  lemma ReuseInSlotGrows(s: State, key: string, data: Bytes, a: nat)
    requires Reusable(s, key, data, a) && !Outgrows(Reused(s, key, data, a))
    ensures Grows(s, ReuseStep(s, key, data, a))
    ensures |ReuseStep(s, key, data, a).lists| >= 2
    ensures Exact(s) ==> Exact(ReuseStep(s, key, data, a))
  {
    hide SlotsOk, KeysOk, Owned, Laid, Contiguous, NoDup, Hash, TextLen, RemoveAt, Absent, Printable;
    ReuseInSlotKeepsInv(s, key, data, a);
    RewrittenExact(s, ReuseStep(s, key, data, a), s.lists[0][a]);
  }

  lemma ReuseMovingGrows(s: State, key: string, data: Bytes, a: nat)
    requires Reusable(s, key, data, a) && Outgrows(Reused(s, key, data, a)) && s.idxLen <= PTR_MAX
    ensures Grows(s, ReuseStep(s, key, data, a))
    ensures |ReuseStep(s, key, data, a).lists| >= 2
    ensures Exact(s) ==> Exact(ReuseStep(s, key, data, a))
  {
    hide Hash, TextLen, Laid, Contiguous, Owned, KeysOk, SlotsOk, RemoveAt;
    NotYetASlot(s);
    OnlyHome(s, 0, s.lists[0][a]);
    ReuseMovingKeepsInv(s, key, data, a);
    AddedExact(s, ReuseStep(s, key, data, a), s.idxLen);
  }

  /** One linked record rewritten where it is. */
  lemma RewrittenExact(s: State, t: State, o: nat)
    requires |s.lists| >= 2 && |t.lists| == |s.lists| && OnList(s, o)
    requires o in t.slots && t.slots == s.slots[o := t.slots[o]]
    requires forall x :: OnList(t, x) <==> OnList(s, x)
    ensures Exact(s) ==> Exact(t)
  {
  }

  lemma StrayNotExact(s: State, t: State, n: nat)
    requires |s.lists| >= 2 && |t.lists| == |s.lists| && n !in s.slots
    requires n in t.slots && !t.slots[n].free
    requires forall x :: OnList(t, x) <==> OnList(s, x)
    ensures !Exact(t)
  {
    assert !OnList(s, n);
  }

  lemma InPlaceJustGrows(s: State, o: nat, data: Bytes)
    requires o in s.slots && s.slots[o].datoff + |data| <= |s.dat| && s.idxLen !in s.slots
    ensures Grows(s, InPlaceStep(s, o, data))
  {
  }

  lemma InPlaceExact(s: State, o: nat, data: Bytes)
    requires |s.lists| >= 2 && OnList(s, o) && s.slots[o].datoff + |data| <= |s.dat| && s.idxLen !in s.slots
    requires !s.slots[o].free
    requires forall x :: OnList(InPlaceStep(s, o, data), x) <==> OnList(s, x)
    ensures Exact(s) ==> (Exact(InPlaceStep(s, o, data)) <==> !Outgrows(Rewritten(s, o, data)))
  {
    if Outgrows(Rewritten(s, o, data)) {
      StrayNotExact(s, InPlaceStep(s, o, data), s.idxLen);
    } else {
      RewrittenExact(s, InPlaceStep(s, o, data), o);
    }
  }

  /** An in-place rewrite leaves a live record outside the chains exactly when its text outgrows the slot. */
  lemma InPlaceGrows(s: State, key: string, o: nat, data: Bytes)
    requires Inv(s) && Holds(s, key, o) && |data| <= s.slots[o].datlen && s.slots[o].datoff + |data| <= |s.dat|
    ensures Grows(s, InPlaceStep(s, o, data))
    ensures Exact(s) ==> (Exact(InPlaceStep(s, o, data)) <==> !Outgrows(Rewritten(s, o, data)))
  {
    NotYetASlot(s);
    assert OnList(s, o);
    InPlaceKeepsInv(s, o, data);
    InPlaceJustGrows(s, o, data);
    InPlaceExact(s, o, data);
  }

  lemma PutGrows(s: State, key: string, data: Bytes, width: nat, minSize: nat)
    requires Inv(s) && KeyOk(key) && DataOk(data) && width <= KEY_MAX && minSize <= IDXLEN_MAX
    requires Absent(s, key) && !PutStep(s, key, data, width, minSize).0.Died?
    ensures Grows(s, PutStep(s, key, data, width, minSize).1)
    ensures |s.lists| >= 2
    ensures Exact(s) ==> Exact(PutStep(s, key, data, width, minSize).1)
  {
    hide ReuseStep, AppendStep, Grows, Exact;
    var a := FirstFit(s.slots, s.lists[0], |key|, |data|);
    if a < |s.lists[0]| {
      FreeExtentInside(s, a);
      if Outgrows(Reused(s, key, data, a)) {
        ReuseMovingGrows(s, key, data, a);
      } else {
        ReuseInSlotGrows(s, key, data, a);
      }
    } else if EnoughSpace(s, |key|, |data|) {
      AppendGrows(s, key, data, width, minSize);
    } else {
      GrowsSelf(s);
    }
  }

  lemma GrowsSelf(s: State)
    ensures Grows(s, s)
  {
  }

  lemma GrowsOn(s: State, t: State, u: State)
    requires Grows(s, t) && Grows(t, u)
    ensures Grows(s, u)
  {
  }

  lemma DeleteStepGrows(s: State, key: string)
    requires Inv(s)
    ensures Grows(s, DeleteStep(s, key).1)
    ensures |s.lists| >= 2
    ensures Exact(s) ==> Exact(DeleteStep(s, key).1)
  {
    hide DeleteAt, Grows, Exact, Hash, SlotsOk, KeysOk, Owned, Laid, Contiguous, NoDup, OnList;
    GrowsSelf(s);
    var i := ChainOf(s, key);
    var a := FindKey(s.slots, s.lists[i], key);
    if a < |s.lists[i]| {
      DeleteGrows(s, i, a);
    }
  }

  lemma StoreBiggerGrows(s: State, key: string, data: Bytes, flag: nat, o: nat)
    requires Inv(s) && KeyOk(key) && DataOk(data) && Holds(s, key, o) && !HasInsert(flag)
    requires |data| > s.slots[o].datlen && !StoreStep(s, key, data, flag).0.Died?
    ensures Grows(s, StoreStep(s, key, data, flag).1)
    ensures Exact(s) ==> Exact(StoreStep(s, key, data, flag).1)
    ensures !Overflows(s, key, data, flag)
  {
    var d := StoreStepBigger(s, key, data, flag, o);
    DeleteStepGrows(s, key);
    FoundIffPresent(d, key);
    hide *;
    PutGrows(d, key, data, s.slots[o].area, s.slots[o].size);
    GrowsOn(s, d, StoreStep(s, key, data, flag).1);
  }

  lemma StoreOverGrows(s: State, key: string, data: Bytes, flag: nat, o: nat)
    requires Inv(s) && DataOk(data) && Holds(s, key, o) && !HasInsert(flag) && |data| <= s.slots[o].datlen
    ensures Grows(s, StoreStep(s, key, data, flag).1)
    ensures Exact(s) ==> (Exact(StoreStep(s, key, data, flag).1) <==> !Overflows(s, key, data, flag))
  {
    hide Inv, StoreStep, InPlaceStep, Grows, Exact, Overflows, Rewritten;
    InvShape(s);
    StoreStepOver(s, key, data, flag, o);
    InPlaceGrows(s, key, o, data);
  }

  lemma StoreAbsentGrows(s: State, key: string, data: Bytes, flag: nat)
    requires Inv(s) && KeyOk(key) && DataOk(data) && key !in Contents(s) && !StoreStep(s, key, data, flag).0.Died?
    ensures Grows(s, StoreStep(s, key, data, flag).1)
    ensures Exact(s) ==> Exact(StoreStep(s, key, data, flag).1)
    ensures !Overflows(s, key, data, flag)
  {
    StoreStepAbsent(s, key, data, flag);
    FoundIffPresent(s, key);
    GrowsSelf(s);
    hide *;
    if !HasReplace(flag) {
      PutGrows(s, key, data, 0, 0);
    }
  }

  /** No store moves or resizes a record, and live records stay on their chains exactly as long as no record
      outgrows its slot in place. */
  lemma StoreGrows(s: State, key: string, data: Bytes, flag: nat)
    requires Inv(s) && KeyOk(key) && !StoreStep(s, key, data, flag).0.Died?
    ensures Grows(s, StoreStep(s, key, data, flag).1)
    ensures |s.lists| >= 2
    ensures Exact(s) ==> (Exact(StoreStep(s, key, data, flag).1) <==> !Overflows(s, key, data, flag))
  {
    assert |s.lists| >= 2;
    assert key in Contents(s) ==> exists o :: Holds(s, key, o);
    GrowsSelf(s);
    hide *;
    if !DataOk(data) {
      StoreTooLong(s, key, data, flag);
    } else if key !in Contents(s) {
      StoreAbsentGrows(s, key, data, flag);
    } else if HasInsert(flag) {
      StorePresentInsert(s, key, data, flag);
    } else {
      var o := RecordOf(s, key);
      if |data| > s.slots[o].datlen {
        StoreBiggerGrows(s, key, data, flag, o);
      } else {
        StoreOverGrows(s, key, data, flag, o);
      }
    }
  }

  // ---------------------------------------------------------------- sequential scan

  /** The live records a scan from boundary off visits, in order: what repeated db_nextrec calls return. */
  ghost function Scan(s: State, off: nat): seq<nat>
    requires Laid(s.slots, |s.lists|, s.idxLen)
    decreases if off <= s.idxLen then s.idxLen - off else 0
  {
    if off !in s.slots then []
    else (if s.slots[off].free then [] else [off]) + Scan(s, End(off, s.slots[off]))
  }

  lemma {:induction false} ScanVisits(s: State, off: nat)
    requires Laid(s.slots, |s.lists|, s.idxLen) && Contiguous(s) && Boundary(s, off)
    ensures forall o :: o in Scan(s, off) <==> o in s.slots && off <= o && !s.slots[o].free
    ensures NoDup(Scan(s, off))
    decreases if off <= s.idxLen then s.idxLen - off else 0
  {
    if off in s.slots {
      var next := End(off, s.slots[off]);
      assert EndsAtBoundary(s, off);
      ScanVisits(s, next);
      assert forall o :: o in s.slots && off < o ==> next <= o;
      var rest := Scan(s, next);
      if s.slots[off].free {
        assert Scan(s, off) == rest;
      } else {
        assert Scan(s, off) == [off] + rest;
        PushMembers(rest, off);
      }
    }
  }

  /** A full scan meets every key of the map, and meets it once: it visits exactly the live records, no record
      twice, no two records of one key, and each key's record holds the key's bytes. */
  lemma ScanIsContents(s: State)
    requires Inv(s) && Exact(s)
    ensures NoDup(Scan(s, Start(|s.lists|))) && OneEach(s)
    ensures forall o :: o in Scan(s, Start(|s.lists|)) <==> IsLive(s, o)
    ensures forall k :: k in Contents(s) <==> exists o :: Holds(s, k, o) && o in Scan(s, Start(|s.lists|))
    ensures forall k, o :: Holds(s, k, o) ==> k in Contents(s) && Contents(s)[k] == DataOf(s, o)
  {
    var sc := Scan(s, Start(|s.lists|));
    ScanVisits(s, Start(|s.lists|));
    InvOneEach(s);
    LiveIsExact(s);
    hide Inv, Exact, Laid, Contiguous, Scan, ListsOk, Owned, KeysOk, SlotsOk;
    forall k, o | Holds(s, k, o) ensures k in Contents(s) && Contents(s)[k] == DataOf(s, o) {
      ContentsAt(s, k, o);
    }
    forall k | k in Contents(s) ensures exists o :: Holds(s, k, o) && o in sc {
      var o := RecordOf(s, k);
      assert Holds(s, k, o) && o in sc;
    }
  }

  lemma LiveIsExact(s: State)
    requires Inv(s) && Exact(s)
    ensures forall o :: IsLive(s, o) <==> o in s.slots && Start(|s.lists|) <= o && !s.slots[o].free
  {
    forall o ensures IsLive(s, o) <==> o in s.slots && Start(|s.lists|) <= o && !s.slots[o].free {
      if o in s.slots && !s.slots[o].free { assert OnList(s, o); }
    }
  }

  /** Key and data of each record of a list of record positions. */
  ghost function Pairs(s: State, q: seq<nat>): seq<(string, Bytes)> {
    if q == [] then []
    else [(if q[0] in s.slots then s.slots[q[0]].key else "", DataOf(s, q[0]))] + Pairs(s, q[1..])
  }

  /** The list has each key of the map once, with its bytes, and nothing else. */
  ghost predicate ListsMap(recs: seq<(string, Bytes)>, m: map<string, Bytes>) {
    && (forall i :: 0 <= i < |recs| ==> recs[i].0 in m && m[recs[i].0] == recs[i].1)
    && (forall k :: k in m ==> exists i :: 0 <= i < |recs| && recs[i].0 == k)
    && (forall i, j :: 0 <= i < j < |recs| ==> recs[i].0 != recs[j].0)
  }

  lemma {:induction false} PairsAt(s: State, q: seq<nat>)
    ensures |Pairs(s, q)| == |q|
    ensures forall i :: 0 <= i < |q| ==>
              Pairs(s, q)[i] == (if q[i] in s.slots then s.slots[q[i]].key else "", DataOf(s, q[i]))
    decreases |q|
  {
    hide DataOf;
    if q != [] { PairsAt(s, q[1..]); }
  }

  lemma {:induction false} NoDupAt(q: seq<nat>, i: nat, j: nat)
    requires NoDup(q) && i < j < |q|
    ensures q[i] != q[j]
    decreases |q|
  {
    if i == 0 { assert q[j] == q[1..][j - 1]; } else { NoDupAt(q[1..], i - 1, j - 1); }
  }

  /** The records of a full scan, key and data, are the map. */
  lemma ScanListsMap(s: State)
    requires Inv(s) && Exact(s)
    ensures ListsMap(Pairs(s, Scan(s, Start(|s.lists|))), Contents(s))
  {
    assert |s.lists| >= 2 && Laid(s.slots, |s.lists|, s.idxLen);
    hide *;
    var sc := Scan(s, Start(|s.lists|));
    var recs := Pairs(s, sc);
    var m := Contents(s);
    ScanIsContents(s);
    PairsAt(s, sc);
    forall i | 0 <= i < |recs| ensures recs[i].0 in m && m[recs[i].0] == recs[i].1 {
      assert sc[i] in sc;
      LiveHolds(s, sc[i]);
    }
    PairsDistinct(s, sc);
    forall k | k in m ensures exists i :: 0 <= i < |recs| && recs[i].0 == k {
      var o :| Holds(s, k, o) && o in sc;
      HoldsKey(s, k, o);
      var i :| 0 <= i < |sc| && sc[i] == o;
      assert recs[i].0 == k;
    }
    ListsMapIs(recs, m);
  }

  lemma PairsDistinct(s: State, q: seq<nat>)
    requires |s.lists| >= 2 && OneEach(s) && NoDup(q) && forall o :: o in q ==> IsLive(s, o)
    ensures |Pairs(s, q)| == |q|
    ensures forall i, j :: 0 <= i < j < |q| ==> Pairs(s, q)[i].0 != Pairs(s, q)[j].0
  {
    hide *;
    PairsAt(s, q);
    forall i, j | 0 <= i < j < |q| ensures Pairs(s, q)[i].0 != Pairs(s, q)[j].0 {
      assert q[i] in q && q[j] in q;
      NoDupAt(q, i, j);
      LiveHolds(s, q[i]);
      LiveHolds(s, q[j]);
      OneEachAt(s, s.slots[q[i]].key, q[i], q[j]);
    }
  }

  lemma LiveHolds(s: State, o: nat)
    requires |s.lists| >= 2 && IsLive(s, o)
    ensures o in s.slots && Holds(s, s.slots[o].key, o)
  {
  }

  lemma HoldsKey(s: State, k: string, o: nat)
    requires |s.lists| >= 2 && Holds(s, k, o)
    ensures o in s.slots && s.slots[o].key == k
  {
  }

  lemma OneEachAt(s: State, k: string, o: nat, q: nat)
    requires |s.lists| >= 2 && OneEach(s) && Holds(s, k, o) && o != q
    ensures !Holds(s, k, q)
  {
  }

  lemma ListsMapIs(recs: seq<(string, Bytes)>, m: map<string, Bytes>)
    requires forall i :: 0 <= i < |recs| ==> recs[i].0 in m && m[recs[i].0] == recs[i].1
    requires forall k :: k in m ==> exists i :: 0 <= i < |recs| && recs[i].0 == k
    requires forall i, j :: 0 <= i < j < |recs| ==> recs[i].0 != recs[j].0
    ensures ListsMap(recs, m)
  {
  }

  // ---------------------------------------------------------------- saved positions

  /** A record position, however old, holds a key that is not all blanks only if it is the very record the
      chain walk for that key finds. */
  lemma HintAgrees(s: State, key: string, pos: nat)
    requires Inv(s) && Exact(s) && pos in s.slots && s.slots[pos].key == key && !AllBlank(key)
    ensures var q := s.lists[ChainOf(s, key)];
            var a := FindKey(s.slots, q, key);
            a < |q| && q[a] == pos
  {
    hide KeysOk, Owned, Laid, Contiguous, NoDup, Hash;
    assert OnList(s, pos) && Holds(s, key, pos);
    FindKeyFinds(s, key);
    var q := s.lists[ChainOf(s, key)];
    HoldsOnce(s, key, pos, q[FindKey(s.slots, q, key)]);
  }

  // ---------------------------------------------------------------- the data file

  /** Every byte of the data file lies in the extent of exactly one linked record. */
  lemma DataTiled(s: State, p: nat) returns (o: nat)
    requires Inv(s) && p < |s.dat|
    ensures OnList(s, o) && InExtent(s.slots[o], p)
    ensures forall q :: OnList(s, q) && InExtent(s.slots[q], p) ==> q == o
    ensures |s.dat| <= DATA_FILELEN_MAX
  {
    o := s.owner[p];
    assert OnList(s, o);
    assert s.owner[p] == o <==> InExtent(s.slots[o], p);
    forall q | OnList(s, q) && InExtent(s.slots[q], p) ensures q == o {
      assert s.owner[p] == q <==> InExtent(s.slots[q], p);
    }
  }
}
