/**
 * db_store, db_delete and db_fetch as functions of the state, and what they mean for the finite map the
 * database stands for.
 */
module HashDbOps {
  import opened CText
  import opened Machine
  import opened IndexRecord
  import opened IndexFile
  import opened HashDbSpec
  import opened HashDbInv

  // ---------------------------------------------------------------- the map

  predicate IsLive(s: State, o: nat)
    requires |s.lists| >= 2
  {
    o in s.slots && !s.slots[o].free && o in s.lists[HomeOf(s.slots[o], |s.lists|)]
  }

  /** o is the live record of key */
  predicate Holds(s: State, key: string, o: nat)
    requires |s.lists| >= 2
  {
    IsLive(s, o) && s.slots[o].key == key
  }

  /** The bytes a record's used length covers. */
  function DataOf(s: State, o: nat): Bytes {
    if o in s.slots && s.slots[o].datoff + s.slots[o].used <= |s.dat|
    then s.dat[s.slots[o].datoff..s.slots[o].datoff + s.slots[o].used]
    else []
  }

  ghost function RecordOf(s: State, key: string): (o: nat)
    requires |s.lists| >= 2 && exists o :: Holds(s, key, o)
    ensures Holds(s, key, o)
  {
    var o :| Holds(s, key, o); o
  }

  ghost function Keys(s: State): set<string>
    requires |s.lists| >= 2
    ensures forall k :: k in Keys(s) <==> exists o :: Holds(s, k, o)
  {
    var live := set o | o in s.slots && IsLive(s, o);
    var keys := set o | o in live :: s.slots[o].key;
    assert forall k, o :: Holds(s, k, o) ==> o in live && k in keys;
    assert forall k :: k in keys ==> exists o :: o in live && Holds(s, k, o);
    keys
  }

  /** The finite map the database stands for: the used bytes of each live record, by key. */
  ghost function Contents(s: State): (m: map<string, Bytes>)
    requires |s.lists| >= 2
    ensures m.Keys == Keys(s)
  {
    map k | k in Keys(s) :: DataOf(s, RecordOf(s, k))
  }

  /** Two live records never carry the same key. */
  lemma HoldsOnce(s: State, key: string, o: nat, q: nat)
    requires Inv(s) && Holds(s, key, o) && Holds(s, key, q)
    ensures o == q
  {
  }

  ghost predicate OneEach(s: State)
    requires |s.lists| >= 2
  {
    forall k, o, q :: Holds(s, k, o) && Holds(s, k, q) ==> o == q
  }

  lemma InvOneEach(s: State)
    requires Inv(s)
    ensures OneEach(s)
  {
    forall k, o, q | Holds(s, k, o) && Holds(s, k, q) ensures o == q {
      HoldsOnce(s, k, o, q);
    }
  }

  lemma ContentsAt(s: State, key: string, o: nat)
    requires |s.lists| >= 2 && OneEach(s) && Holds(s, key, o)
    ensures key in Contents(s) && Contents(s)[key] == DataOf(s, o)
  {
  }

  /** Searching a chain finds a key exactly when some live record carries it. */
  lemma FindKeyFinds(s: State, key: string)
    requires ListsOk(s)
    ensures var q := s.lists[ChainOf(s, key)];
            var a := FindKey(s.slots, q, key);
            && (a < |q| ==> Holds(s, key, q[a]))
            && (a == |q| ==> Absent(s, key) && forall o :: !Holds(s, key, o))
  {
    var q := s.lists[ChainOf(s, key)];
    var a := FindKey(s.slots, q, key);
    if a < |q| {
      assert q[a] in q;
    } else {
      forall o | o in q ensures s.slots[o].key != key {
        var b :| 0 <= b < |q| && q[b] == o;
      }
      forall o ensures !Holds(s, key, o) {
        assert Holds(s, key, o) ==> o in q;
      }
    }
  }

  /** The chain walk of _db_find finds exactly the keys of the map, and reads their bytes. */
  lemma FoundIffPresent(s: State, key: string)
    requires Inv(s)
    ensures var q := s.lists[ChainOf(s, key)];
            var a := FindKey(s.slots, q, key);
            && (a < |q| <==> key in Contents(s))
            && (a < |q| ==> Holds(s, key, q[a]) && Contents(s)[key] == DataOf(s, q[a]))
            && (a == |q| <==> Absent(s, key))
  {
    FindKeyFinds(s, key);
    var q := s.lists[ChainOf(s, key)];
    var a := FindKey(s.slots, q, key);
    if a < |q| {
      InvOneEach(s);
      ContentsAt(s, key, q[a]);
      assert q[a] in q;
    }
  }

  /** A live record of the key is the one the chain walk finds. */
  lemma HintFound(s: State, key: string, hint: nat)
    requires Inv(s) && Holds(s, key, hint)
    ensures var q := s.lists[ChainOf(s, key)];
            var a := FindKey(s.slots, q, key);
            a < |q| && q[a] == hint
  {
    FindKeyFinds(s, key);
    var q := s.lists[ChainOf(s, key)];
    HoldsOnce(s, key, hint, q[FindKey(s.slots, q, key)]);
  }

  /** db_fetch: the used bytes of the key's record. */
  function FetchStep(s: State, key: string): Option<Bytes>
    requires Inv(s)
  {
    var q := s.lists[ChainOf(s, key)];
    var a := FindKey(s.slots, q, key);
    if a == |q| then None else Some(DataOf(s, q[a]))
  }

  /** db_fetch returns the mapped bytes. */
  lemma FetchMeans(s: State, key: string)
    requires Inv(s)
    ensures FetchStep(s, key) == if key in Contents(s) then Some(Contents(s)[key]) else None
  {
    FoundIffPresent(s, key);
  }

  // ---------------------------------------------------------------- how a step changes the map

  /** Live records of other keys are the same records with the same bytes. */
  ghost predicate OthersKept(s: State, t: State, key: string)
    requires |s.lists| >= 2 && |t.lists| >= 2
  {
    && (forall k, x :: k != key ==> (Holds(s, k, x) <==> Holds(t, k, x)))
    && (forall k, x :: k != key && Holds(t, k, x) ==> DataOf(s, x) == DataOf(t, x))
  }

  lemma OtherKey(s: State, t: State, key: string, k: string)
    requires |s.lists| >= 2 && |t.lists| >= 2 && OneEach(s) && OneEach(t)
    requires OthersKept(s, t, key) && k != key
    ensures k in Contents(s) <==> k in Contents(t)
    ensures k in Contents(s) ==> Contents(s)[k] == Contents(t)[k]
  {
    if k in Contents(s) {
      var o := RecordOf(s, k);
      ContentsAt(s, k, o);
      ContentsAt(t, k, o);
    }
    if k in Contents(t) {
      var o := RecordOf(t, k);
      assert Holds(s, k, o);
    }
  }

  lemma OtherKeys(s: State, t: State, key: string)
    requires |s.lists| >= 2 && |t.lists| >= 2 && OneEach(s) && OneEach(t)
    requires OthersKept(s, t, key)
    ensures Contents(t) - {key} == Contents(s) - {key}
  {
    forall k | k != key
      ensures k in Contents(s) <==> k in Contents(t)
      ensures k in Contents(s) ==> Contents(s)[k] == Contents(t)[k]
    {
      OtherKey(s, t, key, k);
    }
  }

  lemma MapPut(s: State, t: State, key: string, o: nat)
    requires Inv(s) && Inv(t) && OthersKept(s, t, key) && Holds(t, key, o)
    ensures Contents(t) == Contents(s)[key := DataOf(t, o)]
  {
    InvOneEach(s);
    InvOneEach(t);
    OtherKeys(s, t, key);
    ContentsAt(t, key, o);
    SamePut(Contents(s), Contents(t), key);
  }

  lemma MapRemove(s: State, t: State, key: string)
    requires Inv(s) && Inv(t) && OthersKept(s, t, key) && forall o :: !Holds(t, key, o)
    ensures Contents(t) == Contents(s) - {key}
  {
    InvOneEach(s);
    InvOneEach(t);
    OtherKeys(s, t, key);
    assert key !in Contents(t);
    hide Inv, Contents, OthersKept;
    RemoveAbsent(Contents(t), key);
  }

  lemma SamePut(m: map<string, Bytes>, n: map<string, Bytes>, key: string)
    requires n - {key} == m - {key} && key in n
    ensures n == m[key := n[key]]
  {
    forall k | k in n && k != key ensures k in m && m[k] == n[k] {
      assert k in n - {key};
      assert (n - {key})[k] == n[k] && (m - {key})[k] == m[k];
    }
    forall k | k in m && k != key ensures k in n {
      assert k in m - {key};
    }
  }

  lemma PutAfterRemove(m: map<string, Bytes>, key: string, data: Bytes)
    ensures (m - {key})[key := data] == m[key := data]
  {
  }

  lemma RemoveAbsent(m: map<string, Bytes>, key: string)
    requires key !in m
    ensures m - {key} == m
  {
  }

  /** Overwriting inside one linked record's extent leaves every other linked record's bytes alone. */
  lemma ExtentsApart(s: State, o: nat, x: nat, data: Bytes)
    requires ListsOk(s) && Owned(s) && SlotsOk(s)
    requires OnList(s, o) && OnList(s, x) && x != o && |data| <= s.slots[o].datlen
    ensures s.slots[o].datoff + |data| <= |s.dat|
    ensures s.slots[x].datoff + s.slots[x].used <= |s.dat|
    ensures Overwritten(s.dat, s.slots[o].datoff, data)[s.slots[x].datoff..s.slots[x].datoff + s.slots[x].used]
            == s.dat[s.slots[x].datoff..s.slots[x].datoff + s.slots[x].used]
  {
    var d := Overwritten(s.dat, s.slots[o].datoff, data);
    var lo, hi := s.slots[x].datoff, s.slots[x].datoff + s.slots[x].used;
    assert Printable(s.slots[x]);
    forall p | lo <= p < hi ensures d[p] == s.dat[p] {
      assert s.owner[p] == x <==> InExtent(s.slots[x], p);
      assert s.owner[p] == o <==> InExtent(s.slots[o], p);
    }
  }

  // ---------------------------------------------------------------- deletion

  lemma DeleteRemoves(s: State, key: string, i: nat, a: nat)
    requires Inv(s) && i == ChainOf(s, key) && a < |s.lists[i]| && Holds(s, key, s.lists[i][a])
    ensures Inv(DeleteAt(s, i, a)) && Contents(DeleteAt(s, i, a)) == Contents(s) - {key}
  {
    var t := DeleteAt(s, i, a);
    DeleteKeepsInv(s, i, a);
    InvOneEach(s);
    DeleteOthers(s, key, i, a);
    MapRemove(s, t, key);
  }

  lemma DeleteOthers(s: State, key: string, i: nat, a: nat)
    requires ListsOk(s) && OneEach(s) && 1 <= i < |s.lists| && a < |s.lists[i]| && Holds(s, key, s.lists[i][a])
    requires forall x :: OnList(DeleteAt(s, i, a), x) <==> OnList(s, x)
    ensures OthersKept(s, DeleteAt(s, i, a), key)
    ensures forall x :: !Holds(DeleteAt(s, i, a), key, x)
  {
    var t := DeleteAt(s, i, a);
    var o := s.lists[i][a];
    forall k, x | k != key ensures Holds(s, k, x) <==> Holds(t, k, x) {
      assert OnList(t, x) <==> OnList(s, x);
    }
    forall x ensures !Holds(t, key, x) {
      assert OnList(t, x) <==> OnList(s, x);
      if x != o && Holds(t, key, x) { assert Holds(s, key, x); }
    }
  }

  lemma DeletePresent(s: State, key: string) returns (t: State)
    requires Inv(s) && key in Contents(s)
    ensures DeleteStep(s, key) == (0, t)
    ensures Contents(t) == Contents(s) - {key}
    ensures Inv(t)
  {
    FoundIffPresent(s, key);
    var i := ChainOf(s, key);
    var a := FindKey(s.slots, s.lists[i], key);
    DeleteRemoves(s, key, i, a);
    t := DeleteAt(s, i, a);
  }

  lemma DeleteAbsent(s: State, key: string)
    requires Inv(s) && key !in Contents(s)
    ensures DeleteStep(s, key) == (-1, s) && Contents(s) - {key} == Contents(s)
  {
    FoundIffPresent(s, key);
    RemoveAbsent(Contents(s), key);
  }

  /** db_delete removes exactly its key, and reports whether it was there. */
  lemma DeleteMeans(s: State, key: string)
    requires Inv(s)
    ensures Contents(DeleteStep(s, key).1) == Contents(s) - {key}
    ensures DeleteStep(s, key).0 == if key in Contents(s) then 0 else -1
    ensures key !in Contents(s) ==> DeleteStep(s, key).1 == s
    ensures Inv(DeleteStep(s, key).1)
  {
    if key in Contents(s) {
      var t := DeletePresent(s, key);
    } else {
      DeleteAbsent(s, key);
    }
  }

  // ---------------------------------------------------------------- appending and reusing

  lemma AppendMeans(s: State, key: string, data: Bytes, width: nat, minSize: nat)
    requires Inv(s) && KeyOk(key) && DataOk(data) && width <= KEY_MAX && minSize <= IDXLEN_MAX
    requires Absent(s, key) && EnoughSpace(s, |key|, |data|)
    ensures Contents(AppendStep(s, key, data, width, minSize)) == Contents(s)[key := data]
    ensures Inv(AppendStep(s, key, data, width, minSize))
  {
    var t := AppendStep(s, key, data, width, minSize);
    AppendKeepsInv(s, key, data, width, minSize);
    AppendOthers(s, key, data, width, minSize);
    MapPut(s, t, key, s.idxLen);
  }

  lemma AppendOthers(s: State, key: string, data: Bytes, width: nat, minSize: nat)
    requires ListsOk(s) && s.idxLen !in s.slots && Absent(s, key)
    requires ListsOk(AppendStep(s, key, data, width, minSize))
    requires forall o :: OnList(s, o) ==> s.slots[o].datoff + s.slots[o].used <= |s.dat|
    ensures var t := AppendStep(s, key, data, width, minSize);
            OthersKept(s, t, key) && Holds(t, key, s.idxLen) && DataOf(t, s.idxLen) == data
  {
    var t := AppendStep(s, key, data, width, minSize);
    var i := ChainOf(s, key);
    forall k, x | k != key
      ensures Holds(s, k, x) <==> Holds(t, k, x)
      ensures Holds(t, k, x) ==> DataOf(s, x) == DataOf(t, x)
    {
      if x in s.slots {
        assert x in t.lists[HomeOf(s.slots[x], |s.lists|)] <==> x in s.lists[HomeOf(s.slots[x], |s.lists|)];
        if Holds(s, k, x) { assert OnList(s, x); }
      }
    }
  }

  /** The extents of linked records lie inside the data file. */
  lemma ExtentInside(s: State, o: nat)
    requires Inv(s) && OnList(s, o)
    ensures Printable(s.slots[o]) && s.slots[o].datoff + s.slots[o].datlen <= |s.dat|
  {
  }

  /** Conditions under which the a-th free record is handed to key. */
  ghost predicate Reusable(s: State, key: string, data: Bytes, a: nat) {
    && Inv(s) && KeyOk(key) && Absent(s, key) && a < |s.lists[0]| && OnList(s, s.lists[0][a])
    && Fits(s.slots[s.lists[0][a]].area, s.slots[s.lists[0][a]].datlen, |key|, |data|)
    && s.slots[s.lists[0][a]].datoff + |data| <= |s.dat|
  }

  /** t is s with free record o rewritten, at n, as the live record of key, and data put in its extent. */
  ghost predicate HandedOver(s: State, t: State, key: string, data: Bytes, o: nat, n: nat) {
    && |s.lists| >= 2 && |t.lists| == |s.lists|
    && OnList(s, o) && s.slots[o].free && |data| <= s.slots[o].datlen && s.slots[o].datoff + |data| <= |s.dat|
    && (forall x :: OnList(t, x) <==> x == n || (OnList(s, x) && x != o))
    && n in t.slots && t.slots == s.slots[n := t.slots[n]] && (n == o || n !in s.slots)
    && Holds(t, key, n) && t.slots[n].used == |data| && t.slots[n].datoff == s.slots[o].datoff
    && t.dat == Overwritten(s.dat, s.slots[o].datoff, data)
  }

  lemma HandedOverOther(s: State, t: State, key: string, data: Bytes, o: nat, n: nat, k: string, x: nat)
    requires ListsOk(s) && Owned(s) && SlotsOk(s) && HandedOver(s, t, key, data, o, n) && k != key
    ensures Holds(s, k, x) <==> Holds(t, k, x)
    ensures Holds(t, k, x) ==> DataOf(s, x) == DataOf(t, x)
  {
    assert OnList(t, x) <==> x == n || (OnList(s, x) && x != o);
    if Holds(s, k, x) {
      ExtentsApart(s, o, x, data);
    }
  }

  lemma HandedOverMeans(s: State, t: State, key: string, data: Bytes, o: nat, n: nat)
    requires Inv(s) && HandedOver(s, t, key, data, o, n) && Inv(t)
    ensures Contents(t) == Contents(s)[key := data]
  {
    forall k, x | k != key
      ensures Holds(s, k, x) <==> Holds(t, k, x)
      ensures Holds(t, k, x) ==> DataOf(s, x) == DataOf(t, x)
    {
      HandedOverOther(s, t, key, data, o, n, k, x);
    }
    assert DataOf(t, n) == data;
    MapPut(s, t, key, n);
  }

  lemma ReuseInSlotMeans(s: State, key: string, data: Bytes, a: nat)
    requires Reusable(s, key, data, a) && !Outgrows(Reused(s, key, data, a))
    ensures Contents(ReuseStep(s, key, data, a)) == Contents(s)[key := data]
    ensures Inv(ReuseStep(s, key, data, a))
  {
    var t := ReuseStep(s, key, data, a);
    var o := s.lists[0][a];
    ReuseInSlotKeepsInv(s, key, data, a);
    assert Holds(t, key, o) by { assert OnList(t, o); }
    HandedOverMeans(s, t, key, data, o, o);
  }

  lemma ReuseMovingMeans(s: State, key: string, data: Bytes, a: nat)
    requires Reusable(s, key, data, a) && Outgrows(Reused(s, key, data, a)) && s.idxLen <= PTR_MAX
    ensures Contents(ReuseStep(s, key, data, a)) == Contents(s)[key := data]
    ensures Inv(ReuseStep(s, key, data, a))
  {
    var t := ReuseStep(s, key, data, a);
    var o := s.lists[0][a];
    ReuseMovingKeepsInv(s, key, data, a);
    NotYetASlot(s);
    assert Holds(t, key, s.idxLen) by { assert OnList(t, s.idxLen); }
    HandedOverMeans(s, t, key, data, o, s.idxLen);
  }

  lemma NotYetASlot(s: State)
    requires Inv(s)
    ensures s.idxLen !in s.slots
  {
  }

  // ---------------------------------------------------------------- overwriting in place

  /** t is s with data laid over the start of the extent of key's live record o. */
  ghost predicate Overlaid(s: State, t: State, key: string, data: Bytes, o: nat) {
    && |s.lists| >= 2 && |t.lists| == |s.lists|
    && Holds(s, key, o) && |data| <= s.slots[o].datlen && s.slots[o].datoff + |data| <= |s.dat|
    && t.dat == Overwritten(s.dat, s.slots[o].datoff, data)
    && (forall x :: OnList(t, x) <==> OnList(s, x))
    && (forall x :: x in s.slots && x != o ==> x in t.slots && t.slots[x] == s.slots[x])
    && o in t.slots && t.slots[o].key == key && !t.slots[o].free
  }

  lemma OverlaidOther(s: State, t: State, key: string, data: Bytes, o: nat, k: string, x: nat)
    requires ListsOk(s) && Owned(s) && SlotsOk(s) && Overlaid(s, t, key, data, o) && k != key
    ensures Holds(s, k, x) <==> Holds(t, k, x)
    ensures Holds(t, k, x) ==> DataOf(s, x) == DataOf(t, x)
  {
    assert OnList(t, x) <==> OnList(s, x);
    if Holds(s, k, x) {
      ExtentsApart(s, o, x, data);
    }
  }

  lemma OverlaidMeans(s: State, t: State, key: string, data: Bytes, o: nat)
    requires Inv(s) && Overlaid(s, t, key, data, o) && Inv(t)
    ensures Contents(t) == Contents(s)[key := DataOf(t, o)]
  {
    forall k, x | k != key
      ensures Holds(s, k, x) <==> Holds(t, k, x)
      ensures Holds(t, k, x) ==> DataOf(s, x) == DataOf(t, x)
    {
      OverlaidOther(s, t, key, data, o, k, x);
    }
    assert OnList(t, o) <==> OnList(s, o);
    MapPut(s, t, key, o);
  }

  /** The record the in-place path prints. */
  function Rewritten(s: State, o: nat, data: Bytes): Slot
    requires o in s.slots
  {
    s.slots[o].(used := |data|)
  }

  lemma InPlaceOverlays(s: State, key: string, o: nat, data: Bytes)
    requires |s.lists| >= 2 && Holds(s, key, o) && |data| <= s.slots[o].datlen && s.slots[o].datoff + |data| <= |s.dat|
    requires s.idxLen !in s.slots
    requires forall x :: OnList(InPlaceStep(s, o, data), x) <==> OnList(s, x)
    ensures Overlaid(s, InPlaceStep(s, o, data), key, data, o)
  {
  }

  lemma InPlacePut(s: State, key: string, o: nat, data: Bytes)
    requires Inv(s) && Holds(s, key, o) && |data| <= s.slots[o].datlen && s.slots[o].datoff + |data| <= |s.dat|
    ensures |InPlaceStep(s, o, data).lists| >= 2
    ensures Contents(InPlaceStep(s, o, data)) == Contents(s)[key := DataOf(InPlaceStep(s, o, data), o)]
    ensures Inv(InPlaceStep(s, o, data))
  {
    assert OnList(s, o);
    InPlaceKeepsInv(s, o, data);
    NotYetASlot(s);
    InPlaceOverlays(s, key, o, data);
    OverlaidMeans(s, InPlaceStep(s, o, data), key, data, o);
  }

  /** What the in-place path leaves under the key: the new bytes, or, when the new text outgrows the slot,
      as many of them as the old record's length still announces. */
  lemma InPlaceMeans(s: State, key: string, o: nat, data: Bytes)
    requires Inv(s) && Holds(s, key, o) && |data| <= s.slots[o].datlen && s.slots[o].datoff + |data| <= |s.dat|
    ensures Outgrows(Rewritten(s, o, data)) ==> s.slots[o].used < |data|
    ensures var kept := if Outgrows(Rewritten(s, o, data)) then data[..s.slots[o].used] else data;
            |InPlaceStep(s, o, data).lists| >= 2 && Contents(InPlaceStep(s, o, data)) == Contents(s)[key := kept]
  {
    if Outgrows(Rewritten(s, o, data)) {
      OutgrowsMeansLonger(s.slots[o], |data|);
    }
    NotYetASlot(s);
    InPlaceData(s, o, data);
    InPlacePut(s, key, o, data);
  }

  /** Only a longer used length can make the text of the same record longer. */
  lemma OutgrowsMeansLonger(r: Slot, n: nat)
    requires TextLen(r) <= r.size && Outgrows(r.(used := n))
    ensures r.used < n
  {
    if n <= r.used { NumLenMonotone(n, r.used); }
  }

  lemma InPlaceData(s: State, o: nat, data: Bytes)
    requires o in s.slots && s.slots[o].datoff + |data| <= |s.dat| && s.idxLen !in s.slots
    requires Outgrows(Rewritten(s, o, data)) ==> s.slots[o].used < |data|
    ensures DataOf(InPlaceStep(s, o, data), o) ==
            if Outgrows(Rewritten(s, o, data)) then data[..s.slots[o].used] else data
  {
  }

  /** The in-place path updates the map exactly when the new text fits the slot. */
  lemma InPlaceIff(s: State, key: string, o: nat, data: Bytes)
    requires Inv(s) && Holds(s, key, o) && |data| <= s.slots[o].datlen && s.slots[o].datoff + |data| <= |s.dat|
    ensures |InPlaceStep(s, o, data).lists| >= 2
    ensures Contents(InPlaceStep(s, o, data)) == Contents(s)[key := data] <==> !Outgrows(Rewritten(s, o, data))
  {
    InPlaceMeans(s, key, o, data);
    if Outgrows(Rewritten(s, o, data)) {
      assert Contents(s)[key := data][key] != Contents(s)[key := data[..s.slots[o].used]][key];
    }
  }

  // ---------------------------------------------------------------- db_store

  /** Store a key that is not present: first fit on the free list, else append. width and minSize are the
      key column and slot length the caller's record buffer still carries (zero for a fresh one). */
  function PutStep(s: State, key: string, data: Bytes, width: nat, minSize: nat): (r: (Outcome, State))
    requires Inv(s)
    ensures |r.1.lists| == |s.lists|
  {
    var a := FirstFit(s.slots, s.lists[0], |key|, |data|);
    if a < |s.lists[0]| then
      FreeExtentInside(s, a);
      var moves := Outgrows(Reused(s, key, data, a));
      if moves && s.idxLen > PTR_MAX then (Died, s)
      else (Returned(0, if moves then s.idxLen else s.lists[0][a]), ReuseStep(s, key, data, a))
    else if !EnoughSpace(s, |key|, |data|) then (Returned(2, 0), s)
    else (Returned(0, s.idxLen), AppendStep(s, key, data, width, minSize))
  }

  lemma FreeExtentInside(s: State, a: nat)
    requires Inv(s) && a < |s.lists[0]|
    ensures OnList(s, s.lists[0][a])
    ensures s.slots[s.lists[0][a]].datoff + s.slots[s.lists[0][a]].datlen <= |s.dat|
  {
    OnlyHome(s, 0, s.lists[0][a]);
    ExtentInside(s, s.lists[0][a]);
  }

  lemma ChainExtentInside(s: State, i: nat, a: nat)
    requires Inv(s) && i < |s.lists| && a < |s.lists[i]|
    ensures OnList(s, s.lists[i][a])
    ensures Printable(s.slots[s.lists[i][a]])
    ensures s.slots[s.lists[i][a]].datoff + s.slots[s.lists[i][a]].datlen <= |s.dat|
  {
    OnlyHome(s, i, s.lists[i][a]);
    ExtentInside(s, s.lists[i][a]);
  }

  /** Store under the key of the a-th record of chain i: in place, or delete and store afresh. */
  function ReplaceStep(s: State, key: string, data: Bytes, i: nat, a: nat): (r: (Outcome, State))
    requires Inv(s) && 1 <= i < |s.lists| && a < |s.lists[i]|
    ensures |r.1.lists| == |s.lists|
  {
    ChainExtentInside(s, i, a);
    var o := s.lists[i][a];
    if |data| > s.slots[o].datlen then
      DeleteKeepsInv(s, i, a);
      PutStep(DeleteAt(s, i, a), key, data, s.slots[o].area, s.slots[o].size)
    else (Returned(0, if Outgrows(Rewritten(s, o, data)) then s.idxLen else o), InPlaceStep(s, o, data))
  }

  /** db_store. */
  function StoreStep(s: State, key: string, data: Bytes, flag: nat): (r: (Outcome, State))
    requires Inv(s)
    ensures |r.1.lists| == |s.lists|
  {
    if |data| > DATLEN_MAX then (Returned(3, 0), s)
    else
      var i := ChainOf(s, key);
      var a := FindKey(s.slots, s.lists[i], key);
      if a == |s.lists[i]| then
        if HasReplace(flag) then (Returned(-1, 0), s) else PutStep(s, key, data, 0, 0)
      else if HasInsert(flag) then (Returned(1, 0), s)
      else ReplaceStep(s, key, data, i, a)
  }

  /** db_store is about to overwrite a record in place with a text longer than its slot. */
  predicate Overflows(s: State, key: string, data: Bytes, flag: nat)
    requires Inv(s)
  {
    var i := ChainOf(s, key);
    var a := FindKey(s.slots, s.lists[i], key);
    && |data| <= DATLEN_MAX && a < |s.lists[i]| && !HasInsert(flag)
    && |data| <= s.slots[s.lists[i][a]].datlen && Outgrows(Rewritten(s, s.lists[i][a], data))
  }

  /** No free record is of the key's and the data's size, and the data or the index file cannot grow by them. */
  ghost predicate Full(s: State, keylen: nat, n: nat)
    requires |s.lists| >= 2
  {
    && (forall o :: OnList(s, o) && s.slots[o].free ==>
          !(keylen <= s.slots[o].area < keylen + 1000 && n <= s.slots[o].datlen < n + 3072))
    && (|s.dat| + n > 2_000_000_000 || s.idxLen + keylen > 999_999_999)
  }

  /** Putting a key fails for want of space exactly when the database is full for it. */
  lemma PutFull(s: State, key: string, data: Bytes, width: nat, minSize: nat)
    requires Inv(s)
    ensures PutStep(s, key, data, width, minSize).0.Returned? ==>
              PutStep(s, key, data, width, minSize).0.rc == if Full(s, |key|, |data|) then 2 else 0
  {
    InvShape(s);
    hide Inv, ReuseStep, AppendStep, Hash, Outgrows, NoDup;
    var q := s.lists[0];
    var a := FirstFit(s.slots, q, |key|, |data|);
    if a < |q| {
      OnlyHome(s, 0, q[a]);
    } else {
      forall o | OnList(s, o) && s.slots[o].free ensures !Fits(s.slots[o].area, s.slots[o].datlen, |key|, |data|) {
        assert o in q;
        var b :| 0 <= b < |q| && q[b] == o;
      }
    }
  }

  /** Freeing a record too small for the data makes no room for it. */
  lemma FullAfterDelete(s: State, i: nat, a: nat, keylen: nat, n: nat)
    requires Inv(s) && 1 <= i < |s.lists| && a < |s.lists[i]|
    requires s.lists[i][a] in s.slots && s.slots[s.lists[i][a]].datlen < n
    ensures |DeleteAt(s, i, a).lists| == |s.lists| >= 2
    ensures Full(DeleteAt(s, i, a), keylen, n) <==> Full(s, keylen, n)
  {
    hide Inv, SlotsOk, KeysOk, Owned, Laid, Contiguous, NoDup, Hash, HomeOf, RemoveAt;
    var t, o := DeleteAt(s, i, a), s.lists[i][a];
    InvShape(s);
    OnlyHome(s, i, o);
    DeleteKeepsInv(s, i, a);
  }

  lemma PutMeans(s: State, key: string, data: Bytes, width: nat, minSize: nat) returns (rc: int, t: State)
    requires Inv(s) && KeyOk(key) && DataOk(data) && width <= KEY_MAX && minSize <= IDXLEN_MAX
    requires key !in Contents(s) && !PutStep(s, key, data, width, minSize).0.Died?
    ensures t == PutStep(s, key, data, width, minSize).1 && rc == PutStep(s, key, data, width, minSize).0.rc
    ensures rc == 0 || rc == 2
    ensures |t.lists| >= 2
    ensures rc == 0 ==> Contents(t) == Contents(s)[key := data]
    ensures rc == 2 ==> t == s
    ensures Inv(t)
  {
    FoundIffPresent(s, key);
    var a := FirstFit(s.slots, s.lists[0], |key|, |data|);
    t := PutStep(s, key, data, width, minSize).1;
    rc := PutStep(s, key, data, width, minSize).0.rc;
    if a < |s.lists[0]| {
      FreeExtentInside(s, a);
      if Outgrows(Reused(s, key, data, a)) {
        ReuseMovingMeans(s, key, data, a);
      } else {
        ReuseInSlotMeans(s, key, data, a);
      }
    } else if EnoughSpace(s, |key|, |data|) {
      AppendMeans(s, key, data, width, minSize);
    }
  }
}
