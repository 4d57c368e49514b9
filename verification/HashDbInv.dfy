/**
 * Every step keeps the invariant: linked shape, hash placement, unique keys, tiling of the data file.
 */
module HashDbInv {
  import opened CText
  import opened Machine
  import opened IndexRecord
  import opened IndexFile
  import opened HashDbSpec

  // ---------------------------------------------------------------- lists

  lemma {:induction false} NoDupAt(q: seq<nat>, a: nat, b: nat)
    requires NoDup(q) && a < b < |q|
    ensures q[a] != q[b]
  {
    if a == 0 {
      assert q[b] == q[1..][b - 1];
    } else {
      NoDupAt(q[1..], a - 1, b - 1);
    }
  }

  lemma {:induction false} RemoveAtMembers(q: seq<nat>, a: nat)
    requires NoDup(q) && a < |q|
    ensures NoDup(RemoveAt(q, a))
    ensures forall x :: x in RemoveAt(q, a) <==> x in q && x != q[a]
  {
    var r := RemoveAt(q, a);
    if a == 0 {
      assert r == q[1..];
      assert q == [q[0]] + r;
    } else {
      var q' := q[1..];
      RemoveAtMembers(q', a - 1);
      assert q == [q[0]] + q' && r == [q[0]] + RemoveAt(q', a - 1);
      assert r[1..] == RemoveAt(q', a - 1);
      NoDupAt(q, 0, a);
    }
  }

  lemma PushMembers(q: seq<nat>, o: nat)
    requires NoDup(q) && o !in q
    ensures NoDup([o] + q)
    ensures forall x :: x in [o] + q <==> x == o || x in q
  {
    assert ([o] + q)[1..] == q;
  }

  lemma InvShape(s: State)
    requires Inv(s)
    ensures |s.lists| >= 2 && ListsOk(s)
  {
  }

  lemma InvLaid(s: State)
    requires Inv(s)
    ensures Laid(s.slots, |s.lists|, s.idxLen)
  {
  }

  lemma PrintableAt(s: State, o: nat)
    requires Inv(s) && o in s.slots
    ensures Printable(s.slots[o])
  {
  }

  /** A linked record is on its own list only. */
  lemma OnlyHome(s: State, i: nat, o: nat)
    requires ListsOk(s) && i < |s.lists| && o in s.lists[i]
    ensures OnList(s, o) && HomeOf(s.slots[o], |s.lists|) == i
    ensures forall j :: 0 <= j < |s.lists| && o in s.lists[j] ==> j == i
  {
  }

  /** t's lists are s's, with record o moved (or added) to list j and nothing else changed. */
  ghost predicate Moved(s: State, t: State, o: nat, j: nat) {
    && |t.lists| == |s.lists| && j < |s.lists|
    && (forall k, x :: 0 <= k < |s.lists| ==> (x in t.lists[k] <==> (x != o && x in s.lists[k]) || (x == o && k == j)))
    && (forall k :: 0 <= k < |s.lists| ==> NoDup(t.lists[k]))
    && o in t.slots
    && (forall x :: x != o ==> (x in t.slots <==> x in s.slots))
    && (forall x :: x != o && x in s.slots ==> t.slots[x] == s.slots[x])
  }

  lemma MovedLists(s: State, t: State, o: nat, j: nat)
    requires ListsOk(s) && Moved(s, t, o, j)
    requires o <= PTR_MAX && HomeOf(t.slots[o], |s.lists|) == j
    ensures ListsOk(t) && OnList(t, o)
    ensures forall x :: x != o ==> (OnList(t, x) <==> OnList(s, x))
  {
    forall k, x | 0 <= k < |t.lists| && x in t.lists[k]
      ensures x in t.slots && HomeOf(t.slots[x], |t.lists|) == k && x <= PTR_MAX
    {
      if x != o { assert x in s.lists[k]; }
    }
  }

  lemma MovedKeys(s: State, t: State, o: nat, j: nat)
    requires ListsOk(s) && KeysOk(s) && Moved(s, t, o, j)
    requires j != 0 ==> forall x :: x in s.lists[j] && x != o ==> s.slots[x].key != t.slots[o].key
    ensures KeysOk(t)
  {
    forall i, x, y | 1 <= i < |t.lists| && x in t.lists[i] && y in t.lists[i] && x in t.slots && y in t.slots
                     && t.slots[x].key == t.slots[y].key
      ensures x == y
    {
      if x != o && y != o {
        assert x in s.lists[i] && y in s.lists[i];
      }
    }
  }

  // ---------------------------------------------------------------- record texts and boundaries

  lemma RewrittenBoundaries(s: State, t: State, o: nat, r: Slot)
    requires Contiguous(s) && o in s.slots && t.slots == s.slots[o := r] && r.size == s.slots[o].size
    requires |t.lists| == |s.lists| && t.idxLen == s.idxLen
    ensures Contiguous(t)
  {
    forall x ensures EndsAtBoundary(t, x) {
      assert EndsAtBoundary(s, x);
    }
  }

  /** Rewriting one record in its slot keeps every boundary. */
  lemma RewrittenSlots(s: State, t: State, o: nat, r: Slot)
    requires SlotsOk(s) && Laid(s.slots, |s.lists|, s.idxLen) && Contiguous(s)
    requires o in s.slots && t.slots == s.slots[o := r] && r.size == s.slots[o].size
    requires |t.lists| == |s.lists| && t.idxLen == s.idxLen
    requires Printable(r) && (r.free ==> AllBlank(r.key))
    ensures SlotsOk(t) && Laid(t.slots, |t.lists|, t.idxLen) && Contiguous(t)
  {
    RewrittenBoundaries(s, t, o, r);
    LaidOver(s.slots, |s.lists|, s.idxLen, o, r);
  }

  /** A record at the end of the file adds one boundary. */
  lemma AddedSlot(s: State, t: State, r: Slot)
    requires ListsOk(s) && SlotsOk(s) && Laid(s.slots, |s.lists|, s.idxLen) && Contiguous(s)
    requires t.slots == s.slots[s.idxLen := r] && t.idxLen == End(s.idxLen, r)
    requires |t.lists| == |s.lists|
    requires Printable(r) && (r.free ==> AllBlank(r.key))
    ensures s.idxLen !in s.slots
    ensures SlotsOk(t) && Laid(t.slots, |t.lists|, t.idxLen) && Contiguous(t)
  {
    LaidOver(s.slots, |s.lists|, s.idxLen, s.idxLen, r);
    forall x ensures EndsAtBoundary(t, x) {
      assert EndsAtBoundary(s, x);
    }
  }

  // ---------------------------------------------------------------- the tiling of the data file

  /** Same linked records, same extents, same bytes owned: still tiled. */
  lemma SameOwned(s: State, t: State)
    requires |s.lists| >= 2 && |t.lists| >= 2
    requires Owned(s) && t.owner == s.owner && |t.dat| == |s.dat|
    requires forall o :: OnList(t, o) <==> OnList(s, o)
    requires forall o :: OnList(s, o) ==> o in t.slots && t.slots[o].datoff == s.slots[o].datoff && t.slots[o].datlen == s.slots[o].datlen
    ensures Owned(t)
  {
    forall p | 0 <= p < |t.owner| ensures OnList(t, t.owner[p]) {
      assert OnList(s, s.owner[p]);
    }
    forall o, p | OnList(t, o) && 0 <= p < |t.owner|
      ensures t.owner[p] == o <==> InExtent(t.slots[o], p)
    {
      assert OnList(s, o);
      assert s.owner[p] == o <==> InExtent(s.slots[o], p);
    }
    forall o | OnList(t, o) ensures t.slots[o].datoff + t.slots[o].datlen <= |t.dat| {
      assert OnList(s, o);
    }
  }

  /** Rewriting a linked record in its slot, possibly moving it to another list, keeps the invariant. */
  lemma RewriteKeepsInv(s: State, t: State, o: nat, r: Slot, j: nat)
    requires Inv(s) && OnList(s, o) && Moved(s, t, o, j)
    requires t.slots == s.slots[o := r] && Printable(r) && (r.free ==> AllBlank(r.key))
    requires r.size == s.slots[o].size && r.datoff == s.slots[o].datoff && r.datlen == s.slots[o].datlen
    requires HomeOf(r, |s.lists|) == j
    requires j != 0 ==> forall x :: x in s.lists[j] && x != o ==> s.slots[x].key != r.key
    requires t.idxLen == s.idxLen && t.owner == s.owner && |t.dat| == |s.dat|
    ensures forall x :: OnList(t, x) <==> OnList(s, x)
    ensures Inv(t)
  {
    hide KeysOk, SlotsOk, Owned, Laid, Contiguous, NoDup, Hash, Printable;
    MovedLists(s, t, o, j);
    MovedKeys(s, t, o, j);
    RewrittenSlots(s, t, o, r);
    SameOwned(s, t);
  }

  // ---------------------------------------------------------------- deletion

  lemma DeleteMoves(s: State, i: nat, a: nat)
    requires ListsOk(s) && 1 <= i < |s.lists| && a < |s.lists[i]|
    requires s.lists[i][a] in s.slots
    ensures Moved(s, DeleteAt(s, i, a), s.lists[i][a], 0)
  {
    var t := DeleteAt(s, i, a);
    var o := s.lists[i][a];
    OnlyHome(s, i, o);
    RemoveAtMembers(s.lists[i], a);
    PushMembers(s.lists[0], o);
    assert forall k :: 0 <= k < |s.lists| && k != i && k != 0 ==> t.lists[k] == s.lists[k];
  }

  lemma DeleteKeepsInv(s: State, i: nat, a: nat)
    requires Inv(s) && 1 <= i < |s.lists| && a < |s.lists[i]|
    ensures forall x :: OnList(DeleteAt(s, i, a), x) <==> OnList(s, x)
    ensures Inv(DeleteAt(s, i, a))
  {
    var o := s.lists[i][a];
    OnlyHome(s, i, o);
    DeleteMoves(s, i, a);
    FreedPrintable(s.slots[o]);
    RewriteKeepsInv(s, DeleteAt(s, i, a), o, Freed(s.slots[o]), 0);
  }

  /** Blanking the key and setting the flag never lengthens the text: a deletion always fits its slot. */
  lemma FreedPrintable(r: Slot)
    requires Printable(r)
    ensures Printable(Freed(r)) && TextLen(Freed(r)) == TextLen(r)
  {
    LineLength(r);
    LineLength(Freed(r));
  }

  // ---------------------------------------------------------------- appending

  predicate DataOk(data: Bytes) { |data| <= DATLEN_MAX }

  lemma NewSlotPrintable(width: nat, minSize: nat, key: string, datoff: nat, datlen: nat, used: nat)
    requires KeyOk(key) && width <= KEY_MAX && minSize <= IDXLEN_MAX
    requires used <= datlen <= DATLEN_MAX && datoff + datlen <= DATA_FILELEN_MAX
    ensures Printable(NewSlot(width, minSize, key, datoff, datlen, used))
  {
    FitsIdxLenMax(NewSlot(width, minSize, key, datoff, datlen, used));
  }

  /** key is on no chain */
  ghost predicate Absent(s: State, key: string)
    requires ListsOk(s)
  {
    forall x :: x in s.lists[ChainOf(s, key)] ==> s.slots[x].key != key
  }

  lemma PushMoves(s: State, t: State, i: nat, o: nat)
    requires ListsOk(s) && i < |s.lists| && o !in s.slots
    requires t.lists == s.lists[i := [o] + s.lists[i]]
    requires o in t.slots && t.slots == s.slots[o := t.slots[o]]
    ensures Moved(s, t, o, i)
  {
    PushMembers(s.lists[i], o);
    assert forall k :: 0 <= k < |s.lists| && k != i ==> t.lists[k] == s.lists[k];
  }

  lemma AppendOwned(s: State, t: State, o: nat, n: nat)
    requires |s.lists| >= 2 && |t.lists| >= 2 && Owned(s)
    requires o !in s.slots && OnList(t, o)
    requires forall x :: x != o ==> (OnList(t, x) <==> OnList(s, x))
    requires forall x :: OnList(s, x) ==> x in t.slots && t.slots[x] == s.slots[x]
    requires t.slots[o].datoff == |s.dat| && t.slots[o].datlen == n
    requires |t.dat| == |s.dat| + n <= DATA_FILELEN_MAX && t.owner == s.owner + seq(n, _ => o)
    ensures Owned(t)
  {
    forall p | 0 <= p < |t.owner| ensures OnList(t, t.owner[p]) {
      if p < |s.owner| { assert OnList(s, s.owner[p]); }
    }
    forall x, p | OnList(t, x) && 0 <= p < |t.owner|
      ensures t.owner[p] == x <==> InExtent(t.slots[x], p)
    {
      if p < |s.owner| {
        assert OnList(s, s.owner[p]);
        if x != o { assert s.owner[p] == x <==> InExtent(s.slots[x], p); }
      }
    }
  }

  lemma AppendKeepsInv(s: State, key: string, data: Bytes, width: nat, minSize: nat)
    requires Inv(s) && KeyOk(key) && DataOk(data) && width <= KEY_MAX && minSize <= IDXLEN_MAX
    requires Absent(s, key) && EnoughSpace(s, |key|, |data|)
    ensures Inv(AppendStep(s, key, data, width, minSize))
  {
    hide KeysOk, SlotsOk, Owned, Laid, Contiguous, Moved, NoDup, Hash, TextLen, Printable;
    var t := AppendStep(s, key, data, width, minSize);
    var r := NewSlot(width, minSize, key, |s.dat|, |data|, |data|);
    var i := ChainOf(s, key);
    NewSlotPrintable(width, minSize, key, |s.dat|, |data|, |data|);
    AddedSlot(s, t, r);
    PushMoves(s, t, i, s.idxLen);
    MovedLists(s, t, s.idxLen, i);
    MovedKeys(s, t, s.idxLen, i);
    AppendOwned(s, t, s.idxLen, |data|);
  }

  // ---------------------------------------------------------------- reusing a free record

  lemma ReusedPrintable(s: State, key: string, data: Bytes, a: nat)
    requires Inv(s) && KeyOk(key) && a < |s.lists[0]|
    requires Fits(s.slots[s.lists[0][a]].area, s.slots[s.lists[0][a]].datlen, |key|, |data|)
    ensures var r := Reused(s, key, data, a);
            if Outgrows(r) then Printable(r.(size := TextLen(r))) else Printable(r)
  {
    var r := Reused(s, key, data, a);
    FitsIdxLenMax(r);
    assert TextLen(r.(size := TextLen(r))) == TextLen(r);
  }

  /** s without the a-th free record on any list */
  function Dropped(s: State, a: nat): State
    requires |s.lists| >= 2 && a < |s.lists[0]|
  {
    s.(lists := s.lists[0 := RemoveAt(s.lists[0], a)])
  }

  lemma DroppedMembers(s: State, a: nat)
    requires ListsOk(s) && a < |s.lists[0]|
    ensures forall i, x :: 0 <= i < |s.lists| ==> (x in Dropped(s, a).lists[i] <==> x in s.lists[i] && x != s.lists[0][a])
    ensures forall i :: 0 <= i < |s.lists| ==> NoDup(Dropped(s, a).lists[i])
    ensures Dropped(s, a).slots == s.slots && |Dropped(s, a).lists| == |s.lists|
  {
    OnlyHome(s, 0, s.lists[0][a]);
    RemoveAtMembers(s.lists[0], a);
    assert forall k :: 1 <= k < |s.lists| ==> Dropped(s, a).lists[k] == s.lists[k];
  }

  lemma DroppedOnList(s: State, a: nat)
    requires ListsOk(s) && a < |s.lists[0]|
    ensures forall x :: OnList(Dropped(s, a), x) <==> OnList(s, x) && x != s.lists[0][a]
  {
    hide RemoveAt, NoDup, Dropped, HomeOf;
    DroppedMembers(s, a);
    var u, o := Dropped(s, a), s.lists[0][a];
    forall x ensures OnList(u, x) <==> OnList(s, x) && x != o {
      if x in s.slots {
        var i := HomeOf(s.slots[x], |s.lists|);
        assert x in u.lists[i] <==> x in s.lists[i] && x != o;
      }
    }
  }

  lemma DroppedOk(s: State, a: nat)
    requires ListsOk(s) && a < |s.lists[0]|
    ensures ListsOk(Dropped(s, a))
  {
    hide RemoveAt, Dropped, OnList, NoDup;
    DroppedMembers(s, a);
    ListsShrunk(s, Dropped(s, a));
  }

  /** Fewer records on each list, and the same records. */
  lemma ListsShrunk(s: State, u: State)
    requires ListsOk(s) && u.slots == s.slots && |u.lists| == |s.lists|
    requires forall i, x :: 0 <= i < |s.lists| && x in u.lists[i] ==> x in s.lists[i]
    requires forall i :: 0 <= i < |s.lists| ==> NoDup(u.lists[i])
    ensures ListsOk(u)
  {
    hide NoDup, HomeOf;
  }

  lemma DroppedKeys(s: State, a: nat)
    requires ListsOk(s) && KeysOk(s) && a < |s.lists[0]|
    ensures KeysOk(Dropped(s, a))
  {
    hide RemoveAt, NoDup, Dropped, HomeOf;
    DroppedMembers(s, a);
    var u := Dropped(s, a);
    forall i, x, y | 1 <= i < |u.lists| && x in u.lists[i] && y in u.lists[i] && x in u.slots && y in u.slots
                     && u.slots[x].key == u.slots[y].key
      ensures x == y
    {
      assert x in s.lists[i] && y in s.lists[i];
    }
  }

  lemma DroppedLists(s: State, a: nat)
    requires ListsOk(s) && KeysOk(s) && a < |s.lists[0]|
    ensures ListsOk(Dropped(s, a)) && KeysOk(Dropped(s, a))
    ensures forall x :: OnList(Dropped(s, a), x) <==> OnList(s, x) && x != s.lists[0][a]
    ensures forall i, x :: 0 <= i < |s.lists| ==> (x in Dropped(s, a).lists[i] <==> x in s.lists[i] && x != s.lists[0][a])
  {
    hide RemoveAt, NoDup, Dropped, HomeOf, OnList, KeysOk;
    DroppedMembers(s, a);
    DroppedOnList(s, a);
    DroppedOk(s, a);
    DroppedKeys(s, a);
  }

  lemma ReuseMoves(s: State, t: State, a: nat, i: nat)
    requires ListsOk(s) && KeysOk(s) && 1 <= i < |s.lists| && a < |s.lists[0]|
    requires var o := s.lists[0][a];
             && t.lists == Dropped(s, a).lists[i := [o] + s.lists[i]]
             && o in t.slots && t.slots == s.slots[o := t.slots[o]]
    ensures Moved(s, t, s.lists[0][a], i)
  {
    var o := s.lists[0][a];
    OnlyHome(s, 0, o);
    DroppedLists(s, a);
    PushMembers(s.lists[i], o);
    assert forall k :: 0 <= k < |s.lists| && k != i ==> t.lists[k] == Dropped(s, a).lists[k];
  }

  lemma ReuseInSlotKeepsInv(s: State, key: string, data: Bytes, a: nat)
    requires Inv(s) && KeyOk(key) && Absent(s, key) && a < |s.lists[0]|
    requires Fits(s.slots[s.lists[0][a]].area, s.slots[s.lists[0][a]].datlen, |key|, |data|)
    requires s.slots[s.lists[0][a]].datoff + |data| <= |s.dat|
    requires !Outgrows(Reused(s, key, data, a))
    ensures forall x :: OnList(ReuseStep(s, key, data, a), x) <==> OnList(s, x)
    ensures Inv(ReuseStep(s, key, data, a))
  {
    hide KeysOk, SlotsOk, Owned, Laid, Contiguous, NoDup, Hash, Printable, TextLen, Moved, RemoveAt;
    var t := ReuseStep(s, key, data, a);
    var o, i := s.lists[0][a], ChainOf(s, key);
    OnlyHome(s, 0, o);
    ReusedPrintable(s, key, data, a);
    ReuseMoves(s, t, a, i);
    RewriteKeepsInv(s, t, o, Reused(s, key, data, a), i);
  }

  lemma RelocatedOwned(s: State, t: State, o: nat, n: nat)
    requires |s.lists| >= 2 && |t.lists| >= 2 && Owned(s)
    requires OnList(s, o) && n !in s.slots && OnList(t, n)
    requires forall x :: x != n ==> (OnList(t, x) <==> OnList(s, x) && x != o)
    requires forall x :: OnList(s, x) ==> x in t.slots && t.slots[x] == s.slots[x]
    requires t.slots[n].datoff == s.slots[o].datoff && t.slots[n].datlen == s.slots[o].datlen
    requires |t.dat| == |s.dat| && t.owner == NewOwner(s.owner, o, n)
    ensures Owned(t)
  {
    forall p | 0 <= p < |t.owner| ensures OnList(t, t.owner[p]) {
      assert OnList(s, s.owner[p]);
    }
    forall x, p | OnList(t, x) && 0 <= p < |t.owner|
      ensures t.owner[p] == x <==> InExtent(t.slots[x], p)
    {
      assert OnList(s, s.owner[p]);
      assert s.owner[p] == o <==> InExtent(s.slots[o], p);
      if x != n { assert s.owner[p] == x <==> InExtent(s.slots[x], p); }
    }
  }

  /** A free record's extent passes to a new record at the end of the index file. */
  lemma RelocateKeepsInv(s: State, t: State, a: nat, i: nat, r: Slot)
    requires Inv(s) && a < |s.lists[0]| && 1 <= i < |s.lists| && s.idxLen <= PTR_MAX
    requires t.lists == Dropped(s, a).lists[i := [s.idxLen] + s.lists[i]]
    requires t.slots == s.slots[s.idxLen := r] && t.idxLen == End(s.idxLen, r)
    requires Printable(r) && HomeOf(r, |s.lists|) == i
    requires r.datoff == s.slots[s.lists[0][a]].datoff && r.datlen == s.slots[s.lists[0][a]].datlen
    requires forall x :: x in s.lists[i] ==> s.slots[x].key != r.key
    requires |t.dat| == |s.dat| && t.owner == NewOwner(s.owner, s.lists[0][a], s.idxLen)
    ensures forall x :: OnList(t, x) <==> x == s.idxLen || (OnList(s, x) && x != s.lists[0][a])
    ensures Inv(t)
  {
    var u := Dropped(s, a);
    var o, n := s.lists[0][a], s.idxLen;
    OnlyHome(s, 0, o);
    DroppedLists(s, a);
    AddedSlot(s, t, r);
    assert u.lists[i] == s.lists[i];
    PushMoves(u, t, i, n);
    MovedLists(u, t, n, i);
    MovedKeys(u, t, n, i);
    RelocatedOwned(s, t, o, n);
  }

  lemma ReuseMovingKeepsInv(s: State, key: string, data: Bytes, a: nat)
    requires Inv(s) && KeyOk(key) && Absent(s, key) && a < |s.lists[0]|
    requires Fits(s.slots[s.lists[0][a]].area, s.slots[s.lists[0][a]].datlen, |key|, |data|)
    requires s.slots[s.lists[0][a]].datoff + |data| <= |s.dat|
    requires Outgrows(Reused(s, key, data, a)) && s.idxLen <= PTR_MAX
    ensures forall x :: OnList(ReuseStep(s, key, data, a), x) <==> x == s.idxLen || (OnList(s, x) && x != s.lists[0][a])
    ensures Inv(ReuseStep(s, key, data, a))
  {
    hide KeysOk, SlotsOk, Owned, Laid, Contiguous, NoDup, Hash, Printable, TextLen, RemoveAt;
    var r := Reused(s, key, data, a);
    ReusedPrintable(s, key, data, a);
    assert Dropped(s, a).lists[ChainOf(s, key)] == s.lists[ChainOf(s, key)];
    RelocateKeepsInv(s, ReuseStep(s, key, data, a), a, ChainOf(s, key), r.(size := TextLen(r)));
  }

  // ---------------------------------------------------------------- overwriting in place

  /** Unchanged lists, one linked record rewritten in place. */
  lemma StayedMoves(s: State, t: State, o: nat)
    requires ListsOk(s) && OnList(s, o) && t.lists == s.lists && t.slots.Keys == s.slots.Keys
    requires forall x :: x != o && x in s.slots ==> t.slots[x] == s.slots[x]
    ensures Moved(s, t, o, HomeOf(s.slots[o], |s.lists|))
  {
    OnlyHome(s, HomeOf(s.slots[o], |s.lists|), o);
  }

  /** A record written past the end that no list mentions disturbs nothing that is linked. */
  lemma StrayKeepsInv(s: State, t: State, r: Slot)
    requires Inv(s) && t.lists == s.lists && t.owner == s.owner && |t.dat| == |s.dat|
    requires t.slots == s.slots[s.idxLen := r] && t.idxLen == End(s.idxLen, r)
    requires Printable(r) && !r.free
    ensures forall x :: OnList(t, x) <==> OnList(s, x)
    ensures Inv(t)
  {
    hide Laid, Contiguous, NoDup, Hash, Printable;
    AddedSlot(s, t, r);
    StrayLists(s, t);
    StrayOwned(s, t);
  }

  lemma StrayOwned(s: State, t: State)
    requires ListsOk(s) && Owned(s) && t.lists == s.lists && t.owner == s.owner && |t.dat| == |s.dat|
    requires s.idxLen !in s.slots
    requires forall x :: x in s.slots ==> x in t.slots && t.slots[x] == s.slots[x]
    requires forall x :: OnList(t, x) <==> OnList(s, x)
    ensures Owned(t)
  {
    SameOwned(s, t);
  }

  lemma StrayLists(s: State, t: State)
    requires ListsOk(s) && KeysOk(s) && t.lists == s.lists && s.idxLen !in s.slots
    requires forall x :: x in s.slots ==> x in t.slots && t.slots[x] == s.slots[x]
    requires forall x :: x in t.slots ==> x in s.slots || x == s.idxLen
    ensures forall x :: OnList(t, x) <==> OnList(s, x)
    ensures ListsOk(t) && KeysOk(t)
  {
    assert forall i, x :: 0 <= i < |s.lists| && x in s.lists[i] ==> x in s.slots;
    forall x ensures OnList(t, x) <==> OnList(s, x) {
      if OnList(t, x) { assert x in s.slots; }
    }
    forall i, x, y | 1 <= i < |t.lists| && x in t.lists[i] && y in t.lists[i] && x in t.slots && y in t.slots
                     && t.slots[x].key == t.slots[y].key
      ensures x == y
    {
      assert x in s.lists[i] && y in s.lists[i];
    }
  }

  lemma ResizedPrintable(r: Slot)
    requires NUL !in r.key && |r.key| <= r.area <= KEY_MAX
    requires r.datlen <= DATLEN_MAX && r.used <= r.datlen && r.datoff + r.datlen <= DATA_FILELEN_MAX
    ensures Printable(r.(size := TextLen(r)))
  {
    FitsIdxLenMax(r);
    assert TextLen(r.(size := TextLen(r))) == TextLen(r);
  }

  lemma HomeKept(s: State, o: nat, r: Slot)
    requires Inv(s) && OnList(s, o) && r.key == s.slots[o].key && r.free == s.slots[o].free
    ensures HomeOf(r, |s.lists|) == HomeOf(s.slots[o], |s.lists|)
    ensures !r.free ==> forall x :: x in s.lists[HomeOf(r, |s.lists|)] && x != o ==> s.slots[x].key != r.key
  {
  }

  lemma InPlaceKeepsInv(s: State, o: nat, data: Bytes)
    requires Inv(s) && OnList(s, o) && !s.slots[o].free && |data| <= s.slots[o].datlen
    requires s.slots[o].datoff + |data| <= |s.dat|
    ensures forall x :: OnList(InPlaceStep(s, o, data), x) <==> OnList(s, x)
    ensures Inv(InPlaceStep(s, o, data))
  {
    hide Inv, ListsOk, Moved, TextLen;
    InvShape(s);
    PrintableAt(s, o);
    var t := InPlaceStep(s, o, data);
    var r := s.slots[o].(used := |data|);
    if !Outgrows(r) {
      HomeKept(s, o, r);
      StayedMoves(s, t, o);
      RewriteKeepsInv(s, t, o, r, HomeOf(s.slots[o], |s.lists|));
    } else {
      ResizedPrintable(r);
      StrayKeepsInv(s, t, r.(size := TextLen(r)));
    }
  }
}
