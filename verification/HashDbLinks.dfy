/**
 * Lists of record offsets threaded through pointer cells: what unlinking and pushing a record do.
 */
module HashDbLinks {
  import opened IndexRecord
  import opened IndexFile
  import opened HashDbSpec
  import opened HashDbInv

  /** Following the pointers from a cell visits exactly the records of q and ends in 0. */
  ghost predicate Chain(ptrs: map<nat, nat>, cell: nat, q: seq<nat>)
    decreases |q|
  {
    cell in ptrs &&
    if q == [] then ptrs[cell] == 0
    else ptrs[cell] == q[0] && q[0] > 0 && Chain(ptrs, q[0], q[1..])
  }

  ghost predicate Linked(ptrs: map<nat, nat>, lists: seq<seq<nat>>) {
    forall i :: 0 <= i < |lists| ==> Chain(ptrs, HeadCell(i), lists[i])
  }

  /** The cell that points to the a-th record of list i. */
  function CellBefore(lists: seq<seq<nat>>, i: nat, a: nat): nat
    requires i < |lists| && a < |lists[i]|
  {
    if a == 0 then HeadCell(i) else lists[i][a - 1]
  }

  /** Members are no head cells, and no record is on two lists or twice on one. */
  ghost predicate Apart(lists: seq<seq<nat>>) {
    && (forall i, o :: 0 <= i < |lists| && o in lists[i] ==> o >= Start(|lists|))
    && (forall i, j, o :: 0 <= i < |lists| && 0 <= j < |lists| && o in lists[i] && o in lists[j] ==> i == j)
    && (forall i :: 0 <= i < |lists| ==> NoDup(lists[i]))
  }

  lemma InvApart(s: State)
    requires Inv(s)
    ensures Apart(s.lists)
  {
    forall i, o | 0 <= i < |s.lists| && o in s.lists[i]
      ensures o >= Start(|s.lists|)
      ensures forall j :: 0 <= j < |s.lists| && o in s.lists[j] ==> i == j
    {
      OnlyHome(s, i, o);
    }
  }

  /** o is on no list */
  ghost predicate Unlinked(lists: seq<seq<nat>>, o: nat) {
    forall j :: 0 <= j < |lists| ==> o !in lists[j]
  }

  // ---------------------------------------------------------------- one chain

  lemma {:induction false} ChainFrame(ptrs: map<nat, nat>, ptrs': map<nat, nat>, cell: nat, q: seq<nat>)
    requires Chain(ptrs, cell, q)
    requires cell in ptrs' && ptrs'[cell] == ptrs[cell]
    requires forall o :: o in q && o in ptrs ==> o in ptrs' && ptrs'[o] == ptrs[o]
    ensures Chain(ptrs', cell, q)
    decreases |q|
  {
    if q != [] {
      assert q[0] in q;
      assert forall o :: o in q[1..] ==> o in q;
      ChainFrame(ptrs, ptrs', q[0], q[1..]);
    }
  }

  lemma {:induction false} ChainMembers(ptrs: map<nat, nat>, cell: nat, q: seq<nat>)
    requires Chain(ptrs, cell, q)
    ensures forall o :: o in q ==> o in ptrs && o > 0
    decreases |q|
  {
    if q != [] {
      ChainMembers(ptrs, q[0], q[1..]);
      assert q == [q[0]] + q[1..];
    }
  }

  /** The suffix of a chain is the chain from its predecessor cell. */
  lemma {:induction false} ChainAt(ptrs: map<nat, nat>, cell: nat, q: seq<nat>, a: nat)
    requires Chain(ptrs, cell, q) && a <= |q|
    ensures Chain(ptrs, if a == 0 then cell else q[a - 1], q[a..])
    decreases a
  {
    if a > 0 {
      ChainAt(ptrs, q[0], q[1..], a - 1);
      assert q[1..][a - 1..] == q[a..];
      if a > 1 { assert q[1..][a - 2] == q[a - 1]; }
    }
  }

  lemma {:induction false} ChainRemove(ptrs: map<nat, nat>, cell: nat, q: seq<nat>, a: nat)
    requires Chain(ptrs, cell, q) && NoDup(q) && cell !in q && a < |q|
    requires q[a] in ptrs
    ensures Chain(ptrs[(if a == 0 then cell else q[a - 1]) := ptrs[q[a]]], cell, RemoveAt(q, a))
    decreases a
  {
    if a == 0 {
      var p := ptrs[cell := ptrs[q[0]]];
      assert RemoveAt(q, 0) == q[1..];
      assert forall o :: o in q[1..] ==> o in q;
      if q[1..] != [] {
        assert q[1] in q[1..];
        assert forall o :: o in q[1..][1..] ==> o in q[1..];
        ChainFrame(ptrs, p, q[1], q[1..][1..]);
      }
    } else {
      var q' := q[1..];
      assert forall o :: o in q' ==> o in q;
      ChainRemove(ptrs, q[0], q', a - 1);
      assert RemoveAt(q, a) == [q[0]] + RemoveAt(q', a - 1);
      assert RemoveAt(q, a)[1..] == RemoveAt(q', a - 1);
      assert q[a - 1] in q;
    }
  }

  lemma ChainPush(ptrs: map<nat, nat>, cell: nat, q: seq<nat>, o: nat)
    requires Chain(ptrs, cell, q) && o !in q && cell !in q && o != cell && o > 0
    ensures Chain(ptrs[o := ptrs[cell]][cell := o], cell, [o] + q)
  {
    var p := ptrs[o := ptrs[cell]][cell := o];
    assert ([o] + q)[1..] == q;
    if q != [] {
      assert q[0] in q && forall x :: x in q[1..] ==> x in q;
      ChainFrame(ptrs, p, q[0], q[1..]);
    }
  }

  // ---------------------------------------------------------------- all lists

  lemma LinkedFrame(ptrs: map<nat, nat>, ptrs': map<nat, nat>, lists: seq<seq<nat>>, j: nat)
    requires Linked(ptrs, lists) && j < |lists|
    requires HeadCell(j) in ptrs' && ptrs'[HeadCell(j)] == ptrs[HeadCell(j)]
    requires forall o :: o in lists[j] && o in ptrs ==> o in ptrs' && ptrs'[o] == ptrs[o]
    ensures Chain(ptrs', HeadCell(j), lists[j])
  {
    ChainFrame(ptrs, ptrs', HeadCell(j), lists[j]);
  }

  /** Bypassing a record in the cell before it unlinks it and nothing else. */
  lemma LinkedRemove(ptrs: map<nat, nat>, lists: seq<seq<nat>>, i: nat, a: nat)
    requires Linked(ptrs, lists) && Apart(lists) && i < |lists| && a < |lists[i]|
    ensures lists[i][a] in ptrs
    ensures Linked(ptrs[CellBefore(lists, i, a) := ptrs[lists[i][a]]], lists[i := RemoveAt(lists[i], a)])
    ensures Apart(lists[i := RemoveAt(lists[i], a)])
    ensures Unlinked(lists[i := RemoveAt(lists[i], a)], lists[i][a])
  {
    var o := lists[i][a];
    assert o in lists[i];
    ChainMembers(ptrs, HeadCell(i), lists[i]);
    var cell := CellBefore(lists, i, a);
    var p := ptrs[cell := ptrs[o]];
    var lists' := lists[i := RemoveAt(lists[i], a)];
    RemoveAtMembers(lists[i], a);
    if a > 0 { assert lists[i][a - 1] in lists[i]; }
    forall j | 0 <= j < |lists| ensures Chain(p, HeadCell(j), lists'[j]) {
      if j == i {
        ChainRemove(ptrs, HeadCell(i), lists[i], a);
      } else {
        LinkedFrame(ptrs, p, lists, j);
      }
    }
  }

  /** Writing a record whose pointer is the old head, then pointing the head at it, pushes it. */
  lemma LinkedPush(ptrs: map<nat, nat>, lists: seq<seq<nat>>, i: nat, o: nat)
    requires Linked(ptrs, lists) && Apart(lists) && i < |lists| && o >= Start(|lists|)
    requires Unlinked(lists, o)
    ensures HeadCell(i) in ptrs
    ensures Linked(ptrs[o := ptrs[HeadCell(i)]][HeadCell(i) := o], lists[i := [o] + lists[i]])
  {
    var p := ptrs[o := ptrs[HeadCell(i)]][HeadCell(i) := o];
    assert Chain(ptrs, HeadCell(i), lists[i]);
    var lists' := lists[i := [o] + lists[i]];
    forall j | 0 <= j < |lists| ensures Chain(p, HeadCell(j), lists'[j]) {
      if j == i {
        ChainPush(ptrs, HeadCell(i), lists[i], o);
      } else {
        assert Chain(ptrs, HeadCell(j), lists[j]);
        LinkedFrame(ptrs, p, lists, j);
      }
    }
  }

  /** A cell that belongs to no list may hold anything. */
  lemma LinkedIgnores(ptrs: map<nat, nat>, lists: seq<seq<nat>>, o: nat, v: nat)
    requires Linked(ptrs, lists) && o >= Start(|lists|)
    requires Unlinked(lists, o)
    ensures Linked(ptrs[o := v], lists)
  {
    forall j | 0 <= j < |lists| ensures Chain(ptrs[o := v], HeadCell(j), lists[j]) {
      assert Chain(ptrs, HeadCell(j), lists[j]);
      LinkedFrame(ptrs, ptrs[o := v], lists, j);
    }
  }

  // ---------------------------------------------------------------- walking a list

  lemma ListMembers(s: State, i: nat)
    requires Inv(s) && i < |s.lists|
    ensures forall o :: o in s.lists[i] ==> o in s.slots
  {
  }

  /** The cell before position a of a list holds the offset of the record there, or 0 at the end. */
  lemma WalkStep(ptrs: map<nat, nat>, lists: seq<seq<nat>>, i: nat, a: nat)
    requires Linked(ptrs, lists) && i < |lists| && a <= |lists[i]|
    ensures var cell := if a == 0 then HeadCell(i) else lists[i][a - 1];
            && cell in ptrs && ptrs[cell] == (if a < |lists[i]| then lists[i][a] else 0)
            && (a < |lists[i]| ==> lists[i][a] > 0 && lists[i][a] in ptrs)
  {
    assert Chain(ptrs, HeadCell(i), lists[i]);
    ChainAt(ptrs, HeadCell(i), lists[i], a);
  }

  // ---------------------------------------------------------------- the pointer writes of each operation

  /** _db_dodelete: the record points at the old free head, the free head at the record, and the cell before
      it at its successor. */
  lemma DeleteLinks(s: State, ptrs: map<nat, nat>, i: nat, a: nat)
    requires Inv(s) && Linked(ptrs, s.lists) && 1 <= i < |s.lists| && a < |s.lists[i]|
    ensures var o, cell := s.lists[i][a], CellBefore(s.lists, i, a);
            && o in s.slots && o in ptrs && HeadCell(0) in ptrs && cell in ptrs && o <= PTR_MAX && o !in s.lists[0]
            && Printable(s.slots[o])
            && o != HeadCell(0) && o != cell && cell != HeadCell(0)
            && Linked(ptrs[o := ptrs[HeadCell(0)]][HeadCell(0) := o][cell := ptrs[o]], DeleteAt(s, i, a).lists)
  {
    InvApart(s);
    OnlyHome(s, i, s.lists[i][a]);
    var o, cell := s.lists[i][a], CellBefore(s.lists, i, a);
    assert Chain(ptrs, HeadCell(0), s.lists[0]) && Chain(ptrs, HeadCell(i), s.lists[i]);
    ChainMembers(ptrs, HeadCell(i), s.lists[i]);
    if a > 0 {
      assert s.lists[i][a - 1] in s.lists[i];
      NoDupAt(s.lists[i], a - 1, a);
    }
    DeleteLinksMap(s.lists, ptrs, i, a);
  }

  lemma DeleteLinksMap(lists: seq<seq<nat>>, ptrs: map<nat, nat>, i: nat, a: nat)
    requires Linked(ptrs, lists) && Apart(lists) && 1 <= i < |lists| && a < |lists[i]|
    requires var o, cell := lists[i][a], CellBefore(lists, i, a);
             && o in ptrs && HeadCell(0) in ptrs && cell in ptrs && o >= Start(|lists|)
             && o != HeadCell(0) && o != cell && cell != HeadCell(0)
    ensures var o, cell := lists[i][a], CellBefore(lists, i, a);
            Linked(ptrs[o := ptrs[HeadCell(0)]][HeadCell(0) := o][cell := ptrs[o]],
                   lists[i := RemoveAt(lists[i], a)][0 := [o] + lists[0]])
  {
    var o, cell := lists[i][a], CellBefore(lists, i, a);
    var p, l := ptrs[cell := ptrs[o]], lists[i := RemoveAt(lists[i], a)];
    LinkedRemove(ptrs, lists, i, a);
    LinkedPush(p, l, 0, o);
    assert p[o := p[HeadCell(0)]][HeadCell(0) := o] == ptrs[o := ptrs[HeadCell(0)]][HeadCell(0) := o][cell := ptrs[o]];
  }

  /** Cells after the a-th free record is bypassed. */
  function Taken(ptrs: map<nat, nat>, lists: seq<seq<nat>>, a: nat): map<nat, nat>
    requires |lists| >= 1 && a < |lists[0]| && lists[0][a] in ptrs
  {
    ptrs[CellBefore(lists, 0, a) := ptrs[lists[0][a]]]
  }

  /** Taking a free record and pushing it, rewritten at n, on chain i. */
  lemma ReuseLinks(s: State, ptrs: map<nat, nat>, a: nat, i: nat, n: nat)
    requires Inv(s) && Linked(ptrs, s.lists) && 1 <= i < |s.lists| && a < |s.lists[0]|
    requires n == s.lists[0][a] || n == s.idxLen
    ensures s.lists[0][a] in ptrs && HeadCell(i) in ptrs
    ensures HeadCell(i) in Taken(ptrs, s.lists, a) && Taken(ptrs, s.lists, a)[HeadCell(i)] == ptrs[HeadCell(i)]
    ensures Linked(Taken(ptrs, s.lists, a)[n := ptrs[HeadCell(i)]][HeadCell(i) := n],
                   s.lists[0 := RemoveAt(s.lists[0], a)][i := [n] + s.lists[i]])
  {
    InvApart(s);
    assert Chain(ptrs, HeadCell(0), s.lists[0]) && Chain(ptrs, HeadCell(i), s.lists[i]);
    ChainMembers(ptrs, HeadCell(0), s.lists[0]);
    if a > 0 { assert s.lists[0][a - 1] in s.lists[0]; }
    NewUnlinked(s);
    LinkedRemove(ptrs, s.lists, 0, a);
    var l := s.lists[0 := RemoveAt(s.lists[0], a)];
    assert Unlinked(l, n) by {
      RemoveAtMembers(s.lists[0], a);
    }
    assert n >= Start(|l|) by {
      assert s.lists[0][a] in s.lists[0];
    }
    LinkedPush(Taken(ptrs, s.lists, a), l, i, n);
  }

  lemma NewUnlinked(s: State)
    requires Inv(s)
    ensures Unlinked(s.lists, s.idxLen) && s.idxLen >= Start(|s.lists|)
  {
    forall j | 0 <= j < |s.lists| ensures s.idxLen !in s.lists[j] {
      if s.idxLen in s.lists[j] { OnlyHome(s, j, s.idxLen); }
    }
  }

  /** A new record at the end of the file pushed on chain i. */
  lemma AppendLinks(s: State, ptrs: map<nat, nat>, i: nat)
    requires Inv(s) && Linked(ptrs, s.lists) && 1 <= i < |s.lists|
    ensures HeadCell(i) in ptrs
    ensures Linked(ptrs[s.idxLen := ptrs[HeadCell(i)]][HeadCell(i) := s.idxLen], s.lists[i := [s.idxLen] + s.lists[i]])
  {
    InvApart(s);
    NewUnlinked(s);
    LinkedPush(ptrs, s.lists, i, s.idxLen);
  }
}
