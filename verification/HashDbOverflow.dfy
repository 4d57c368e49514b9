/**
 * A run from an empty database of any number of chains, built only from successful calls, after which db_store
 * reports success but the key keeps the wrong bytes: the new record text outgrows its slot in place, moves to the
 * end of the file, and no chain leads there.
 */
module HashDbOverflow {
  import opened CText
  import opened Machine
  import opened IndexRecord
  import opened IndexFile
  import opened HashDbSpec
  import opened HashDbInv
  import opened HashDbOps
  import opened HashDbTheorems
  import opened HashDbScan
  import opened HashDbRuns

  const NHASH_DEF := 1572869

  predicate Key(k: string, n: nat) { NUL !in k && |k| == n }

  /** Where the first and the second record lie; the size estimate for the second is within the pointers' range. */
  function Pos1(n: nat): nat { Start(n + 1) }
  function Pos2(n: nat): nat { Pos1(n) + 35 }
  predicate Room(n: nat) { n >= 1 && Pos2(n) + 9 <= PTR_MAX }

  function Chain(n: nat, key: string): (i: nat)
    requires n >= 1
    ensures 1 <= i <= n
  {
    1 + Hash(key, n)
  }

  // ---------------------------------------------------------------- the lists of such states

  /** The free list, one chain, and the others empty. */
  function Lists(n: nat, free: seq<nat>, i: nat, q: seq<nat>): (l: seq<seq<nat>>)
    ensures |l| == n + 1
    ensures forall j :: 0 <= j <= n ==> l[j] == if j == 0 then free else if j == i then q else []
  {
    seq(n + 1, j => if j == 0 then free else if j == i then q else [])
  }

  lemma ListsIs(l: seq<seq<nat>>, n: nat, free: seq<nat>, i: nat, q: seq<nat>)
    requires |l| == n + 1 && forall j :: 0 <= j <= n ==> l[j] == if j == 0 then free else if j == i then q else []
    ensures l == Lists(n, free, i, q)
  {
  }

  /** Pushing a record on chain i, with the free list set to another. */
  lemma ListsPush(n: nat, free: seq<nat>, i: nat, free': seq<nat>, o: nat)
    requires 1 <= i <= n
    ensures var l := Lists(n, free, i, []); l[0 := free'][i := [o] + l[i]] == Lists(n, free', i, [o])
    ensures var l := Lists(n, free, i, []); l[i := [o] + l[i]] == Lists(n, free, i, [o])
  {
    assert [o] + [] == [o];
    ListsIs(Lists(n, free, i, [])[0 := free'][i := [o]], n, free', i, [o]);
    ListsIs(Lists(n, free, i, [])[i := [o]], n, free, i, [o]);
  }

  /** Moving the one record of chain i to the free list. */
  lemma ListsFree(n: nat, free: seq<nat>, i: nat, o: nat, i': nat)
    requires 1 <= i <= n && 1 <= i' <= n
    ensures var l := Lists(n, free, i, [o]); l[i := RemoveAt(l[i], 0)][0 := [o] + l[0]] == Lists(n, [o] + free, i', [])
  {
    assert RemoveAt([o], 0) == [];
    ListsIs(Lists(n, free, i, [o])[i := []][0 := [o] + free], n, [o] + free, i', []);
  }

  /** No chain is used. */
  lemma ListsNone(n: nat, free: seq<nat>, i: nat, i': nat)
    ensures Lists(n, free, i, []) == Lists(n, free, i', [])
  {
    ListsIs(Lists(n, free, i, []), n, free, i', []);
  }

  function Rec(size: nat, key: string, datoff: nat, datlen: nat, used: nat, free: bool): Slot {
    Slot(size, 10, key, datoff, datlen, used, free)
  }

  // ---------------------------------------------------------------- one record

  /** One record, live under key. */
  function Live1(n: nat, key: string, used: nat, dat: Bytes): State
    requires n >= 1
  {
    State(map[Pos1(n) := Rec(22, key, 0, 5, used, false)], Lists(n, [], Chain(n, key), [Pos1(n)]), Pos2(n), dat,
          seq(5, _ => Pos1(n)))
  }

  /** One record, free. */
  function Free1(n: nat, m: nat, used: nat, dat: Bytes): State {
    State(map[Pos1(n) := Rec(22, Blanks(m), 0, 5, used, true)], Lists(n, [Pos1(n)], 1, []), Pos2(n), dat,
          seq(5, _ => Pos1(n)))
  }

  lemma FirstRecord(n: nat, k: string, data: Bytes)
    requires Room(n) && Key(k, 10) && |data| == 5 && Inv(EmptyDb(n))
    ensures StoreStep(EmptyDb(n), k, data, 0) == (Returned(0, Pos1(n)), Live1(n, k, 5, data))
    ensures !Overflows(EmptyDb(n), k, data, 0)
  {
    hide Inv, Hash, Lists;
    var s := EmptyDb(n);
    var i := Chain(n, k);
    ListsIs(s.lists, n, [], i, []);
    ListsPush(n, [], i, [], Pos1(n));
    assert NewSlot(0, 0, k, 0, 5, 5) == Rec(22, k, 0, 5, 5, false);
    assert s.owner + seq(5, _ => Pos1(n)) == seq(5, _ => Pos1(n));
    assert s.dat + data == data;
  }

  lemma FreeFirst(n: nat, k: string, used: nat, dat: Bytes)
    requires n >= 1 && Inv(Live1(n, k, used, dat))
    ensures ListsOk(Live1(n, k, used, dat)) && DeleteStep(Live1(n, k, used, dat), k) == (0, Free1(n, |k|, used, dat))
  {
    hide Inv, ListsOk, Hash, Lists;
    var s := Live1(n, k, used, dat);
    InvShape(s);
    var i := Chain(n, k);
    assert s.lists[i][0] == Pos1(n) && FindKey(s.slots, s.lists[i], k) == 0;
    ListsFree(n, [], i, Pos1(n), 1);
    assert [Pos1(n)] + [] == [Pos1(n)];
    assert Freed(s.slots[Pos1(n)]) == Rec(22, Blanks(|k|), 0, 5, used, true);
    assert s.slots[Pos1(n) := Freed(s.slots[Pos1(n)])] == Free1(n, |k|, used, dat).slots;
  }

  /** A key whose chain is empty is put. */
  lemma StoresFresh(s: State, k: string, data: Bytes)
    requires Inv(s) && DataOk(data) && s.lists[ChainOf(s, k)] == []
    ensures StoreStep(s, k, data, 0) == PutStep(s, k, data, 0, 0) && !Overflows(s, k, data, 0)
  {
    hide Inv, PutStep, Hash;
    InvShape(s);
  }

  lemma ReuseFirst(n: nat, m: nat, used: nat, dat: Bytes, k: string, data: Bytes)
    requires n >= 1 && Inv(Free1(n, m, used, dat)) && |dat| == 5 && Key(k, 9) && |data| == 5
    ensures StoreStep(Free1(n, m, used, dat), k, data, 0) == (Returned(0, Pos1(n)), Live1(n, k, 5, data))
    ensures !Overflows(Free1(n, m, used, dat), k, data, 0)
  {
    hide Inv, ListsOk, Hash, Lists, StoreStep, Overflows;
    var s := Free1(n, m, used, dat);
    InvShape(s);
    var i := Chain(n, k);
    ListsNone(n, [Pos1(n)], 1, i);
    ListsPush(n, [Pos1(n)], i, [], Pos1(n));
    StoresFresh(s, k, data);
    assert FirstFit(s.slots, s.lists[0], 9, 5) == 0;
    assert Reused(s, k, data, 0) == Rec(22, k, 0, 5, 5, false);
    assert RemoveAt([Pos1(n)], 0) == [];
    assert s.slots[Pos1(n) := Rec(22, k, 0, 5, 5, false)] == Live1(n, k, 5, data).slots;
    assert Overwritten(dat, 0, data) == data;
  }

  // ---------------------------------------------------------------- two records

  function Owner2(n: nat): seq<nat> { seq(5, _ => Pos1(n)) + seq(12, _ => Pos2(n)) }

  /** The first record free; the second live under key. */
  function Live2(n: nat, key: string, used: nat, dat: Bytes): State
    requires n >= 1
  {
    State(map[Pos1(n) := Rec(22, Blanks(9), 0, 5, 5, true), Pos2(n) := Rec(23, key, 5, 12, used, false)],
          Lists(n, [Pos1(n)], Chain(n, key), [Pos2(n)]), Pos2(n) + 36, dat, Owner2(n))
  }

  /** Both records free. */
  function Free2(n: nat, dat: Bytes): State {
    State(map[Pos1(n) := Rec(22, Blanks(9), 0, 5, 5, true), Pos2(n) := Rec(23, Blanks(9), 5, 12, 12, true)],
          Lists(n, [Pos2(n), Pos1(n)], 1, []), Pos2(n) + 36, dat, Owner2(n))
  }

  lemma PutSecond(n: nat, k: string, dat: Bytes, data: Bytes)
    requires Room(n) && Inv(Free1(n, 9, 5, dat)) && |dat| == 5 && Key(k, 9) && |data| == 12
    ensures PutStep(Free1(n, 9, 5, dat), k, data, 10, 22) == (Returned(0, Pos2(n)), Live2(n, k, 12, dat + data))
  {
    hide Inv, Hash, Lists;
    var f := Free1(n, 9, 5, dat);
    var i := Chain(n, k);
    ListsNone(n, [Pos1(n)], 1, i);
    ListsPush(n, [Pos1(n)], i, [Pos1(n)], Pos2(n));
    assert FirstFit(f.slots, f.lists[0], 9, 12) == 1;
    assert NewSlot(10, 22, k, 5, 12, 12) == Rec(23, k, 5, 12, 12, false);
    assert f.slots[Pos2(n) := Rec(23, k, 5, 12, 12, false)] == Live2(n, k, 12, dat + data).slots;
  }

  /** Replacing nine-letter k's five bytes by twelve: its record is freed, and the new one, appended with the
      freed record's ten-letter column, is as tight as a nine-letter key allows. */
  lemma AppendSecond(n: nat, k: string, dat: Bytes, data: Bytes)
    requires Room(n) && Inv(Live1(n, k, 5, dat)) && |dat| == 5 && Key(k, 9) && |data| == 12
    ensures StoreStep(Live1(n, k, 5, dat), k, data, 0) == (Returned(0, Pos2(n)), Live2(n, k, 12, dat + data))
    ensures !Overflows(Live1(n, k, 5, dat), k, data, 0)
  {
    hide Inv, StoreStep, PutStep, ListsOk, Hash, Lists, Contents, Overflows, DeleteStep;
    var s := Live1(n, k, 5, dat);
    HoldsFirst(n, k, dat);
    FreeFirst(n, k, 5, dat);
    var d := StoreStepBigger(s, k, data, 0, Pos1(n));
    PutSecond(n, k, dat, data);
  }

  lemma HoldsFirst(n: nat, k: string, dat: Bytes)
    requires n >= 1
    ensures Holds(Live1(n, k, 5, dat), k, Pos1(n))
  {
    hide Hash, Lists;
    assert Live1(n, k, 5, dat).lists[Chain(n, k)][0] == Pos1(n);
  }

  lemma FreeSecond(n: nat, k: string, dat: Bytes)
    requires n >= 1 && Inv(Live2(n, k, 12, dat)) && Key(k, 9)
    ensures ListsOk(Live2(n, k, 12, dat)) && DeleteStep(Live2(n, k, 12, dat), k) == (0, Free2(n, dat))
  {
    hide Inv, ListsOk, Hash, Lists;
    var s := Live2(n, k, 12, dat);
    InvShape(s);
    var i := Chain(n, k);
    assert s.lists[i][0] == Pos2(n) && FindKey(s.slots, s.lists[i], k) == 0;
    ListsFree(n, [Pos1(n)], i, Pos2(n), 1);
    assert [Pos2(n)] + [Pos1(n)] == [Pos2(n), Pos1(n)];
    assert s.slots[Pos2(n) := Freed(s.slots[Pos2(n)])] == Free2(n, dat).slots;
  }

  /** A ten-letter key with nine bytes just fits the second record. */
  lemma ReuseSecond(n: nat, dat: Bytes, k: string, data: Bytes)
    requires n >= 1 && Inv(Free2(n, dat)) && |dat| == 17 && Key(k, 10) && |data| == 9
    ensures StoreStep(Free2(n, dat), k, data, 0) == (Returned(0, Pos2(n)), Live2(n, k, 9, Overwritten(dat, 5, data)))
    ensures !Overflows(Free2(n, dat), k, data, 0)
  {
    hide Inv, ListsOk, Hash, Lists, StoreStep, Overflows;
    var s := Free2(n, dat);
    InvShape(s);
    var i := Chain(n, k);
    ListsNone(n, [Pos2(n), Pos1(n)], 1, i);
    ListsPush(n, [Pos2(n), Pos1(n)], i, [Pos1(n)], Pos2(n));
    StoresFresh(s, k, data);
    assert FirstFit(s.slots, s.lists[0], 10, 9) == 0;
    assert Reused(s, k, data, 0) == Rec(23, k, 5, 12, 9, false);
    assert RemoveAt([Pos2(n), Pos1(n)], 0) == [Pos1(n)];
    assert s.slots[Pos2(n) := Rec(23, k, 5, 12, 9, false)] == Live2(n, k, 9, dat).slots;
  }

  /** The key's chain leads to the second record. */
  lemma FindsSecond(n: nat, dat: Bytes, k: string, used: nat)
    requires n >= 1 && Inv(Live2(n, k, used, dat))
    ensures var s := Live2(n, k, used, dat);
            && ListsOk(s) && Holds(s, k, Pos2(n)) && |s.lists[ChainOf(s, k)]| == 1
            && s.lists[ChainOf(s, k)][0] == Pos2(n) && FindKey(s.slots, s.lists[ChainOf(s, k)], k) == 0
  {
    hide Inv, ListsOk, Hash, Lists;
    var s := Live2(n, k, used, dat);
    InvShape(s);
    assert s.lists[Chain(n, k)][0] == Pos2(n);
  }

  /** Ten bytes fit its extent but lengthen its text beyond the slot. */
  lemma SecondOverflows(n: nat, dat: Bytes, k: string, data: Bytes)
    requires n >= 1 && Inv(Live2(n, k, 9, dat)) && |dat| == 17 && Key(k, 10) && |data| == 10
    ensures Holds(Live2(n, k, 9, dat), k, Pos2(n)) && Overflows(Live2(n, k, 9, dat), k, data, 0)
    ensures StoreStep(Live2(n, k, 9, dat), k, data, 0).1 == InPlaceStep(Live2(n, k, 9, dat), Pos2(n), data)
    ensures Outgrows(Rewritten(Live2(n, k, 9, dat), Pos2(n), data))
  {
    FindsSecond(n, dat, k, 9);
    hide Inv, ListsOk, Hash, Lists;
  }

  // ---------------------------------------------------------------- the run

  /** The operations that lead there. */
  function Lead(k10: string, k9: string, j10: string, d5: Bytes, e5: Bytes, d12: Bytes, d9: Bytes): seq<Op> {
    [Store(k10, d5, 0, 0)] + ([Delete(k10)] + ([Store(k9, e5, 0, 0)] + ([Store(k9, d12, 0, 0)] + ([Delete(k9)]
      + ([Store(j10, d9, 0, 0)] + [])))))
  }

  lemma RunFirst(s: State, op: Op, rest: seq<Op>, t: State)
    requires Inv(s) && OpKeyOk(op) && HintSaved(s, op) && CalmOp(s, op) && StepOp(s, op).1 == t && CalmRun(t, rest)
    ensures CalmRun(s, [op] + rest) && Run(s, [op] + rest).1 == Run(t, rest).1
  {
    hide Inv, StepOp, CalmOp;
    assert ([op] + rest)[0] == op && ([op] + rest)[1..] == rest;
  }

  /** For any two ten-letter keys, any nine-letter key and any data of these lengths, with any number of chains that
      the pointers can reach past: the lead is a run of the map, the next store returns 0, and the map then holds
      nine of its ten bytes. The number db_open creates a database with is one of these. */
  lemma OverflowReached(n: nat, k10: string, k9: string, j10: string, d5: Bytes, e5: Bytes, d12: Bytes, d9: Bytes, d10: Bytes)
    requires Room(n) && Key(k10, 10) && Key(k9, 9) && Key(j10, 10)
    requires |d5| == 5 && |e5| == 5 && |d12| == 12 && |d9| == 9 && |d10| == 10
    ensures Room(NHASH_DEF)
    ensures CalmRun(EmptyDb(n), Lead(k10, k9, j10, d5, e5, d12, d9))
    ensures var s := Run(EmptyDb(n), Lead(k10, k9, j10, d5, e5, d12, d9)).1;
            && Inv(s) && StoreStep(s, j10, d10, 0).0.Returned? && StoreStep(s, j10, d10, 0).0.rc == 0
            && |StoreStep(s, j10, d10, 0).1.lists| >= 2
            && j10 in Contents(StoreStep(s, j10, d10, 0).1) && Contents(StoreStep(s, j10, d10, 0).1)[j10] == d10[..9]
            && Contents(StoreStep(s, j10, d10, 0).1) != Contents(s)[j10 := d10]
  {
    hide Inv, Exact, StoreStep, DeleteStep, Overflows, Contents, Run, CalmRun, MapStep, Allowed, Lists;
    var s0 := EmptyDb(n);
    EmptyDbOk(n, 2);
    FirstRecord(n, k10, d5);
    var r, s1 := OpRefines(s0, Store(k10, d5, 0, 0));
    FreeFirst(n, k10, 5, d5);
    var s2;
    r, s2 := OpRefines(s1, Delete(k10));
    ReuseFirst(n, 10, 5, d5, k9, e5);
    var s3;
    r, s3 := OpRefines(s2, Store(k9, e5, 0, 0));
    AppendSecond(n, k9, e5, d12);
    var s4;
    r, s4 := OpRefines(s3, Store(k9, d12, 0, 0));
    FreeSecond(n, k9, e5 + d12);
    var s5;
    r, s5 := OpRefines(s4, Delete(k9));
    ReuseSecond(n, e5 + d12, j10, d9);
    var s6;
    r, s6 := OpRefines(s5, Store(j10, d9, 0, 0));
    EmptyRun(s6);
    RunFirst(s5, Store(j10, d9, 0, 0), [], s6);
    RunFirst(s4, Delete(k9), [Store(j10, d9, 0, 0)] + [], s5);
    RunFirst(s3, Store(k9, d12, 0, 0), [Delete(k9)] + ([Store(j10, d9, 0, 0)] + []), s4);
    RunFirst(s2, Store(k9, e5, 0, 0), [Store(k9, d12, 0, 0)] + ([Delete(k9)] + ([Store(j10, d9, 0, 0)] + [])), s3);
    RunFirst(s1, Delete(k10),
             [Store(k9, e5, 0, 0)] + ([Store(k9, d12, 0, 0)] + ([Delete(k9)] + ([Store(j10, d9, 0, 0)] + []))), s2);
    RunFirst(s0, Store(k10, d5, 0, 0), [Delete(k10)] + ([Store(k9, e5, 0, 0)] + ([Store(k9, d12, 0, 0)]
             + ([Delete(k9)] + ([Store(j10, d9, 0, 0)] + [])))), s1);
    Truncated(n, Overwritten(e5 + d12, 5, d9), j10, d10);
  }

  lemma EmptyRun(s: State)
    requires Inv(s)
    ensures CalmRun(s, []) && Run(s, []).1 == s
  {
  }

  lemma Truncated(n: nat, dat: Bytes, k: string, data: Bytes)
    requires n >= 1 && Inv(Live2(n, k, 9, dat)) && |dat| == 17 && Key(k, 10) && |data| == 10
    ensures var s := Live2(n, k, 9, dat);
            && StoreStep(s, k, data, 0).0.Returned? && StoreStep(s, k, data, 0).0.rc == 0
            && |StoreStep(s, k, data, 0).1.lists| >= 2
            && k in Contents(StoreStep(s, k, data, 0).1) && Contents(StoreStep(s, k, data, 0).1)[k] == data[..9]
            && Contents(StoreStep(s, k, data, 0).1) != Contents(s)[k := data]
  {
    hide Inv, StoreStep, InPlaceStep, Contents, Lists, Overflows, Outgrows;
    var s := Live2(n, k, 9, dat);
    SecondOverflows(n, dat, k, data);
    var t := StoreOver(s, k, data, 0, Pos2(n));
    InPlaceMeans(s, k, Pos2(n), data);
    assert Contents(s)[k := data[..9]][k] == data[..9];
  }
}
