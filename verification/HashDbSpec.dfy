/**
 * The database as a value: records by offset, the free list and the hash chains as sequences of
 * offsets, and the data bytes. Every operation is a step on this value; HashDb.dfy shows that the
 * pointer-chasing code takes exactly these steps, and HashDbTheorems.dfy what the steps mean.
 */
module HashDbSpec {
  import opened CText
  import opened Machine
  import opened IndexRecord
  import opened IndexFile

  type Bytes = seq<byte>

  /** The flag bits of db_store: 1 to insert only, 2 to replace only. */
  predicate HasInsert(flag: nat) { flag % 2 == 1 }
  predicate HasReplace(flag: nat) { (flag / 2) % 2 == 1 }

  // ---------------------------------------------------------------- hashing

  function Hash(key: string, nhash: nat): (h: nat)
    requires nhash > 0
    ensures h < nhash
  {
    Bucket(HashSum(key, 0, 0), nhash)
  }

  // ---------------------------------------------------------------- state

  /**
   * lists[0] is the free list, lists[1 + h] the chain of hash value h, heads first.
   * owner[p] is the linked record whose data extent holds byte p of the data file.
   */
  datatype State = State(
    slots: map<nat, Slot>,
    lists: seq<seq<nat>>,
    idxLen: nat,
    dat: Bytes,
    owner: seq<nat>)

  /** The list a record belongs on, if it is linked at all. */
  function HomeOf(r: Slot, nlists: nat): (i: nat)
    requires nlists >= 2
    ensures i < nlists && (r.free <==> i == 0)
  {
    if r.free then 0 else 1 + Hash(r.key, nlists - 1)
  }

  function ChainOf(s: State, key: string): (i: nat)
    requires |s.lists| >= 2
    ensures 1 <= i < |s.lists|
  {
    1 + Hash(key, |s.lists| - 1)
  }

  ghost predicate OnList(s: State, o: nat)
    requires |s.lists| >= 2
  {
    o in s.slots && o in s.lists[HomeOf(s.slots[o], |s.lists|)]
  }

  predicate InExtent(r: Slot, p: nat) { r.datoff <= p < r.datoff + r.datlen }

  predicate AllBlank(key: string) { forall c :: c in key ==> c == ' ' }

  predicate NoDup(q: seq<nat>) {
    q == [] || (q[0] !in q[1..] && NoDup(q[1..]))
  }

  // ---------------------------------------------------------------- invariant

  /** Every record prints and parses; records on the free list or cut off from it carry a blank key. */
  ghost predicate SlotsOk(s: State) {
    && (forall o :: o in s.slots ==> Printable(s.slots[o]))
    && (forall o :: o in s.slots && s.slots[o].free ==> AllBlank(s.slots[o].key))
  }

  /** Lists are duplicate-free and hold only their own records, so no record is on two lists. */
  ghost predicate ListsOk(s: State) {
    && |s.lists| >= 2
    && (forall i, o :: 0 <= i < |s.lists| && o in s.lists[i] ==>
          o in s.slots && HomeOf(s.slots[o], |s.lists|) == i && o <= PTR_MAX)
    && (forall i :: 0 <= i < |s.lists| ==> NoDup(s.lists[i]))
  }

  ghost predicate KeysOk(s: State) {
    forall i, o, q ::
      (&& 1 <= i < |s.lists| && o in s.lists[i] && q in s.lists[i] && o in s.slots && q in s.slots
       && s.slots[o].key == s.slots[q].key) ==> o == q
  }

  /** The extents of the linked records tile the data file: byte p lies in exactly owner[p]'s extent. */
  ghost predicate Owned(s: State)
    requires |s.lists| >= 2
  {
    && |s.owner| == |s.dat| <= DATA_FILELEN_MAX
    && (forall p :: 0 <= p < |s.owner| ==> OnList(s, s.owner[p]))
    && (forall o :: OnList(s, o) ==> s.slots[o].datoff + s.slots[o].datlen <= |s.dat|)
    && (forall o, p :: OnList(s, o) && 0 <= p < |s.owner| ==> (s.owner[p] == o <==> InExtent(s.slots[o], p)))
  }

  /** A place where a record starts, or the end of the file. */
  predicate Boundary(s: State, o: nat) {
    o in s.slots || o == s.idxLen
  }

  predicate EndsAtBoundary(s: State, o: nat) {
    o in s.slots ==> Boundary(s, End(o, s.slots[o]))
  }

  /** Each record ends where the next begins or where the file ends. */
  ghost predicate Contiguous(s: State) {
    && Boundary(s, Start(|s.lists|))
    && (forall o {:trigger EndsAtBoundary(s, o)} :: EndsAtBoundary(s, o))
  }

  ghost predicate Inv(s: State) {
    && ListsOk(s) && SlotsOk(s) && KeysOk(s) && Owned(s)
    && Laid(s.slots, |s.lists|, s.idxLen) && Contiguous(s)
  }

  /** No live record outside the chains; broken only by an in-place rewrite that outgrows its slot. */
  ghost predicate Exact(s: State)
    requires |s.lists| >= 2
  {
    forall o :: o in s.slots && !s.slots[o].free ==> OnList(s, o)
  }

  predicate KeyOk(key: string) { NUL !in key && |key| <= KEY_MAX }

  // ---------------------------------------------------------------- searching

  /** Position of the first record on a chain with this key, or the chain's length. */
  function FindKey(slots: map<nat, Slot>, q: seq<nat>, key: string): (a: nat)
    requires forall o :: o in q ==> o in slots
    ensures a <= |q|
    ensures a < |q| ==> slots[q[a]].key == key
    ensures forall b :: 0 <= b < a ==> slots[q[b]].key != key
  {
    if q == [] then 0
    else if slots[q[0]].key == key then 0
    else
      assert forall b :: 1 <= b < |q| ==> q[b] == q[1..][b - 1];
      1 + FindKey(slots, q[1..], key)
  }

  /** The size test of the allocator: big enough, but not wastefully bigger. */
  predicate Fits(area: nat, datlen: nat, keylen: nat, n: nat) {
    area >= keylen && area < keylen + IDX_RANGE && datlen >= n && datlen < n + DAT_RANGE
  }

  /** First fit on the free list, or its length. */
  function FirstFit(slots: map<nat, Slot>, q: seq<nat>, keylen: nat, n: nat): (a: nat)
    requires forall o :: o in q ==> o in slots
    ensures a <= |q|
    ensures a < |q| ==> Fits(slots[q[a]].area, slots[q[a]].datlen, keylen, n)
    ensures forall b :: 0 <= b < a ==> !Fits(slots[q[b]].area, slots[q[b]].datlen, keylen, n)
  {
    if q == [] then 0
    else if Fits(slots[q[0]].area, slots[q[0]].datlen, keylen, n) then 0
    else
      assert forall b :: 1 <= b < |q| ==> q[b] == q[1..][b - 1];
      1 + FirstFit(slots, q[1..], keylen, n)
  }

  // ---------------------------------------------------------------- steps

  function RemoveAt(q: seq<nat>, a: nat): seq<nat>
    requires a < |q|
  {
    q[..a] + q[a + 1..]
  }

  /** pwrite into the data file. */
  function Overwritten(dat: Bytes, o: nat, data: Bytes): (r: Bytes)
    requires o + |data| <= |dat|
    ensures |r| == |dat|
  {
    dat[..o] + data + dat[o + |data|..]
  }

  function Max(a: nat, b: nat): nat { if a < b then b else a }

  function Freed(r: Slot): Slot {
    r.(key := Blanks(|r.key|), free := true)
  }

  /** Unlink the a-th record of chain i and push it on the free list. */
  function DeleteAt(s: State, i: nat, a: nat): State
    requires 1 <= i < |s.lists| && a < |s.lists[i]| && s.lists[i][a] in s.slots
  {
    var o := s.lists[i][a];
    s.(slots := s.slots[o := Freed(s.slots[o])],
       lists := s.lists[i := RemoveAt(s.lists[i], a)][0 := [o] + s.lists[0]])
  }

  function DeleteStep(s: State, key: string): (r: (int, State))
    requires ListsOk(s)
    ensures |r.1.lists| == |s.lists|
  {
    var i := ChainOf(s, key);
    var a := FindKey(s.slots, s.lists[i], key);
    if a == |s.lists[i]| then (-1, s) else (0, DeleteAt(s, i, a))
  }

  /** The record as _db_writeidx prints it: a key column at least as wide as the key, and a slot no
      smaller than minSize. */
  function NewSlot(width: nat, minSize: nat, key: string, datoff: nat, datlen: nat, used: nat): Slot {
    var r := Slot(0, Max(width, |key|), key, datoff, datlen, used, false);
    r.(size := Max(minSize, TextLen(r)))
  }

  /** Put r at the end of the index file and at the head of list i. */
  function PushNew(s: State, i: nat, r: Slot): State
    requires i < |s.lists|
  {
    s.(slots := s.slots[s.idxLen := r],
       lists := s.lists[i := [s.idxLen] + s.lists[i]],
       idxLen := End(s.idxLen, r))
  }

  function AppendStep(s: State, key: string, data: Bytes, width: nat, minSize: nat): State
    requires |s.lists| >= 2
  {
    var r := NewSlot(width, minSize, key, |s.dat|, |data|, |data|);
    PushNew(s, ChainOf(s, key), r).(dat := s.dat + data, owner := s.owner + seq(|data|, _ => s.idxLen))
  }

  /** What the a-th free record becomes when it is given to key and data. */
  function Reused(s: State, key: string, data: Bytes, a: nat): Slot
    requires |s.lists| >= 2 && a < |s.lists[0]| && s.lists[0][a] in s.slots
  {
    s.slots[s.lists[0][a]].(key := key, used := |data|, free := false)
  }

  predicate Outgrows(r: Slot) { TextLen(r) > r.size }

  function NewOwner(owner: seq<nat>, o: nat, o': nat): (r: seq<nat>)
    ensures |r| == |owner| && forall p :: 0 <= p < |r| ==> r[p] == if owner[p] == o then o' else owner[p]
  {
    seq(|owner|, p requires 0 <= p < |owner| => if owner[p] == o then o' else owner[p])
  }

  /** Take the a-th free record for key; a text that outgrows the slot goes to the end of the file,
      taking the data extent along and leaving the old slot unlinked. */
  function ReuseStep(s: State, key: string, data: Bytes, a: nat): State
    requires ListsOk(s) && a < |s.lists[0]|
    requires s.slots[s.lists[0][a]].datoff + |data| <= |s.dat|
  {
    var o := s.lists[0][a];
    var r := Reused(s, key, data, a);
    var i := ChainOf(s, key);
    var t := s.(lists := s.lists[0 := RemoveAt(s.lists[0], a)], dat := Overwritten(s.dat, r.datoff, data));
    if !Outgrows(r) then t.(slots := t.slots[o := r], lists := t.lists[i := [o] + t.lists[i]])
    else PushNew(t, i, r.(size := TextLen(r))).(owner := NewOwner(s.owner, o, s.idxLen))
  }

  /** Overwrite record o's data where it is; a text that outgrows the slot is written at the end of the
      file, where no chain leads. */
  function InPlaceStep(s: State, o: nat, data: Bytes): State
    requires o in s.slots && s.slots[o].datoff + |data| <= |s.dat|
  {
    var r := s.slots[o].(used := |data|);
    var t := s.(dat := Overwritten(s.dat, r.datoff, data));
    if !Outgrows(r) then t.(slots := t.slots[o := r])
    else
      var r' := r.(size := TextLen(r));
      t.(slots := t.slots[s.idxLen := r'], idxLen := End(s.idxLen, r'))
  }

  /** Returned(rc, pos): db_store's result and the record offset it reports; Died: mylog_fatal on a
      record offset no chain pointer can hold. */
  datatype Outcome = Returned(rc: int, pos: nat) | Died

  /** _db_is_enough_file_space; the index estimate counts the key only. */
  predicate EnoughSpace(s: State, keylen: nat, n: nat) {
    |s.dat| + n <= DATA_FILELEN_MAX && s.idxLen + keylen <= PTR_MAX
  }

}
