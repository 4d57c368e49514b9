/**
 * db.cpp: the index file as text, the data file, and the in-memory mirror of the free list, changed by
 * positioned writes and pointer chasing exactly as the C code changes them.
 */
module HashDb {
  import opened CText
  import opened Machine
  import opened IndexRecord
  import opened IndexFile
  import opened HashDbSpec
  import opened HashDbInv
  import opened HashDbOps
  import opened HashDbTheorems
  import opened HashDbLinks
  import opened HashDbScan
  import opened HashDbRuns

  /** A node of the in-memory free list. */
  class FSDBD {
    const offset: nat
    const datlen: nat
    const area: nat
    var next: FSDBD?
    var prev: FSDBD?

    constructor (offset: nat, datlen: nat, area: nat)
      ensures this.offset == offset && this.datlen == datlen && this.area == area
      ensures next == null && prev == null
    {
      this.offset, this.datlen, this.area := offset, datlen, area;
      next, prev := null, null;
    }
  }

  function NodeAt(nodes: seq<FSDBD>, a: nat): FSDBD? {
    if a < |nodes| then nodes[a] else null
  }

  ghost predicate NodeLinked(nodes: seq<FSDBD>, a: nat)
    requires a < |nodes|
    reads nodes[a]
  {
    nodes[a].next == NodeAt(nodes, a + 1) && nodes[a].prev == if a == 0 then null else nodes[a - 1]
  }

  /** A doubly linked list of exactly these nodes, in this order. */
  ghost predicate NodesLinked(head: FSDBD?, nodes: seq<FSDBD>)
    reads nodes
  {
    && head == NodeAt(nodes, 0)
    && (forall a :: 0 <= a < |nodes| ==> NodeLinked(nodes, a))
    && (forall a, b :: 0 <= a < b < |nodes| ==> nodes[a] != nodes[b])
  }

  ghost predicate GrowNode(h: FSDBD, ns: seq<FSDBD>, k: nat)
    requires k < |ns|
    reads ns[k]
  {
    ns[k].next == NodeAt(ns, k + 1) && ns[k].prev == if k == 0 then h else ns[k - 1]
  }

  /** The list under construction at open: a sentinel h in front of the nodes read so far. */
  ghost predicate Growing(h: FSDBD, last: FSDBD, ns: seq<FSDBD>)
    reads h, ns
  {
    && h !in ns && h.next == NodeAt(ns, 0) && last == (if ns == [] then h else ns[|ns| - 1])
    && (forall k :: 0 <= k < |ns| ==> GrowNode(h, ns, k))
    && (forall k, l :: 0 <= k < l < |ns| ==> ns[k] != ns[l])
  }

  method LinkNode(h: FSDBD, last: FSDBD, item: FSDBD, ghost ns: seq<FSDBD>)
    requires Growing(h, last, ns) && item !in ns && item != h && item.next == null
    modifies last, item
    ensures Growing(h, item, ns + [item])
  {
    item.prev := last;
    last.next := item;
    ghost var ms := ns + [item];
    forall k | 0 <= k < |ms| ensures GrowNode(h, ms, k) {
      if k < |ns| {
        assert old(GrowNode(h, ns, k));
        assert ms[k] == ns[k] && (k + 1 < |ns| ==> ns[k] != last);
      }
    }
  }

  /** Dropping the sentinel leaves the list itself. */
  method DropSentinel(h: FSDBD, last: FSDBD, ghost ns: seq<FSDBD>) returns (head: FSDBD?)
    requires Growing(h, last, ns)
    modifies set n | n in ns
    ensures NodesLinked(head, ns)
  {
    head := h.next;
    assert |ns| > 0 ==> ns[0] in ns;
    if head != null {
      head.prev := null;
    }
    forall k | 0 <= k < |ns| ensures NodeLinked(ns, k) {
      assert old(GrowNode(h, ns, k));
    }
  }

  /** The nodes hold, in order, the offsets and sizes of the free records on disk. */
  ghost predicate NodesMirror(nodes: seq<FSDBD>, slots: map<nat, Slot>, q: seq<nat>) {
    && |nodes| == |q|
    && (forall a :: 0 <= a < |q| ==>
          && q[a] in slots && nodes[a].offset == q[a]
          && nodes[a].datlen == slots[q[a]].datlen && nodes[a].area == slots[q[a]].area)
  }

  /** The record buffer a call carries around (struct DBD), passed in and handed back. */
  datatype DBD = DBD(idxoff: nat, datoff: nat, datlen: nat, chainoff: nat, ptroff: nat, ptrval: int, idxlen: nat,
                     free: bool, used: nat, area: nat, key: string)

  /** dbd_alloc: a zeroed buffer. */
  const BLANK := DBD(0, 0, 0, 0, 0, 0, 0, false, 0, 0, "")

  /** What _db_readidx leaves in the buffer for record r at offset o. */
  function Filled(d: DBD, o: nat, ptrval: int, r: Slot): DBD {
    d.(idxoff := o, ptrval := ptrval, idxlen := r.size, area := r.area, key := r.key,
       datoff := r.datoff, datlen := r.datlen, used := r.used, free := r.free)
  }

  /** _db_copy: everything but the flag and the two chain positions. */
  function Copied(src: DBD, des: DBD): DBD {
    des.(datlen := src.datlen, idxlen := src.idxlen, used := src.used, area := src.area, idxoff := src.idxoff,
         datoff := src.datoff, ptrval := src.ptrval, key := src.key)
  }

  /** The record the buffer describes. */
  function AsSlot(d: DBD, key: string): Slot {
    Slot(d.idxlen, Max(d.area, |key|), key, d.datoff, d.datlen, d.used, d.free)
  }

  /** The record _db_writeidx prints: never shorter than the slot the buffer came from. */
  function Printed(d: DBD, key: string): Slot {
    AsSlot(d, key).(size := Max(d.idxlen, TextLen(AsSlot(d, key))))
  }

  predicate BufferOk(d: DBD, key: string) {
    && KeyOk(key) && d.area <= KEY_MAX && d.idxlen <= IDXLEN_MAX
    && d.used <= d.datlen <= DATLEN_MAX && d.datoff + d.datlen <= DATA_FILELEN_MAX
  }

  lemma PrintedPrintable(d: DBD, key: string)
    requires BufferOk(d, key)
    ensures Printable(Printed(d, key)) && TextLen(Printed(d, key)) == TextLen(AsSlot(d, key))
    ensures IDXLEN_MIN <= TextLen(AsSlot(d, key)) <= IDXLEN_MAX
  {
    FitsIdxLenMax(AsSlot(d, key));
  }

  /** A buffer marked free prints, under a blanked key, the freed record in its own slot. */
  lemma FreedPrinted(d: DBD, r: Slot)
    requires Printable(r) && d.free && d.idxlen == r.size && d.area == r.area && d.datoff == r.datoff
    requires d.datlen == r.datlen && d.used == r.used && d.key == r.key
    ensures BufferOk(d, Blanks(|d.key|)) && Printed(d, Blanks(|d.key|)) == Freed(r)
    ensures TextLen(AsSlot(d, Blanks(|d.key|))) <= d.idxlen
  {
    FreedPrintable(r);
    assert AsSlot(d, Blanks(|d.key|)) == Freed(r);
    assert NUL !in Blanks(|d.key|);
  }

  lemma PrintedIsNew(d: DBD, key: string)
    requires !d.free
    ensures Printed(d, key) == NewSlot(d.area, d.idxlen, key, d.datoff, d.datlen, d.used)
  {
    var r := AsSlot(d, key);
    assert r.(size := 0) == Slot(0, Max(d.area, |key|), key, d.datoff, d.datlen, d.used, false);
    assert TextLen(r) == TextLen(r.(size := 0));
  }

  /** A buffer that took free record r and was given n bytes prints the reused record. */
  lemma PrintedIsReused(d: DBD, key: string, r: Slot, n: nat)
    requires !d.free && d.idxlen == r.size && d.area == r.area && d.datoff == r.datoff && d.datlen == r.datlen && d.used == n
    requires Printable(r) && KeyOk(key) && |key| <= r.area && n <= r.datlen
    ensures BufferOk(d, key)
    ensures var u := r.(key := key, used := n, free := false);
            && AsSlot(d, key) == u
            && Printed(d, key) == (if Outgrows(u) then u.(size := TextLen(u)) else u)
  {
  }

  /** Pushing a node for a record pushed on the list keeps the mirror. */
  lemma MirrorPush(nodes: seq<FSDBD>, slots: map<nat, Slot>, q: seq<nat>, n: FSDBD, o: nat, r: Slot)
    requires NodesMirror(nodes, slots, q) && o !in q
    requires n.offset == o && n.datlen == r.datlen && n.area == r.area
    ensures NodesMirror([n] + nodes, slots[o := r], [o] + q)
  {
    forall a | 0 <= a < |q| + 1
      ensures var x := ([o] + q)[a]; var y := ([n] + nodes)[a];
              x in slots[o := r] && y.offset == x && y.datlen == slots[o := r][x].datlen && y.area == slots[o := r][x].area
    {
      if a > 0 { assert q[a - 1] in q; }
    }
  }

  lemma MirrorStart(slots: map<nat, Slot>)
    ensures NodesMirror([], slots, [])
  {
  }

  lemma GrowingStart(h: FSDBD)
    requires h.next == null
    ensures Growing(h, h, [])
  {
  }

  lemma MirrorAppend(nodes: seq<FSDBD>, slots: map<nat, Slot>, q: seq<nat>, n: FSDBD, o: nat)
    requires NodesMirror(nodes, slots, q) && o in slots
    requires n.offset == o && n.datlen == slots[o].datlen && n.area == slots[o].area
    ensures NodesMirror(nodes + [n], slots, q + [o])
  {
  }

  lemma MirrorRemove(nodes: seq<FSDBD>, slots: map<nat, Slot>, q: seq<nat>, a: nat)
    requires NodesMirror(nodes, slots, q) && a < |q|
    ensures NodesMirror(nodes[..a] + nodes[a + 1..], slots, RemoveAt(q, a))
  {
  }

  /** Records off the list do not matter to the mirror. */
  lemma MirrorKept(nodes: seq<FSDBD>, slots: map<nat, Slot>, q: seq<nat>, o: nat, r: Slot)
    requires NodesMirror(nodes, slots, q) && o !in q
    ensures NodesMirror(nodes, slots[o := r], q)
  {
    forall a | 0 <= a < |q| ensures q[a] != o {
      assert q[a] in q;
    }
  }

  /** The C buffer, printed with the width it carries and padded, is the record's stored text. */
  lemma PrintedText(d: DBD, key: string)
    requires BufferOk(d, key)
    ensures var r := Slot(0, d.area, key, d.datoff, d.datlen, d.used, d.free);
            var len := |Line(r)| + 1;
            && len == TextLen(AsSlot(d, key))
            && Line(r) + Blanks(if d.idxlen > len then d.idxlen - len else 0) + ['\n'] == Body(Printed(d, key))
  {
    var r := Slot(0, d.area, key, d.datoff, d.datlen, d.used, d.free);
    var p := Printed(d, key);
    PrintedPrintable(d, key);
    LineLength(r);
    assert PadRight(d.area, key) == PadRight(p.area, key);
    assert Line(r) == Line(p);
  }

  /** The sprintf and padding of _db_writeidx: the text, and whether it outgrew the buffer's slot. */
  method PrintBuffer(d: DBD, key: string) returns (text: string, grown: bool)
    requires BufferOk(d, key)
    ensures text == Body(Printed(d, key)) && |text| == Printed(d, key).size
    ensures IDXLEN_MIN <= |text| <= IDXLEN_MAX
    ensures grown <==> TextLen(AsSlot(d, key)) > d.idxlen
  {
    PrintedText(d, key);
    PrintedPrintable(d, key);
    BodyLength(Printed(d, key));
    text := Line(Slot(0, d.area, key, d.datoff, d.datlen, d.used, d.free)) + ['\n'];
    grown := false;
    if d.idxlen > |text| {
      text := text[..|text| - 1] + Blanks(d.idxlen - |text|) + ['\n'];
    } else if d.idxlen < |text| {
      grown := true;
    }
  }

  class Db {
    const nhash: nat
    var idx: string
    var dat: Bytes
    var idxLen: nat
    var datLen: nat
    var freeList: FSDBD?

    // what the two files stand for
    ghost var ptrs: map<nat, nat>
    ghost var slots: map<nat, Slot>
    ghost var lists: seq<seq<nat>>
    ghost var owner: seq<nat>
    ghost var nodes: seq<FSDBD>

    ghost function Value(): State
      reads this
    {
      State(slots, lists, idxLen, dat, owner)
    }

    /** The index file is the text of the pointer cells and records. */
    ghost predicate TextValid()
      reads this`idx, this`idxLen, this`ptrs, this`slots
    {
      idxLen == |idx| && TextOk(idx, ptrs, slots, nhash + 1)
    }

    // -------------------------------------------------------------- file access

    /** _db_readptr */
    method ReadPtr(off: nat) returns (v: nat)
      requires TextValid() && off in ptrs
      ensures v == ptrs[off] && v <= PTR_MAX
    {
      assert CellIs(idx, off, ptrs[off]);
      PtrTextReads(ptrs[off]);
      v := Atol(idx[off..off + PTR_SZ]);
    }

    /** _db_writeptr; an offset that does not fit the cell is fatal. */
    method WritePtr(off: nat, v: int) returns (alive: bool)
      requires TextValid() && off in ptrs
      modifies this`idx, this`ptrs
      ensures TextValid()
      ensures alive <==> 0 <= v <= PTR_MAX
      ensures alive ==> ptrs == old(ptrs)[off := v] && off <= |old(idx)| && idx == Splice(old(idx), off, PtrText(v))
      ensures !alive ==> ptrs == old(ptrs) && idx == old(idx)
    {
      alive := 0 <= v <= PTR_MAX;
      if !alive { return; }
      WriteCell(idx, ptrs, slots, nhash + 1, off, v);
      PtrTextReads(v);
      assert CellIs(idx, off, ptrs[off]);
      idx := Splice(idx, off, PtrText(v));
      ptrs := ptrs[off := v];
    }

    /** _db_readidx: the record at off, or a negative result at the end of the file. */
    method ReadIdx(d: DBD, off: nat) returns (ret: int, e: DBD, next: nat)
      requires TextValid() && (off in slots || off >= |idx|)
      ensures off in slots ==> off in ptrs && ret == ptrs[off] && ret >= 0 && e == Filled(d, off, ptrs[off], slots[off])
                               && next == End(off, slots[off])
      ensures ret == -1 <==> off >= |idx|
    {
      e := d.(idxoff := off);
      if off in slots {
        ReadsBack(idx, ptrs, slots, nhash + 1, off);
      }
      StopsAtEnd(idx, ptrs, slots, nhash + 1, off);
      next := 0;
      match ReadRecord(idx, off)
      case Bad => ret := -1;
      case Good(ptrval, r) =>
        e := Filled(d, off, ptrval, r);
        ret := ptrval;
        next := End(off, r);
    }

    /** The two positioned writes of _db_writeidx: pointer and length, then the text. */
    method WriteAt(offset: nat, ptrval: nat, text: string, ghost r: Slot)
      requires TextOk(idx, ptrs, slots, nhash + 1) && ptrval <= PTR_MAX
      requires Printable(r) && text == Body(r) && |text| == r.size
      requires offset == |idx| || (offset in slots && slots[offset].size == r.size)
      modifies this`idx, this`ptrs, this`slots
      ensures TextOk(idx, ptrs, slots, nhash + 1)
      ensures |idx| == if offset == |old(idx)| then End(offset, r) else |old(idx)|
      ensures slots == old(slots)[offset := r] && ptrs == old(ptrs)[offset := ptrval]
    {
      hide *;
      TwoWrites(idx, ptrs, slots, nhash + 1, offset, ptrval, r);
      idx := Splice(idx, offset, PtrText(ptrval) + LenText(|text|));
      idx := Splice(idx, offset + PREFIX, text);
      slots, ptrs := slots[offset := r], ptrs[offset := ptrval];
    }

    lemma PtrInRange(p: nat)
      requires TextValid() && p in ptrs
      ensures ptrs[p] <= PTR_MAX
    {
      assert CellIs(idx, p, ptrs[p]);
    }

    lemma EndIsFree()
      requires TextValid()
      ensures idxLen !in slots && idxLen !in ptrs && idxLen >= Start(nhash + 1)
    {
    }

    /** _db_writeidx: print the buffer under key, in its slot when it fits, else at the end of the file. */
    method WriteIdx(d: DBD, key: string, off: nat, atEnd: bool, ptrval: int) returns (ret: int, e: DBD)
      requires TextValid() && BufferOk(d, key) && 0 <= ptrval <= PTR_MAX
      requires atEnd || (off in slots && slots[off].size == d.idxlen)
      modifies this`idx, this`idxLen, this`ptrs, this`slots
      ensures TextValid() && ret == 0
      ensures var append := atEnd || TextLen(AsSlot(d, key)) > d.idxlen;
              var o := if append then old(idxLen) else off;
              && e == d.(ptrval := ptrval, idxoff := o)
              && slots == old(slots)[o := Printed(d, key)] && ptrs == old(ptrs)[o := ptrval]
              && idxLen == (if append then End(o, Printed(d, key)) else old(idxLen))
              && (append ==> o !in old(slots) && o !in old(ptrs) && o >= Start(nhash + 1))
    {
      e := d.(ptrval := ptrval);
      if ptrval < 0 || ptrval > PTR_MAX {
        assert false;
      }
      var text, append := PrintBuffer(d, key);
      append := append || atEnd;
      var offset := off;
      ghost var r := Printed(d, key);
      PrintedPrintable(d, key);
      EndIsFree();
      assert !append ==> r.size == d.idxlen;
      hide TextLen, Printed, AsSlot, Body, Line, Laid, TextOk, Printable;
      if append {
        offset := idxLen;
        idxLen := idxLen + |text| + PREFIX;
      }
      e := e.(idxoff := offset);
      WriteAt(offset, ptrval, text, r);
      ret := 0;
    }
  
    // -------------------------------------------------------------- the free list in memory

    ghost predicate CacheOk()
      reads this`freeList, this`nodes, this`slots, this`lists, nodes
    {
      |lists| >= 1 && NodesLinked(freeList, nodes) && NodesMirror(nodes, slots, lists[0])
    }

    /** _db_cache_add: push a node for the buffer's record. */
    method CacheAdd(d: DBD)
      requires NodesLinked(freeList, nodes)
      modifies this`freeList, this`nodes, nodes
      ensures |nodes| >= 1 && fresh(nodes[0]) && nodes == [nodes[0]] + old(nodes)
      ensures nodes[0].offset == d.idxoff && nodes[0].datlen == d.datlen && nodes[0].area == d.area
      ensures NodesLinked(freeList, nodes)
    {
      ghost var was := nodes;
      assert |was| > 0 ==> NodeLinked(was, 0);
      var item := new FSDBD(d.idxoff, d.datlen, d.area);
      if freeList != null {
        freeList.prev := item;
        item.next := freeList;
      }
      freeList := item;
      nodes := [item] + was;
      forall k | 0 <= k < |nodes| ensures NodeLinked(nodes, k) {
        if k > 0 {
          assert old(NodeLinked(was, k - 1));
          assert nodes[k] == was[k - 1];
        }
      }
    }

    /** _db_cache_delete: unlink one node. */
    method CacheDelete(item: FSDBD, ghost a: nat)
      requires NodesLinked(freeList, nodes) && a < |nodes| && nodes[a] == item
      modifies this`freeList, this`nodes, nodes
      ensures nodes == old(nodes)[..a] + old(nodes)[a + 1..]
      ensures NodesLinked(freeList, nodes)
    {
      ghost var was := nodes;
      assert NodeLinked(was, a);
      assert a > 0 ==> NodeLinked(was, a - 1) && was[a - 1] in was;
      assert a + 1 < |was| ==> NodeLinked(was, a + 1) && was[a + 1] in was;
      if item.prev != null {
        item.prev.next := item.next;
        if item.next != null {
          item.next.prev := item.prev;
        }
      } else {
        freeList := item.next;
        if freeList != null {
          freeList.prev := null;
        }
      }
      nodes := was[..a] + was[a + 1..];
      forall k | 0 <= k < |nodes| ensures NodeLinked(nodes, k) {
        var o := if k < a then k else k + 1;
        assert old(NodeLinked(was, o));
        assert was[o] == nodes[k];
      }
    }

    // -------------------------------------------------------------- the whole database

    /** Text, pointers, records, data and cache agree. */
    ghost predicate Valid()
      reads this, nodes
    {
      && nhash >= 1 && |lists| == nhash + 1 && datLen == |dat|
      && TextValid() && Linked(ptrs, lists) && Inv(Value()) && CacheOk()
    }

    /** _db_hash */
    method HashKey(key: string) returns (h: nat)
      requires nhash >= 1
      ensures h == Hash(key, nhash)
    {
      var hval: nat, i: nat := 0, 1;
      while i - 1 < |key|
        invariant 1 <= i <= |key| + 1
        invariant HashSum(key, 0, 0) == HashSum(key, i - 1, hval)
      {
        hval := (hval + SignedByte(key[i - 1] as int) * i) % TWO64;
        i := i + 1;
      }
      BucketIsMod(hval, nhash);
      h := hval % nhash;
    }
  
    // -------------------------------------------------------------- finding a key

    /** A saved position is safe to use for key: it is a record boundary, and if the record there has this
        key it is the key's live record. */
    ghost predicate HintOk(key: string, hint: nat)
      requires |lists| >= 2
      reads this
    {
      hint == 0 || hint >= |idx| || (hint in slots && (slots[hint].key == key ==> Holds(Value(), key, hint)))
    }

    /** The buffer describes record o. */
    ghost predicate Describes(d: DBD, o: nat)
      reads this`slots, this`ptrs
    {
      && o in slots && o in ptrs && d.idxoff == o && d.ptrval == ptrs[o] && d.idxlen == slots[o].size
      && d.area == slots[o].area && d.key == slots[o].key && d.datoff == slots[o].datoff
      && d.datlen == slots[o].datlen && d.used == slots[o].used
    }

    /** a is where the walk along list i for key stopped. */
    ghost predicate Stopped(key: string, i: nat, a: nat, found: bool)
      reads this`slots, this`lists
    {
      && i < |lists| && a <= |lists[i]| && (found <==> a < |lists[i]|)
      && (forall b :: 0 <= b < |lists[i]| ==> lists[i][b] in slots)
      && (forall b :: 0 <= b < a ==> slots[lists[i][b]].key != key)
      && (found ==> slots[lists[i][a]].key == key)
    }

    /** The loop of _db_find. */
    method WalkChain(key: string, d0: DBD, ghost i: nat) returns (found: bool, d: DBD, ghost a: nat)
      requires TextValid() && Linked(ptrs, lists) && i < |lists| && d0.ptroff == HeadCell(i)
      requires forall o :: o in lists[i] ==> o in slots
      ensures Stopped(key, i, a, found)
      ensures found ==> Describes(d, lists[i][a]) && d.ptroff == CellBefore(lists, i, a)
      ensures if found then d.chainoff == d0.chainoff && d.free == d0.free else d == d0.(ptroff := d.ptroff)
    {
      hide TextValid, Linked;
      a := 0;
      ghost var q := lists[i];
      WalkStep(ptrs, lists, i, 0);
      var offset := ReadPtr(d0.ptroff);
      d := d0;
      var e := BLANK;
      while offset > 0
        invariant a <= |q| && offset == (if a < |q| then q[a] else 0) && (offset > 0 <==> a < |q|)
        invariant forall b :: 0 <= b < a ==> slots[q[b]].key != key
        invariant d == d0.(ptroff := if a == 0 then HeadCell(i) else q[a - 1])
        decreases |q| - a
      {
        assert q[a] in q;
        var ret, next;
        ret, e, next := ReadIdx(e, offset);
        if e.key == key {
          d := Copied(e, d);
          break;
        }
        d := d.(ptroff := offset);
        WalkStep(ptrs, lists, i, a + 1);
        offset := ret;
        a := a + 1;
      }
      found := offset > 0;
    }

    /** _db_find: through the saved position if it holds the key, else along the chain. */
    method Find(key: string, hint: nat) returns (found: bool, d: DBD)
      requires Valid() && HintOk(key, hint)
      ensures var i := ChainOf(Value(), key);
              var a := FindKey(slots, lists[i], key);
              && d.chainoff == HeadCell(i) && !d.free
              && (found <==> a < |lists[i]|)
              && (found ==> Describes(d, lists[i][a]))
              && (found && hint == 0 ==> d.ptroff == CellBefore(lists, i, a))
              && (!found ==> d.area == 0 && d.idxlen == 0)
    {
      hide Inv, Linked, CacheOk, TextOk, Hash, Holds;
      ghost var i := ChainOf(Value(), key);
      ListMembers(Value(), i);
      if hint in slots && Holds(Value(), key, hint) { HintFound(Value(), key, hint); }
      var h := HashKey(key);
      d := BLANK.(chainoff := HeadCell(h + 1), ptroff := HeadCell(h + 1));
      if hint != 0 {
        var ret, e, next := ReadIdx(BLANK, hint);
        if ret >= 0 {
          if e.key == key {
            d := Copied(e, d);
            found := true;
            return;
          }
        }
      }
      ghost var a;
      found, d, a := WalkChain(key, d, i);
    }
  
    // -------------------------------------------------------------- deletion

    /** The loop of _db_dodelete that blanks the key in its buffer. */
    method BlankKey(key: string) returns (s: string)
      ensures s == Blanks(|key|)
    {
      s := key;
      var p := 0;
      while p < |s|
        invariant p <= |s| == |key|
        invariant forall k :: 0 <= k < p ==> s[k] == ' '
      {
        s := s[p := ' '];
        p := p + 1;
      }
    }

    /** The writes of _db_dodelete: record, free head, and the cell that pointed to the record. */
    method FreeOnDisk(d: DBD, ghost o: nat) returns (e: DBD)
      requires TextValid() && Describes(d, o) && Printable(slots[o]) && o <= PTR_MAX
      requires HeadCell(0) in ptrs && d.ptroff in ptrs && o != HeadCell(0)
      modifies this`idx, this`idxLen, this`ptrs, this`slots
      ensures TextValid() && idxLen == old(idxLen)
      ensures slots == old(slots)[o := Freed(old(slots[o]))]
      ensures ptrs == old(ptrs)[o := old(ptrs[HeadCell(0)])][HeadCell(0) := o][d.ptroff := old(ptrs[o])]
      ensures e.idxoff == o && e.datlen == old(slots[o].datlen) && e.area == old(slots[o].area)
    {
      hide TextValid, Printed, AsSlot, Freed, TextLen, Printable, HeadCell;
      PtrInRange(o);
      var key := BlankKey(d.key);
      var freeptr := ReadPtr(HeadCell(0));
      var saveptr := d.ptrval;
      e := d.(free := true);
      FreedPrinted(e, slots[o]);
      var ret;
      ret, e := WriteIdx(e, key, e.idxoff, false, freeptr);
      var alive := WritePtr(HeadCell(0), e.idxoff);
      alive := WritePtr(e.ptroff, saveptr);
    }

    /** _db_dodelete, on the record the buffer describes. */
    method DoDelete(d: DBD, ghost i: nat, ghost a: nat)
      requires Valid() && 1 <= i < |lists| && a < |lists[i]|
      requires Describes(d, lists[i][a]) && d.ptroff == CellBefore(lists, i, a)
      modifies this, nodes
      ensures old(lists[i][a] in slots) && Value() == DeleteAt(old(Value()), i, a)
      ensures fresh(set n | n in nodes && n !in old(nodes))
      ensures Valid()
    {
      hide Inv, Linked, TextValid, CellBefore, TextLen, Printable, HeadCell, NodesLinked, NodesMirror;
      ghost var s := Value();
      ghost var o := lists[i][a];
      DeleteLinks(s, ptrs, i, a);
      DeleteKeepsInv(s, i, a);
      var e := FreeOnDisk(d, o);
      CacheAdd(e);
      MirrorPush(old(nodes), s.slots, s.lists[0], nodes[0], o, slots[o]);
      lists := DeleteAt(s, i, a).lists;
      assert CacheOk();
    }
  
    /** db_delete (a deletion never trusts a saved position). */
    method Delete(key: string) returns (rc: int)
      requires Valid()
      modifies this, nodes
      ensures ListsOk(old(Value())) && (rc, Value()) == DeleteStep(old(Value()), key)
      ensures fresh(set n | n in nodes && n !in old(nodes))
      ensures Valid()
    {
      hide Inv, ListsOk, Linked, TextValid, CacheOk, CellBefore, DeleteAt, Hash;
      InvShape(Value());
      ghost var i := ChainOf(Value(), key);
      ListMembers(Value(), i);
      ghost var a := FindKey(slots, lists[i], key);
      var found, d := Find(key, 0);
      if found {
        DoDelete(d, i, a);
        rc := 0;
      } else {
        rc := -1;
      }
    }

    /** _db_readdat_bin: the used bytes of the buffer's extent, or nothing when the file is too short. */
    method ReadDat(d: DBD) returns (r: Option<Bytes>)
      ensures d.datoff + d.used <= |dat| ==> r == Some(dat[d.datoff..d.datoff + d.used])
      ensures d.datoff + d.used > |dat| ==> r == None
    {
      if d.datoff + d.used > |dat| {
        r := None;
      } else {
        r := Some(dat[d.datoff..d.datoff + d.used]);
      }
    }

    /** db_fetch: the data under key, and the position of its record. */
    method Fetch(key: string, hint: nat) returns (r: Option<Bytes>, pos: nat)
      requires Valid() && HintOk(key, hint)
      ensures r == FetchStep(Value(), key)
      ensures if r == None then pos == hint else Holds(Value(), key, pos)
    {
      hide Linked, TextValid, CacheOk, CellBefore, Contents, FetchStep, Inv, Hash, IsLive;
      ghost var s := Value();
      InvShape(s);
      FetchReads(s, key);
      FindKeyFinds(s, key);
      ghost var i := ChainOf(s, key);
      ghost var a := FindKey(slots, lists[i], key);
      pos := hint;
      var found, d := Find(key, hint);
      if found {
        ChainExtentInside(s, i, a);
        r := ReadDat(d);
        pos := d.idxoff;
      } else {
        r := None;
      }
    }

    // -------------------------------------------------------------- taking a free record

    /** The buffer holds the record at o; its chain position and flag are the caller's. */
    ghost predicate Took(e: DBD, d: DBD, o: nat)
      reads this`slots
    {
      && o in slots && e.idxoff == o && e.idxlen == slots[o].size && e.area == slots[o].area
      && e.datoff == slots[o].datoff && e.datlen == slots[o].datlen && e.used == slots[o].used
      && e.chainoff == d.chainoff && e.free == d.free
    }

    /** a is the first fit on the free list, and cell the pointer cell before it. */
    ghost predicate FirstFitAt(keylen: nat, n: nat, a: nat, cell: nat, found: bool)
      reads this`slots, this`lists
    {
      && |lists| >= 1 && a <= |lists[0]| && (found <==> a < |lists[0]|)
      && (forall o :: o in lists[0] ==> o in slots) && a == FirstFit(slots, lists[0], keylen, n)
      && (found ==> cell == CellBefore(lists, 0, a))
    }

    /** The loop of _db_findfree. */
    method WalkFree(d: DBD, keylen: nat, n: nat) returns (found: bool, e: DBD, saveoffset: nat, ghost a: nat)
      requires TextValid() && Linked(ptrs, lists) && |lists| >= 1 && forall o :: o in lists[0] ==> o in slots
      ensures FirstFitAt(keylen, n, a, saveoffset, found)
      ensures if found then Took(e, d, lists[0][a]) && lists[0][a] in ptrs && e.ptrval == ptrs[lists[0][a]] else e == d
    {
      hide TextValid, Linked;
      ghost var q := lists[0];
      WalkStep(ptrs, lists, 0, 0);
      a := 0;
      e := d;
      var b := BLANK;
      saveoffset := HeadCell(0);
      var offset := ReadPtr(saveoffset);
      while offset > 0
        invariant a <= |q| && offset == (if a < |q| then q[a] else 0) && (offset > 0 <==> a < |q|)
        invariant saveoffset == if a == 0 then HeadCell(0) else q[a - 1]
        invariant forall k :: 0 <= k < a ==> !Fits(slots[q[k]].area, slots[q[k]].datlen, keylen, n)
        invariant e == d
        decreases |q| - a
      {
        assert q[a] in q;
        var ret, next;
        ret, b, next := ReadIdx(b, offset);
        if ret >= 0 {
          if Fits(b.area, b.datlen, keylen, n) {
            e := Copied(b, d);
            break;
          }
        }
        WalkStep(ptrs, lists, 0, a + 1);
        saveoffset := offset;
        offset := ret;
        a := a + 1;
      }
      found := offset > 0;
    }

    /** The loop of _db_findfree_cache: the same search over the nodes in memory. */
    method WalkCache(d: DBD, keylen: nat, n: nat)
      returns (found: bool, e: DBD, saveoffset: nat, item: FSDBD?, ghost a: nat)
      requires TextValid() && Linked(ptrs, lists) && CacheOk() && forall o :: o in lists[0] ==> o in slots
      ensures FirstFitAt(keylen, n, a, saveoffset, found)
      ensures if found then Took(e, d, lists[0][a]) && lists[0][a] in ptrs && e.ptrval == ptrs[lists[0][a]] else e == d
      ensures found ==> a < |nodes| && item == nodes[a]
    {
      hide TextValid, Linked;
      ghost var q := lists[0];
      a := 0;
      e := d;
      var b := BLANK;
      var offset := 0;
      saveoffset := HeadCell(0);
      item := freeList;
      while item != null
        invariant a <= |q| && item == NodeAt(nodes, a) && offset == 0
        invariant saveoffset == if a == 0 then HeadCell(0) else q[a - 1]
        invariant forall k :: 0 <= k < a ==> !Fits(slots[q[k]].area, slots[q[k]].datlen, keylen, n)
        invariant e == d
        decreases |q| - a
      {
        assert NodeLinked(nodes, a) && q[a] in q;
        if Fits(item.area, item.datlen, keylen, n) {
          offset := item.offset;
          var ret, next;
          ret, b, next := ReadIdx(b, item.offset);
          if ret >= 0 {
            e := Copied(b, d);
            WalkStep(ptrs, lists, 0, a);
            break;
          }
        }
        saveoffset := item.offset;
        item := item.next;
        a := a + 1;
      }
      found := offset != 0;
    }
  
    /** The record at position a of the free list, before and after it is bypassed. */
    twostate predicate Bypassed(a: nat)
      reads this
    {
      && |old(lists)| >= 1 && a < |old(lists[0])| && old(lists[0][a]) in old(ptrs) && CellBefore(old(lists), 0, a) <= |old(idx)|
      && ptrs == Taken(old(ptrs), old(lists), a)
      && lists == old(lists)[0 := RemoveAt(old(lists[0]), a)]
      && idx == Splice(old(idx), CellBefore(old(lists), 0, a), PtrText(old(ptrs[lists[0][a]])))
    }

    /** _db_findfree: first fit by walking the free list on disk, and bypass what was found. */
    method FindFree(d: DBD, keylen: nat, n: nat) returns (found: bool, e: DBD, ghost a: nat)
      requires Valid()
      modifies this`idx, this`ptrs, this`lists
      ensures TextValid()
      ensures old(FirstFitAt(keylen, n, a, if a < |lists[0]| then CellBefore(lists, 0, a) else 0, a < |lists[0]|))
      ensures found <==> a < |old(lists[0])|
      ensures !found ==> e == d && ptrs == old(ptrs) && lists == old(lists) && idx == old(idx)
      ensures found ==> Took(e, d, old(lists[0][a])) && Bypassed(a)
    {
      hide Inv, Linked, TextValid, CacheOk, PtrText, Splice;
      InvShape(Value());
      ListMembers(Value(), 0);
      var saveoffset;
      found, e, saveoffset, a := WalkFree(d, keylen, n);
      if found {
        WalkStep(ptrs, lists, 0, a);
        PtrInRange(lists[0][a]);
        var alive := WritePtr(saveoffset, e.ptrval);
        lists := lists[0 := RemoveAt(lists[0], a)];
      }
    }

    /** _db_findfree_cache: the same search in memory. It finds the same record, leaves the same index file, and
        drops the record's node. */
    method FindFreeCache(d: DBD, keylen: nat, n: nat) returns (found: bool, e: DBD, ghost a: nat)
      requires Valid()
      modifies this`idx, this`ptrs, this`lists, this`freeList, this`nodes, nodes
      ensures TextValid()
      ensures old(FirstFitAt(keylen, n, a, if a < |lists[0]| then CellBefore(lists, 0, a) else 0, a < |lists[0]|))
      ensures found <==> a < |old(lists[0])|
      ensures !found ==> e == d && ptrs == old(ptrs) && lists == old(lists) && idx == old(idx)
                         && freeList == old(freeList) && nodes == old(nodes)
      ensures found ==> Took(e, d, old(lists[0][a])) && Bypassed(a)
      ensures nodes == old(nodes) || (a < |old(nodes)| && nodes == old(nodes)[..a] + old(nodes)[a + 1..])
      ensures CacheOk()
    {
      hide Inv, ListsOk, Linked, TextValid, PtrText, Splice, NodesLinked, NodesMirror, FirstFit, RemoveAt, Hash;
      InvShape(Value());
      ListMembers(Value(), 0);
      var saveoffset, item;
      found, e, saveoffset, item, a := WalkCache(d, keylen, n);
      if found {
        WalkStep(ptrs, lists, 0, a);
        PtrInRange(lists[0][a]);
        var alive := WritePtr(saveoffset, e.ptrval);
        MirrorRemove(nodes, slots, lists[0], a);
        CacheDelete(item, a);
        lists := lists[0 := RemoveAt(lists[0], a)];
      }
    }
  
    // -------------------------------------------------------------- storing

    /** _db_writedat_bin */
    method WriteDat(d: DBD, data: Bytes, off: nat, atEnd: bool) returns (e: DBD)
      requires datLen == |dat| && (atEnd || off + |data| <= |dat|)
      modifies this`dat, this`datLen
      ensures datLen == |dat|
      ensures if atEnd then e == d.(datoff := old(datLen), datlen := |data|, used := |data|) && dat == old(dat) + data
              else e == d.(datoff := off, used := |data|) && dat == Overwritten(old(dat), off, data)
    {
      var offset := off;
      if atEnd {
        offset := datLen;
        e := d.(datlen := |data|, used := |data|);
        datLen := datLen + |data|;
      } else {
        e := d.(used := |data|);
      }
      e := e.(datoff := offset);
      if |data| > 0 {
        dat := if offset == |dat| then dat + data else dat[..offset] + data + dat[offset + |data|..];
      }
    }

    /** The writes of the append branch: the data, the record, and the chain's head. */
    method AppendFiles(d: DBD, key: string, data: Bytes, ptrval: nat) returns (pos: nat)
      requires TextValid() && KeyOk(key) && DataOk(data) && d.area <= KEY_MAX && d.idxlen <= IDXLEN_MAX && !d.free
      requires datLen == |dat| && |dat| + |data| <= DATA_FILELEN_MAX && idxLen <= PTR_MAX
      requires d.chainoff in ptrs && ptrval <= PTR_MAX
      modifies this`idx, this`idxLen, this`ptrs, this`slots, this`dat, this`datLen
      ensures TextValid() && datLen == |dat| && pos == old(idxLen)
      ensures var r := NewSlot(d.area, d.idxlen, key, |old(dat)|, |data|, |data|);
              && slots == old(slots)[pos := r] && idxLen == End(pos, r) && dat == old(dat) + data
              && ptrs == old(ptrs)[pos := ptrval][d.chainoff := pos]
    {
      hide TextValid, TextLen, Printed, NewSlot, AsSlot;
      var e := WriteDat(d, data, 0, true);
      PrintedIsNew(e, key);
      var ret;
      ret, e := WriteIdx(e, key, 0, true, ptrval);
      var alive := WritePtr(e.chainoff, e.idxoff);
      pos := e.idxoff;
    }

    /** The appending branch of db_store: new data, new record, new chain head. */
    method AppendRecord(d: DBD, key: string, data: Bytes, ptrval: nat, ghost i: nat) returns (pos: nat)
      requires Valid() && KeyOk(key) && DataOk(data) && d.area <= KEY_MAX && d.idxlen <= IDXLEN_MAX && !d.free
      requires i == ChainOf(Value(), key) && d.chainoff == HeadCell(i) && HeadCell(i) in ptrs && ptrval == ptrs[HeadCell(i)]
      requires ListsOk(Value()) && Absent(Value(), key) && EnoughSpace(Value(), |key|, |data|)
      modifies this
      ensures pos == old(idxLen) && Value() == AppendStep(old(Value()), key, data, d.area, d.idxlen)
      ensures nodes == old(nodes)
      ensures Valid()
    {
      hide Inv, ListsOk, Linked, TextValid, NodesLinked, NodesMirror, Absent, HeadCell, Hash, TextLen, NewSlot, AppendStep;
      ghost var s := Value();
      ghost var t := AppendStep(s, key, data, d.area, d.idxlen);
      AppendFields(s, key, data, d.area, d.idxlen);
      AppendLinks(s, ptrs, i);
      NewUnlinked(s);
      AppendKeepsInv(s, key, data, d.area, d.idxlen);
      PtrInRange(HeadCell(i));
      pos := AppendFiles(d, key, data, ptrval);
      MirrorKept(nodes, s.slots, lists[0], s.idxLen, slots[s.idxLen]);
      lists, owner := t.lists, t.owner;
    }
  
    /** The reusing branch of db_store, after the search has bypassed the a-th free record of state s: data,
        record and new chain head. Fatal when the record must move past what a chain pointer can hold. */
    method ReuseRecord(d: DBD, key: string, data: Bytes, ptrval: nat, ghost s: State, ghost p: map<nat, nat>, ghost a: nat, ghost i: nat)
      returns (alive: bool, pos: nat)
      requires Reusable(s, key, data, a) && Linked(p, s.lists) && nhash >= 1 && |s.lists| == nhash + 1
      requires TextValid() && CacheOk() && datLen == |dat|
      requires s.lists[0][a] in p && Took(d, d, s.lists[0][a]) && !d.free && ptrs == Taken(p, s.lists, a)
      requires Value() == s.(lists := s.lists[0 := RemoveAt(s.lists[0], a)])
      requires i == ChainOf(s, key) && d.chainoff == HeadCell(i) && HeadCell(i) in p && ptrval == p[HeadCell(i)] <= PTR_MAX
      modifies this
      ensures alive <==> !(Outgrows(Reused(s, key, data, a)) && s.idxLen > PTR_MAX)
      ensures alive ==> pos == (if Outgrows(Reused(s, key, data, a)) then s.idxLen else s.lists[0][a])
                        && Value() == ReuseStep(s, key, data, a)
      ensures nodes == old(nodes)
      ensures alive ==> Valid()
    {
      hide Inv, ListsOk, Linked, TextValid, NodesLinked, NodesMirror, HeadCell, Hash, TextLen, Printed, AsSlot, Taken, Absent;
      ghost var o := s.lists[0][a];
      ghost var r := Reused(s, key, data, a);
      ghost var n := if Outgrows(r) then s.idxLen else o;
      InvShape(s);
      ReuseLinks(s, p, a, i, n);
      FreeExtentInside(s, a);
      PrintableAt(s, o);
      OffListAfter(s, a, n);
      var e := WriteDat(d, data, d.datoff, false);
      PrintedIsReused(e, key, s.slots[o], |data|);
      alive, pos := WriteAndLink(e, key, ptrval);
      if alive {
        MirrorKept(nodes, s.slots, lists[0], n, slots[n]);
        ReuseInv(s, key, data, a);
        ghost var t := ReuseStep(s, key, data, a);
        lists, owner := t.lists, t.owner;
      }
    }

    /** Write the buffer's record, then point its chain head at it. */
    method WriteAndLink(d: DBD, key: string, ptrval: nat) returns (alive: bool, pos: nat)
      requires TextValid() && BufferOk(d, key) && ptrval <= PTR_MAX && d.chainoff in ptrs
      requires d.idxoff in slots && slots[d.idxoff].size == d.idxlen
      modifies this`idx, this`idxLen, this`ptrs, this`slots
      ensures TextValid()
      ensures pos == if TextLen(AsSlot(d, key)) > d.idxlen then old(idxLen) else d.idxoff
      ensures idxLen == if TextLen(AsSlot(d, key)) > d.idxlen then End(old(idxLen), Printed(d, key)) else old(idxLen)
      ensures slots == old(slots)[pos := Printed(d, key)]
      ensures alive <==> pos <= PTR_MAX
      ensures alive ==> ptrs == old(ptrs)[pos := ptrval][d.chainoff := pos]
    {
      hide TextValid, TextLen, Printed, AsSlot;
      var ret, e := WriteIdx(d, key, d.idxoff, false, ptrval);
      alive := WritePtr(e.chainoff, e.idxoff);
      pos := e.idxoff;
    }
  
    /** The overwriting branch of db_store. */
    method OverwriteRecord(d: DBD, key: string, data: Bytes, ghost o: nat) returns (pos: nat)
      requires Valid() && KeyOk(key) && Holds(Value(), key, o) && Describes(d, o) && !d.free
      requires |data| <= slots[o].datlen && slots[o].datoff + |data| <= |dat|
      modifies this
      ensures pos == (if Outgrows(Rewritten(old(Value()), o, data)) then old(idxLen) else o)
      ensures Value() == InPlaceStep(old(Value()), o, data)
      ensures nodes == old(nodes)
      ensures Valid()
    {
      hide Inv, Linked, TextValid, NodesLinked, TextLen, Printed, AsSlot;
      ghost var s := Value();
      ghost var n := if Outgrows(Rewritten(s, o, data)) then idxLen else o;
      InvShape(s);
      LiveOffFreeList(s, key, o, n);
      InPlaceLinks(s, ptrs, o);
      PrintableAt(s, o);
      PtrInRange(o);
      InPlaceInv(s, key, o, data);
      var e := WriteDat(d, data, d.datoff, false);
      PrintedIsReused(e, key, s.slots[o], |data|);
      var ret;
      ret, e := WriteIdx(e, key, e.idxoff, false, e.ptrval);
      MirrorKept(nodes, s.slots, lists[0], n, slots[n]);
      pos := e.idxoff;
    }

    /** Store a key that is on no chain, with a buffer that may still carry a deleted record's sizes. */
    method Put(d: DBD, key: string, data: Bytes, ghost i: nat) returns (out: Outcome)
      requires Valid() && KeyOk(key) && DataOk(data) && d.area <= KEY_MAX && d.idxlen <= IDXLEN_MAX && !d.free
      requires i == ChainOf(Value(), key) && d.chainoff == HeadCell(i)
      requires ListsOk(Value()) && Absent(Value(), key)
      modifies this, nodes
      ensures out == PutStep(old(Value()), key, data, d.area, d.idxlen).0
      ensures |old(lists)| >= 2 && (out.Returned? ==> out.rc == if Full(old(Value()), |key|, |data|) then 2 else 0)
      ensures !out.Died? ==> Value() == PutStep(old(Value()), key, data, d.area, d.idxlen).1
      ensures nodes == old(nodes) || fresh(set n | n in nodes && n !in old(nodes))
      ensures !out.Died? ==> Valid()
    {
      hide Full, Inv, ListsOk, Linked, TextValid, NodesLinked, NodesMirror, HeadCell, Hash, Absent, AppendStep, ReuseStep, Taken;
      ghost var s, p := Value(), ptrs;
      assert ListsOk(s);
      PutFull(s, key, data, d.area, d.idxlen);
      InvShape(s);
      WalkStep(ptrs, lists, i, 0);
      var ptrval := ReadPtr(d.chainoff);
      var found, e;
      ghost var a;
      found, e, a := FindFreeCache(d, |key|, |data|);
      if !found {
        if datLen + |data| > DATA_FILELEN_MAX || idxLen + |key| > PTR_MAX {
          out := Returned(2, 0);
        } else {
          var pos := AppendRecord(e, key, data, ptrval, i);
          out := Returned(0, pos);
        }
      } else {
        FreeExtentInside(s, a);
        var alive, pos := ReuseRecord(e, key, data, ptrval, s, p, a, i);
        out := if alive then Returned(0, pos) else Died;
      }
    }
  
    /** db_store */
    method Store(key: string, data: Bytes, flag: nat, hint: nat) returns (out: Outcome)
      requires Valid() && KeyOk(key) && HintOk(key, hint)
      modifies this, nodes
      ensures out == StoreStep(old(Value()), key, data, flag).0
      ensures fresh(set n | n in nodes && n !in old(nodes))
      ensures |old(lists)| >= 2 && (out.Returned? ==>
                out.rc == StoreCode(key in Contents(old(Value())), |data|, flag, Short(old(Value()), key, |data|)))
      ensures !out.Died? ==> Value() == StoreStep(old(Value()), key, data, flag).1 && Valid()
    {
      hide StoreCode, Short, Contents, Full, Inv, ListsOk, Linked, TextValid, CacheOk, HeadCell, Hash, Absent, PutStep, InPlaceStep, DeleteAt, CellBefore;
      ghost var s := Value();
      InvShape(s);
      StoreCodeIs(s, key, data, flag);
      if |data| > DATLEN_MAX {
        out := Returned(3, 0);
        return;
      }
      var found, d := Find(key, hint);
      ghost var i := ChainOf(s, key);
      ghost var a := FindKey(s.slots, s.lists[i], key);
      FindKeyFinds(s, key);
      if !found {
        if HasReplace(flag) {
          out := Returned(-1, 0);
        } else {
          out := Put(d, key, data, i);
        }
      } else {
        ghost var o := s.lists[i][a];
        ChainExtentInside(s, i, a);
        if HasInsert(flag) {
          out := Returned(1, 0);
        } else if |data| > d.datlen {
          AfterDelete(s, key);
          var rc := Delete(key);
          InvShape(Value());
          out := Put(d, key, data, i);
        } else {
          var pos := OverwriteRecord(d, key, data, o);
          out := Returned(0, pos);
        }
      }
    }

    // -------------------------------------------------------------- scanning

    /** db_nextrec, from boundary offset: the next live record's position, key and data, and the boundary after
        it; nothing at the end of the file. */
    method NextRec(offset: nat) returns (more: bool, pos: nat, key: string, data: Option<Bytes>, next: nat)
      requires Valid() && Boundary(Value(), offset)
      ensures !more ==> Scan(Value(), offset) == []
      ensures more ==> pos in slots && Scan(Value(), offset) == [pos] + Scan(Value(), next) && Boundary(Value(), next)
      ensures more ==> key == slots[pos].key && (OnList(Value(), pos) ==> data == Some(DataOf(Value(), pos)))
      ensures more ==> offset < next <= idxLen
    {
      hide Inv, Linked, CacheOk, TextOk, Scan, OnList, Boundary, HomeOf, DataOf;
      ghost var s := Value();
      BoundaryStep(s, offset);
      InvShape(s);
      InvLaid(s);
      key, data, pos := "", None, 0;
      next := offset;
      var d := BLANK;
      while true
        invariant offset <= next <= idxLen && Boundary(s, next)
        invariant Scan(s, offset) == Scan(s, next)
        decreases idxLen - next
      {
        pos := next;
        var ret;
        BoundaryStep(s, next);
        ret, d, next := ReadIdx(d, pos);
        if ret < 0 {
          more := false;
          next := pos;
          return;
        }
        if !d.free {
          break;
        }
        assert [] + Scan(s, next) == Scan(s, next);
      }
      more := true;
      key := d.key;
      data := ReadDat(d);
      if OnList(s, pos) {
        ExtentInside(s, pos);
        DataRead(s, pos);
      }
    }

    /** The loop around db_nextrec that loads a whole database: its records, key and data, in file order. */
    method LoadAll() returns (recs: seq<(string, Bytes)>)
      requires Valid() && Exact(Value())
      ensures |lists| >= 2 && Laid(slots, |lists|, idxLen)
      ensures recs == Pairs(Value(), Scan(Value(), Start(nhash + 1)))
    {
      hide Inv, Linked, CacheOk, TextOk, TextValid, Scan, Exact, OnList, DataOf, Laid;
      InvShape(Value());
      InvLaid(Value());
      StartBoundary(Value());
      recs := [];
      var next := Start(nhash + 1);
      ghost var sc := Scan(Value(), next);
      ScanLinked(Value(), next);
      while true
        invariant Boundary(Value(), next)
        invariant recs + Pairs(Value(), Scan(Value(), next)) == Pairs(Value(), sc)
        invariant forall o :: o in Scan(Value(), next) ==> OnList(Value(), o)
        decreases idxLen - next
      {
        var more, pos, key, data, after := NextRec(next);
        if !more {
          break;
        }
        assert Scan(Value(), next)[0] == pos && Scan(Value(), next)[1..] == Scan(Value(), after);
        recs := recs + [(key, data.value)];
        next := after;
      }
    }

    /** A position reported by an earlier call is safe for any key that is not all blanks. */
    lemma SavedPositionOk(key: string, pos: nat)
      requires Valid() && Exact(Value()) && pos in slots && !AllBlank(key)
      ensures |lists| >= 2 && HintOk(key, pos)
    {
      if slots[pos].key == key {
        HintAgrees(Value(), key, pos);
        FindKeyFinds(Value(), key);
      }
    }

    // -------------------------------------------------------------- opening

    /** _db_retrieve_free_space and its caller: rebuild the list in memory from the list on disk. */
    method Retrieve() returns (head: FSDBD?, ghost ns: seq<FSDBD>)
      requires TextValid() && Linked(ptrs, lists) && |lists| >= 1 && forall o :: o in lists[0] ==> o in slots
      ensures NodesLinked(head, ns) && NodesMirror(ns, slots, lists[0])
      ensures forall n :: n in ns ==> fresh(n)
    {
      hide TextValid, Linked, Growing, NodesMirror, NodesLinked;
      ghost var q := lists[0];
      WalkStep(ptrs, lists, 0, 0);
      var offset := ReadPtr(HeadCell(0));
      var listHead := new FSDBD(0, 0, 0);
      var last := listHead;
      ns := [];
      GrowingStart(listHead);
      MirrorStart(slots);
      assert q[..0] == [];
      var d := BLANK;
      while offset > 0
        invariant |ns| <= |q| && offset == (if |ns| < |q| then q[|ns|] else 0) && (offset > 0 <==> |ns| < |q|)
        invariant NodesMirror(ns, slots, q[..|ns|])
        invariant fresh(listHead) && fresh(last) && forall n :: n in ns ==> fresh(n)
        invariant Growing(listHead, last, ns)
        decreases |q| - |ns|
      {
        ghost var c := |ns|;
        assert q[c] in q;
        var ret, next;
        ret, d, next := ReadIdx(d, offset);
        var item := new FSDBD(offset, d.datlen, d.area);
        LinkNode(listHead, last, item, ns);
        last := item;
        MirrorAppend(ns, slots, q[..c], item, q[c]);
        assert q[..c + 1] == q[..c] + [q[c]];
        WalkStep(ptrs, lists, 0, c + 1);
        offset := ret;
        ns := ns + [item];
      }
      assert q[..|ns|] == q;
      head := DropSentinel(listHead, last, ns);
    }

    /** db_open on files that hold a database: the same database, with its free list mirrored anew. */
    constructor Open(nhash: nat, idx: string, dat: Bytes, ghost s: State, ghost p: map<nat, nat>)
      requires nhash >= 1 && |s.lists| == nhash + 1 && s.idxLen == |idx| && s.dat == dat
      requires TextOk(idx, p, s.slots, nhash + 1) && Linked(p, s.lists) && Inv(s)
      ensures Valid() && Value() == s && this.nhash == nhash && this.idx == idx
      ensures forall n :: n in nodes ==> fresh(n)
    {
      hide Inv, Linked, TextOk, NodesLinked, NodesMirror;
      this.nhash, this.idx, this.dat := nhash, idx, dat;
      slots, lists, owner, ptrs := s.slots, s.lists, s.owner, p;
      idxLen, datLen := |idx|, |dat|;
      freeList, nodes := null, [];
      new;
      ListMembers(s, 0);
      freeList, nodes := Retrieve();
    }

    /** _db_create_db_template_files: every head cell 0, and a newline. */
    static method TemplateText(nhash: nat) returns (t: string)
      ensures TextOk(t, EmptyCells(nhash + 1), map[], nhash + 1) && |t| == Start(nhash + 1)
    {
      t := "";
      var i := 0;
      while i < nhash + 1
        invariant i <= nhash + 1 && |t| == PTR_SZ * i
        invariant forall j :: 0 <= j < i ==> t[PTR_SZ * j..PTR_SZ * j + PTR_SZ] == PtrText(0)
      {
        PtrTextReads(0);
        ghost var u := t;
        t := t + PtrText(0);
        forall j | 0 <= j < i + 1 ensures t[PTR_SZ * j..PTR_SZ * j + PTR_SZ] == PtrText(0) {
          if j < i { assert t[PTR_SZ * j..PTR_SZ * j + PTR_SZ] == u[PTR_SZ * j..PTR_SZ * j + PTR_SZ]; }
        }
        i := i + 1;
      }
      ghost var u := t;
      t := t + "\n";
      forall p | p in EmptyCells(nhash + 1) ensures CellIs(t, p, 0) {
        var j := p / PTR_SZ;
        assert t[PTR_SZ * j..PTR_SZ * j + PTR_SZ] == u[PTR_SZ * j..PTR_SZ * j + PTR_SZ];
      }
    }

    /** db_open creating a database. */
    constructor Create(nhash: nat)
      requires nhash >= 1
      ensures Valid() && Value() == EmptyDb(nhash) && this.nhash == nhash
    {
      EmptyDbOk(nhash, 1);
      EmptyLinked(nhash);
      hide Inv, Linked, TextOk;
      var t := TemplateText(nhash);
      this.nhash, this.idx, this.dat := nhash, t, [];
      slots, lists, owner, ptrs := map[], EmptyDb(nhash).lists, [], EmptyCells(nhash + 1);
      idxLen, datLen := |t|, 0;
      freeList, nodes := null, [];
    }
  }

  ghost function EmptyCells(nlists: nat): map<nat, nat> {
    map p: nat | p < PTR_SZ * nlists && IsHeadCell(p, nlists) :: 0
  }

  lemma EmptyLinked(nhash: nat)
    requires nhash >= 1
    ensures Linked(EmptyCells(nhash + 1), EmptyDb(nhash).lists)
  {
    forall i | 0 <= i < nhash + 1 ensures Chain(EmptyCells(nhash + 1), HeadCell(i), EmptyDb(nhash).lists[i]) {
      assert IsHeadCell(HeadCell(i), nhash + 1);
    }
  }

  lemma AfterDelete(s: State, key: string)
    requires Inv(s)
    ensures ListsOk(s) && ListsOk(DeleteStep(s, key).1) && Absent(DeleteStep(s, key).1, key)
    ensures ChainOf(DeleteStep(s, key).1, key) == ChainOf(s, key)
  {
    hide Inv, ListsOk, DeleteStep, Contents, Absent, Hash;
    InvShape(s);
    DeleteMeans(s, key);
    InvShape(DeleteStep(s, key).1);
    FoundIffPresent(DeleteStep(s, key).1, key);
  }

  lemma DataRead(s: State, o: nat)
    requires o in s.slots && s.slots[o].datoff + s.slots[o].used <= |s.dat|
    ensures DataOf(s, o) == s.dat[s.slots[o].datoff..s.slots[o].datoff + s.slots[o].used]
  {
  }

  lemma AppendFields(s: State, key: string, data: Bytes, width: nat, minSize: nat)
    requires |s.lists| >= 2
    ensures var t := AppendStep(s, key, data, width, minSize);
            var r := NewSlot(width, minSize, key, |s.dat|, |data|, |data|);
            && t.slots == s.slots[s.idxLen := r] && t.idxLen == End(s.idxLen, r) && t.dat == s.dat + data
            && t.lists == s.lists[ChainOf(s, key) := [s.idxLen] + s.lists[ChainOf(s, key)]]
            && |t.lists| == |s.lists| && t.lists[0] == s.lists[0]
  {
  }

  lemma StoreCodeIs(s: State, key: string, data: Bytes, flag: nat)
    requires Inv(s) && KeyOk(key)
    ensures |s.lists| >= 2 && (StoreStep(s, key, data, flag).0.Returned? ==>
              StoreStep(s, key, data, flag).0.rc == StoreCode(key in Contents(s), |data|, flag, Short(s, key, |data|)))
  {
    hide Inv, StoreStep, Contents, Short;
    InvShape(s);
    if !StoreStep(s, key, data, flag).0.Died? {
      var rc, t := StoreMeans(s, key, data, flag);
    }
  }

  lemma FetchReads(s: State, key: string)
    requires Inv(s)
    ensures |s.lists| >= 2 && forall o :: o in s.lists[ChainOf(s, key)] ==> o in s.slots
    ensures var q := s.lists[ChainOf(s, key)];
            var a := FindKey(s.slots, q, key);
            FetchStep(s, key) == if a == |q| then None else Some(DataOf(s, q[a]))
  {
  }

  lemma StartBoundary(s: State)
    requires Inv(s)
    ensures Boundary(s, Start(|s.lists|))
  {
  }

  lemma ScanLinked(s: State, off: nat)
    requires Inv(s) && Exact(s) && Boundary(s, off)
    ensures Laid(s.slots, |s.lists|, s.idxLen)
    ensures forall o :: o in Scan(s, off) ==> OnList(s, o)
  {
    ScanVisits(s, off);
  }

  lemma BoundaryStep(s: State, o: nat)
    requires Inv(s) && Boundary(s, o)
    ensures o <= s.idxLen && (o in s.slots || o == s.idxLen)
    ensures o in s.slots ==> var e := End(o, s.slots[o]);
              && o < e <= s.idxLen && Boundary(s, e)
              && Scan(s, o) == (if s.slots[o].free then [] else [o]) + Scan(s, e)
    ensures o == s.idxLen ==> o !in s.slots && Scan(s, o) == []
  {
    assert EndsAtBoundary(s, o);
  }

  lemma LiveOffFreeList(s: State, key: string, o: nat, n: nat)
    requires Inv(s) && Holds(s, key, o) && (n == o || n == s.idxLen)
    ensures n !in s.lists[0]
  {
    NewUnlinked(s);
  }

  lemma InPlaceLinks(s: State, ptrs: map<nat, nat>, o: nat)
    requires Inv(s) && Linked(ptrs, s.lists) && o in ptrs
    ensures Linked(ptrs[o := ptrs[o]], s.lists)
    ensures Linked(ptrs[s.idxLen := ptrs[o]], s.lists)
  {
    assert ptrs[o := ptrs[o]] == ptrs;
    NewUnlinked(s);
    LinkedIgnores(ptrs, s.lists, s.idxLen, ptrs[o]);
  }

  lemma InPlaceInv(s: State, key: string, o: nat, data: Bytes)
    requires Inv(s) && Holds(s, key, o) && |data| <= s.slots[o].datlen && s.slots[o].datoff + |data| <= |s.dat|
    ensures Inv(InPlaceStep(s, o, data))
  {
    assert OnList(s, o);
    InPlaceKeepsInv(s, o, data);
  }

  lemma OffListAfter(s: State, a: nat, n: nat)
    requires Inv(s) && a < |s.lists[0]| && (n == s.lists[0][a] || n == s.idxLen)
    ensures n !in RemoveAt(s.lists[0], a)
    ensures s.lists[0][a] <= PTR_MAX
  {
    OnlyHome(s, 0, s.lists[0][a]);
    RemoveAtMembers(s.lists[0], a);
    NewUnlinked(s);
  }

  lemma ReuseInv(s: State, key: string, data: Bytes, a: nat)
    requires Reusable(s, key, data, a) && !(Outgrows(Reused(s, key, data, a)) && s.idxLen > PTR_MAX)
    ensures Inv(ReuseStep(s, key, data, a))
  {
    if Outgrows(Reused(s, key, data, a)) {
      ReuseMovingKeepsInv(s, key, data, a);
    } else {
      ReuseInSlotKeepsInv(s, key, data, a);
    }
  }
}
