/**
 * The index file as bytes: pointer cells (free-list head, chain heads, one per record) and record
 * bodies, and what a positioned write does to them.
 */
module IndexFile {
  import opened CText
  import opened Machine
  import opened IndexRecord

  /** Offset just past the record that starts at o. */
  function End(o: nat, r: Slot): nat { o + PREFIX + r.size }

  /** First record offset: the head cells and a newline come before it. */
  function Start(nlists: nat): nat { PTR_SZ * nlists + 1 }

  /** Head cell of list i: the free list is list 0 (FREE_OFF), chain h is list h + 1 (HASH_OFF + 9h). */
  function HeadCell(i: nat): nat { PTR_SZ * i }

  predicate IsHeadCell(p: nat, nlists: nat) {
    p % PTR_SZ == 0 && p < PTR_SZ * nlists
  }

  /** Record boundaries: records lie behind the heads, inside the file, and do not overlap. */
  ghost predicate Laid(slots: map<nat, Slot>, nlists: nat, len: nat) {
    && Start(nlists) <= len
    && (forall o :: o in slots ==> Start(nlists) <= o && End(o, slots[o]) <= len)
    && (forall o, q :: o in slots && q in slots && o < q ==> End(o, slots[o]) <= q)
  }

  ghost predicate CellIs(file: string, p: nat, v: nat) {
    v <= PTR_MAX && p + PTR_SZ <= |file| && file[p..p + PTR_SZ] == PtrText(v)
  }

  ghost predicate BodyIs(file: string, o: nat, r: Slot) {
    && Printable(r) && End(o, r) <= |file|
    && file[o + PTR_SZ..o + PREFIX] == LenText(r.size)
    && file[o + PREFIX..End(o, r)] == Body(r)
  }

  /** There is a pointer cell at the head of each list and at the front of each record, and nowhere else. */
  ghost predicate CellPlaces(ptrs: map<nat, nat>, slots: map<nat, Slot>, nlists: nat) {
    forall p :: p in ptrs <==> IsHeadCell(p, nlists) || p in slots
  }

  ghost predicate CellsOk(file: string, ptrs: map<nat, nat>) {
    forall p :: p in ptrs ==> CellIs(file, p, ptrs[p])
  }

  ghost predicate BodiesOk(file: string, slots: map<nat, Slot>) {
    forall o :: o in slots ==> BodyIs(file, o, slots[o])
  }

  /** The file is the text of these pointer cells and records. */
  ghost predicate TextOk(file: string, ptrs: map<nat, nat>, slots: map<nat, Slot>, nlists: nat) {
    && Laid(slots, nlists, |file|)
    && CellPlaces(ptrs, slots, nlists)
    && CellsOk(file, ptrs)
    && BodiesOk(file, slots)
  }

  // ---------------------------------------------------------------- positioned writes

  /** pwrite of t at offset o, extending the file when it runs past the end. */
  function Splice(file: string, o: nat, t: string): (r: string)
    requires o <= |file|
    ensures |r| == if o + |t| <= |file| then |file| else o + |t|
  {
    if o + |t| <= |file| then file[..o] + t + file[o + |t|..] else file[..o] + t
  }

  lemma SpliceInside(file: string, o: nat, t: string, i: nat, j: nat)
    requires o <= |file| && i <= j <= |t|
    ensures o + j <= |Splice(file, o, t)| && Splice(file, o, t)[o + i..o + j] == t[i..j]
  {
  }

  lemma SpliceOutside(file: string, o: nat, t: string, i: nat, j: nat)
    requires o <= |file| && i <= j <= |file|
    requires j <= o || o + |t| <= i
    ensures j <= |Splice(file, o, t)| && Splice(file, o, t)[i..j] == file[i..j]
  {
  }

  /** Two cells never share a byte. */
  lemma CellsApart(slots: map<nat, Slot>, nlists: nat, len: nat, p: nat, q: nat)
    requires Laid(slots, nlists, len)
    requires IsHeadCell(p, nlists) || p in slots
    requires IsHeadCell(q, nlists) || q in slots
    requires p != q
    ensures p + PTR_SZ <= q || q + PTR_SZ <= p
  {
  }

  /** A cell is never inside a record's length field or text. */
  lemma CellOutsideBody(slots: map<nat, Slot>, nlists: nat, len: nat, p: nat, o: nat)
    requires Laid(slots, nlists, len)
    requires IsHeadCell(p, nlists) || p in slots
    requires o in slots
    ensures p + PTR_SZ <= o + PTR_SZ || End(o, slots[o]) <= p
  {
  }

  lemma CellKept(file: string, o: nat, t: string, q: nat, v: nat)
    requires o <= |file| && CellIs(file, q, v)
    requires q + PTR_SZ <= o || o + |t| <= q
    ensures CellIs(Splice(file, o, t), q, v)
  {
    SpliceOutside(file, o, t, q, q + PTR_SZ);
  }

  lemma BodyKept(file: string, o: nat, t: string, q: nat, r: Slot)
    requires o <= |file| && BodyIs(file, q, r)
    requires o + |t| <= q + PTR_SZ || End(q, r) <= o
    ensures BodyIs(Splice(file, o, t), q, r)
  {
    SpliceOutside(file, o, t, q + PTR_SZ, q + PREFIX);
    SpliceOutside(file, o, t, q + PREFIX, End(q, r));
  }

  /** Rewriting a chain pointer changes that cell and nothing else. */
  lemma WriteCell(file: string, ptrs: map<nat, nat>, slots: map<nat, Slot>, nlists: nat, p: nat, v: nat)
    requires TextOk(file, ptrs, slots, nlists) && p in ptrs && v <= PTR_MAX
    ensures p <= |file|
    ensures TextOk(Splice(file, p, PtrText(v)), ptrs[p := v], slots, nlists)
  {
    PtrTextReads(v);
    assert CellIs(file, p, ptrs[p]);
    var f := Splice(file, p, PtrText(v));
    forall q | q in ptrs && q != p ensures CellIs(f, q, ptrs[q]) {
      assert CellIs(file, q, ptrs[q]);
      CellsApart(slots, nlists, |file|, p, q);
      CellKept(file, p, PtrText(v), q, ptrs[q]);
    }
    CellWritten(file, p, v);
    CellSet(f, ptrs, p, v);
    CellMissesBodies(file, ptrs, slots, nlists, p, v);
  }

  lemma CellMissesBodies(file: string, ptrs: map<nat, nat>, slots: map<nat, Slot>, nlists: nat, p: nat, v: nat)
    requires TextOk(file, ptrs, slots, nlists) && p in ptrs && v <= PTR_MAX && p <= |file|
    ensures BodiesOk(Splice(file, p, PtrText(v)), slots)
  {
    PtrTextReads(v);
    forall o | o in slots ensures BodyIs(Splice(file, p, PtrText(v)), o, slots[o]) {
      assert BodyIs(file, o, slots[o]);
      CellOutsideBody(slots, nlists, |file|, p, o);
      BodyKept(file, p, PtrText(v), o, slots[o]);
    }
  }

  lemma CellWritten(file: string, p: nat, v: nat)
    requires v <= PTR_MAX && p + PTR_SZ <= |file|
    ensures CellIs(Splice(file, p, PtrText(v)), p, v)
  {
    PtrTextReads(v);
    SpliceInside(file, p, PtrText(v), 0, PTR_SZ);
  }

  /** The two writes of _db_writeidx: pointer and length, then the text. */
  function WriteRecord(file: string, o: nat, v: nat, r: Slot): string
    requires o <= |file|
    requires v <= PTR_MAX && Printable(r)
  {
    PtrTextReads(v); LenTextReads(r.size);
    Splice(Splice(file, o, PtrText(v) + LenText(r.size)), o + PREFIX, Body(r))
  }

  lemma WriteRecordAt(file: string, o: nat, v: nat, r: Slot)
    requires o <= |file| && v <= PTR_MAX && Printable(r)
    ensures var f := WriteRecord(file, o, v, r);
            && |f| == (if End(o, r) <= |file| then |file| else End(o, r))
            && CellIs(f, o, v) && BodyIs(f, o, r)
  {
    PtrTextReads(v); LenTextReads(r.size); BodyLength(r);
    var t := PtrText(v) + LenText(r.size);
    var g := Splice(file, o, t);
    SpliceInside(file, o, t, 0, PTR_SZ);
    SpliceInside(file, o, t, PTR_SZ, PREFIX);
    assert t[0..PTR_SZ] == PtrText(v) && t[PTR_SZ..PREFIX] == LenText(r.size);
    SpliceOutside(g, o + PREFIX, Body(r), o, o + PTR_SZ);
    SpliceOutside(g, o + PREFIX, Body(r), o + PTR_SZ, o + PREFIX);
    SpliceInside(g, o + PREFIX, Body(r), 0, r.size);
    assert Body(r)[0..r.size] == Body(r);
  }

  lemma RecordCellKept(file: string, o: nat, v: nat, r: Slot, q: nat, w: nat)
    requires o <= |file| && v <= PTR_MAX && Printable(r) && CellIs(file, q, w)
    requires q + PTR_SZ <= o || End(o, r) <= q
    ensures CellIs(WriteRecord(file, o, v, r), q, w)
  {
    PtrTextReads(v); LenTextReads(r.size); BodyLength(r);
    CellKept(file, o, PtrText(v) + LenText(r.size), q, w);
    CellKept(Splice(file, o, PtrText(v) + LenText(r.size)), o + PREFIX, Body(r), q, w);
  }

  lemma RecordBodyKept(file: string, o: nat, v: nat, r: Slot, q: nat, w: Slot)
    requires o <= |file| && v <= PTR_MAX && Printable(r) && BodyIs(file, q, w)
    requires End(o, r) <= q || End(q, w) <= o
    ensures BodyIs(WriteRecord(file, o, v, r), q, w)
  {
    PtrTextReads(v); LenTextReads(r.size); BodyLength(r);
    BodyKept(file, o, PtrText(v) + LenText(r.size), q, w);
    BodyKept(Splice(file, o, PtrText(v) + LenText(r.size)), o + PREFIX, Body(r), q, w);
  }

  /** Writing a record, in its own slot or at the end of the file, leaves every other cell and record alone. */
  lemma Elsewhere(file: string, ptrs: map<nat, nat>, slots: map<nat, Slot>, nlists: nat, o: nat, v: nat, r: Slot)
    requires TextOk(file, ptrs, slots, nlists) && v <= PTR_MAX && Printable(r)
    requires o == |file| || (o in slots && r.size == slots[o].size)
    ensures o <= |file|
    ensures forall p :: p in ptrs && p != o ==> CellIs(WriteRecord(file, o, v, r), p, ptrs[p])
    ensures forall q :: q in slots && q != o ==> BodyIs(WriteRecord(file, o, v, r), q, slots[q])
  {
    if o in slots { assert BodyIs(file, o, slots[o]); }
    forall p | p in ptrs && p != o ensures CellIs(WriteRecord(file, o, v, r), p, ptrs[p]) {
      assert CellIs(file, p, ptrs[p]);
      if o in slots {
        CellsApart(slots, nlists, |file|, p, o);
        CellOutsideBody(slots, nlists, |file|, p, o);
      }
      RecordCellKept(file, o, v, r, p, ptrs[p]);
    }
    forall q | q in slots && q != o ensures BodyIs(WriteRecord(file, o, v, r), q, slots[q]) {
      assert BodyIs(file, q, slots[q]);
      RecordBodyKept(file, o, v, r, q, slots[q]);
    }
  }

  lemma LaidOver(slots: map<nat, Slot>, nlists: nat, len: nat, o: nat, r: Slot)
    requires Laid(slots, nlists, len)
    requires o == len || (o in slots && r.size == slots[o].size)
    ensures o == len ==> o !in slots && !IsHeadCell(o, nlists)
    ensures Laid(slots[o := r], nlists, if o == len then End(o, r) else len)
  {
  }

  lemma CellSet(file: string, ptrs: map<nat, nat>, o: nat, v: nat)
    requires CellIs(file, o, v) && forall p :: p in ptrs && p != o ==> CellIs(file, p, ptrs[p])
    ensures CellsOk(file, ptrs[o := v])
  {
  }

  lemma BodySet(file: string, slots: map<nat, Slot>, o: nat, r: Slot)
    requires BodyIs(file, o, r) && forall q :: q in slots && q != o ==> BodyIs(file, q, slots[q])
    ensures BodiesOk(file, slots[o := r])
  {
  }

  lemma PlaceSet(ptrs: map<nat, nat>, slots: map<nat, Slot>, nlists: nat, o: nat, v: nat, r: Slot)
    requires CellPlaces(ptrs, slots, nlists)
    ensures CellPlaces(ptrs[o := v], slots[o := r], nlists)
  {
  }

  /** Rewriting a record in its own slot changes that record and its pointer, nothing else. */
  lemma Overwrite(file: string, ptrs: map<nat, nat>, slots: map<nat, Slot>, nlists: nat, o: nat, v: nat, r: Slot)
    requires TextOk(file, ptrs, slots, nlists) && o in slots && v <= PTR_MAX && Printable(r)
    requires r.size == slots[o].size
    ensures o <= |file|
    ensures TextOk(WriteRecord(file, o, v, r), ptrs[o := v], slots[o := r], nlists)
    ensures |WriteRecord(file, o, v, r)| == |file|
  {
    WriteRecordAt(file, o, v, r);
    Elsewhere(file, ptrs, slots, nlists, o, v, r);
    LaidOver(slots, nlists, |file|, o, r);
    CellSet(WriteRecord(file, o, v, r), ptrs, o, v);
    BodySet(WriteRecord(file, o, v, r), slots, o, r);
    PlaceSet(ptrs, slots, nlists, o, v, r);
  }

  /** A record written at the end of the file becomes a new boundary; no old one moves. */
  lemma Append(file: string, ptrs: map<nat, nat>, slots: map<nat, Slot>, nlists: nat, v: nat, r: Slot)
    requires TextOk(file, ptrs, slots, nlists) && v <= PTR_MAX && Printable(r)
    ensures |file| !in slots && |file| !in ptrs
    ensures TextOk(WriteRecord(file, |file|, v, r), ptrs[|file| := v], slots[|file| := r], nlists)
    ensures |WriteRecord(file, |file|, v, r)| == End(|file|, r)
  {
    WriteRecordAt(file, |file|, v, r);
    Elsewhere(file, ptrs, slots, nlists, |file|, v, r);
    LaidOver(slots, nlists, |file|, |file|, r);
    CellSet(WriteRecord(file, |file|, v, r), ptrs, |file|, v);
    BodySet(WriteRecord(file, |file|, v, r), slots, |file|, r);
    PlaceSet(ptrs, slots, nlists, |file|, v, r);
  }

  /** The two writes at a place where a record is, or may go, leave the text of the new records. */
  lemma TwoWrites(file: string, ptrs: map<nat, nat>, slots: map<nat, Slot>, nlists: nat, o: nat, v: nat, r: Slot)
    requires TextOk(file, ptrs, slots, nlists) && v <= PTR_MAX && Printable(r)
    requires o == |file| || (o in slots && r.size == slots[o].size)
    ensures |PtrText(v) + LenText(r.size)| == PREFIX && o <= |file|
    ensures o + PREFIX <= |Splice(file, o, PtrText(v) + LenText(r.size))|
    ensures var f := Splice(Splice(file, o, PtrText(v) + LenText(r.size)), o + PREFIX, Body(r));
            TextOk(f, ptrs[o := v], slots[o := r], nlists) && |f| == if o == |file| then End(o, r) else |file|
  {
    hide TextOk, Splice, Body, End;
    PtrTextReads(v);
    LenTextReads(r.size);
    if o == |file| {
      Append(file, ptrs, slots, nlists, v, r);
    } else {
      Overwrite(file, ptrs, slots, nlists, o, v, r);
    }
  }

  /** Reading any record of the file gives back the pointer and the fields it stands for. */
  lemma ReadsBack(file: string, ptrs: map<nat, nat>, slots: map<nat, Slot>, nlists: nat, o: nat)
    requires TextOk(file, ptrs, slots, nlists) && o in slots
    ensures o in ptrs && ReadRecord(file, o) == Good(ptrs[o], slots[o])
  {
    assert CellIs(file, o, ptrs[o]) && BodyIs(file, o, slots[o]);
    ReadBack(file, o, ptrs[o], slots[o]);
  }

  /** At a record boundary reading fails exactly at the end of the file: a scan from boundary to boundary stops there
      and nowhere before. */
  lemma StopsAtEnd(file: string, ptrs: map<nat, nat>, slots: map<nat, Slot>, nlists: nat, o: nat)
    requires TextOk(file, ptrs, slots, nlists) && (o in slots || o >= |file|)
    ensures ReadRecord(file, o) == Bad <==> o >= |file|
  {
    if o in slots {
      ReadsBack(file, ptrs, slots, nlists, o);
    }
  }
}
