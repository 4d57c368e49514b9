/**
 * The text of one index record: what _db_writeidx prints and what _db_readidx parses.
 *
 *   ptr(9) len(4) key-area ':' datoff ':' datlen ':' keylen ':' used ':' free [blanks] '\n'
 */
module IndexRecord {
  import opened CText
  import opened Machine

  const PTR_SZ := 9
  const IDXLEN_SZ := 4
  const IDXLEN_MIN := 6
  const IDXLEN_MAX := 4096
  const DATLEN_MAX := 2097152
  const DATA_FILELEN_MAX := 2000000000
  const PTR_MAX := 999999999
  const IDX_RANGE := 1000
  const DAT_RANGE := 3072

  /** Bytes in front of the record text: the chain pointer and the length. */
  const PREFIX := PTR_SZ + IDXLEN_SZ

  /** The longest key whose record text stays within IDXLEN_MAX for every data offset and length the
      database can produce (see FitsIdxLenMax). */
  const KEY_MAX := 4061

  /**
   * One record, without its chain pointer.
   * size: bytes of record text, newline included; fixed when the record is first written.
   * area: width of the key column; datlen/used: data extent and the bytes of it in use.
   */
  datatype Slot = Slot(size: nat, area: nat, key: string, datoff: nat, datlen: nat, used: nat, free: bool)

  datatype Read = Bad | Good(ptrval: int, slot: Slot)

  // ---------------------------------------------------------------- printer

  function Flag(free: bool): nat { if free then 1 else 0 }

  /** The record text up to, not including, its newline. */
  function Line(r: Slot): string {
    PadRight(r.area, r.key) + [SEP] + Digits(r.datoff) + [SEP] + Digits(r.datlen) + [SEP] +
    Digits(|r.key|) + [SEP] + Digits(r.used) + [SEP] + Digits(Flag(r.free))
  }

  /** Length of the unpadded record text, newline included (see LineLength). */
  function TextLen(r: Slot): nat {
    (if |r.key| < r.area then r.area else |r.key|) + 7 +
    NumLen(r.datoff) + NumLen(r.datlen) + NumLen(|r.key|) + NumLen(r.used)
  }

  /** The text as stored: blanks fill the slot up to its size. */
  function Body(r: Slot): string {
    Line(r) + Blanks(if TextLen(r) < r.size then r.size - TextLen(r) else 0) + ['\n']
  }

  function PtrText(v: nat): string {
    PadLeft(PTR_SZ, Digits(v))
  }

  function LenText(n: nat): string {
    PadLeft(IDXLEN_SZ, Digits(n))
  }

  /** A key column at least as wide as its key, no NUL in the key, and a slot its text fits. */
  predicate Printable(r: Slot) {
    && NUL !in r.key && |r.key| <= r.area <= KEY_MAX
    && r.datlen <= DATLEN_MAX && r.used <= r.datlen && r.datoff + r.datlen <= DATA_FILELEN_MAX
    && TextLen(r) <= r.size <= IDXLEN_MAX
  }

  // ---------------------------------------------------------------- parser

  /** The key column and the five fields to its right. */
  const FIELDS := 5

  /** Split off the k right-most fields, one strrchr each; the fields come out left to right. */
  function CutRight(s: string, k: nat): (fs: seq<string>)
    ensures |fs| == 0 || |fs| == k + 1
    decreases k
  {
    if k == 0 then [s]
    else match CutLast(s)
      case NoSep => []
      case Cut(l, r) =>
        var fs := CutRight(l, k - 1);
        if fs == [] then [] else fs + [r]
  }

  /** The values of key column, datoff, datlen, keylen, used and free, with _db_readidx's range checks. */
  function FieldValues(fs: seq<string>, size: nat): Option<Slot>
    requires |fs| == FIELDS + 1
  {
    var area := fs[0];
    var datoff, datlen, keylen, used, free := Atol(fs[1]), Atol(fs[2]), Atol(fs[3]), Atol(fs[4]), Atol(fs[5]);
    if datoff < 0 || datlen < 0 || datlen > DATLEN_MAX || keylen < 0 || used < 0 || free < 0 then None
    else Some(Slot(size, |area|, if keylen <= |area| then area[..keylen] else area, datoff, datlen, used, free != 0))
  }

  /** The part of _db_readidx that works on its buffer. */
  function ParseBody(buf: string): Option<Slot>
    requires |buf| >= 1
  {
    if buf[|buf| - 1] != '\n' then None
    else
      var fs := CutRight(CString(buf[..|buf| - 1]), FIELDS);
      if fs == [] then None else FieldValues(fs, |buf|)
  }

  /** _db_readidx on the contents of an index file. */
  function ReadRecord(file: string, off: nat): Read {
    if off + PREFIX > |file| then Bad
    else
      var ptrval := Atol(file[off..off + PTR_SZ]);
      var idxlen := Atol(file[off + PTR_SZ..off + PREFIX]);
      if idxlen < IDXLEN_MIN || idxlen > IDXLEN_MAX || off + PREFIX + idxlen > |file| then Bad
      else match ParseBody(file[off + PREFIX..off + PREFIX + idxlen])
        case None => Bad
        case Some(r) => Good(ptrval, r)
  }

  // ---------------------------------------------------------------- round trip

  lemma LineLength(r: Slot)
    ensures |Line(r)| + 1 == TextLen(r)
  {
    DigitsShape(r.datoff); DigitsShape(r.datlen); DigitsShape(|r.key|); DigitsShape(r.used); DigitsShape(Flag(r.free));
  }

  lemma BodyLength(r: Slot)
    requires TextLen(r) <= r.size
    ensures |Body(r)| == r.size
  {
    LineLength(r);
  }

  lemma ExampleDigits()
    ensures Digits(120) == "120" && Digits(45) == "45" && Digits(7) == "7" && Digits(3) == "3" && Digits(0) == "0"
    ensures NumLen(120) == 3 && NumLen(45) == 2 && NumLen(7) == 1 && NumLen(3) == 1 && Digits(23) == "23"
  {
    assert Digits(12) == "12" && Digits(4) == "4";
  }

  /** The format, on a record in use with a blank to spare in its key column and five in its slot. */
  lemma FormatExample()
    ensures Body(Slot(23, 4, "abc", 120, 45, 7, false)) == "abc :120:45:3:7:0" + "     " + "\n"
    ensures PtrText(45) == "       45" && LenText(23) == "  23"
  {
    hide Digits, NumLen;
    ExampleDigits();
    var r := Slot(23, 4, "abc", 120, 45, 7, false);
    assert Line(r) == "abc " + [SEP] + "120" + [SEP] + "45" + [SEP] + "3" + [SEP] + "7" + [SEP] + "0";
    assert TextLen(r) == 18;
  }

  lemma LineHasNoNul(r: Slot)
    requires NUL !in r.key
    ensures NUL !in Line(r)
  {
    assert NUL !in PadRight(r.area, r.key);
    DigitsShape(r.datoff); DigitsShape(r.datlen); DigitsShape(|r.key|); DigitsShape(r.used); DigitsShape(Flag(r.free));
  }

  /** The line and its padding, in front of the final newline. */
  lemma BodySplit(r: Slot) returns (pad: string)
    requires Printable(r)
    ensures |Body(r)| == r.size && Body(r)[r.size - 1] == '\n'
    ensures forall c :: c in pad ==> c == ' '
    ensures CString(Body(r)[..r.size - 1]) == Line(r) + pad
  {
    BodyLength(r);
    pad := Blanks(if TextLen(r) < r.size then r.size - TextLen(r) else 0);
    LineHasNoNul(r);
    assert Body(r)[..r.size - 1] == Line(r) + pad;
    CStringWhole(Line(r) + pad);
  }

  /** Fields joined by separators. */
  function Joined(fs: seq<string>): string
    requires |fs| >= 1
  {
    if |fs| == 1 then fs[0] else Joined(fs[..|fs| - 1]) + [SEP] + fs[|fs| - 1]
  }

  lemma {:induction false} CutRightJoined(fs: seq<string>)
    requires |fs| >= 1 && forall i :: 1 <= i < |fs| ==> SEP !in fs[i]
    ensures CutRight(Joined(fs), |fs| - 1) == fs
  {
    if |fs| > 1 {
      var n := |fs| - 1;
      CutLastAt(Joined(fs[..n]), fs[n]);
      CutRightJoined(fs[..n]);
      assert fs == fs[..n] + [fs[n]];
    }
  }

  function PrintedFields(r: Slot, pad: string): seq<string> {
    [PadRight(r.area, r.key), Digits(r.datoff), Digits(r.datlen), Digits(|r.key|), Digits(r.used), Digits(Flag(r.free)) + pad]
  }

  lemma LineJoined(r: Slot, pad: string)
    ensures Line(r) + pad == Joined(PrintedFields(r, pad))
  {
    var fs := PrintedFields(r, pad);
    assert fs[..5][..4] == fs[..4] && fs[..4][..3] == fs[..3] && fs[..3][..2] == fs[..2] && fs[..2][..1] == fs[..1];
    assert Joined(fs[..1]) == fs[0];
    assert Joined(fs[..2]) == fs[0] + [SEP] + fs[1];
    assert Joined(fs[..3]) == fs[0] + [SEP] + fs[1] + [SEP] + fs[2];
    assert Joined(fs[..4]) == fs[0] + [SEP] + fs[1] + [SEP] + fs[2] + [SEP] + fs[3];
    assert Joined(fs[..5]) == fs[0] + [SEP] + fs[1] + [SEP] + fs[2] + [SEP] + fs[3] + [SEP] + fs[4];
  }

  lemma PrintedFieldsHaveNoSep(r: Slot, pad: string)
    requires forall c :: c in pad ==> c == ' '
    ensures forall i :: 1 <= i < 6 ==> SEP !in PrintedFields(r, pad)[i]
  {
    DigitsShape(r.datoff); DigitsShape(r.datlen); DigitsShape(|r.key|); DigitsShape(r.used); DigitsShape(Flag(r.free));
  }

  /** Parsing a printed record gives the record back: keys with ':' or trailing blanks, and slots padded
      with blanks, included. */
  lemma ParsePrinted(r: Slot)
    requires Printable(r)
    ensures |Body(r)| == r.size && ParseBody(Body(r)) == Some(r)
  {
    var pad := BodySplit(r);
    LineJoined(r, pad);
    PrintedFieldsHaveNoSep(r, pad);
    CutRightJoined(PrintedFields(r, pad));
    FieldValuesPrinted(r, pad);
  }

  lemma FieldValuesPrinted(r: Slot, pad: string)
    requires Printable(r) && forall c :: c in pad ==> c == ' '
    ensures FieldValues(PrintedFields(r, pad), r.size) == Some(r)
  {
    AtolPlain(r.datoff); AtolPlain(r.datlen); AtolPlain(|r.key|); AtolPlain(r.used);
    AtolFlag(r.free, pad);
    assert PadRight(r.area, r.key)[..|r.key|] == r.key;
  }

  lemma AtolFlag(free: bool, pad: string)
    requires forall c :: c in pad ==> c == ' '
    ensures Atol(Digits(Flag(free)) + pad) == Flag(free)
  {
    if pad != [] { assert pad[0] in pad; }
    AtolOfDigits(0, Flag(free), pad);
    assert Blanks(0) + Digits(Flag(free)) + pad == Digits(Flag(free)) + pad;
  }

  lemma AtolPlain(n: nat)
    ensures Atol(Digits(n)) == n
  {
    AtolOfDigits(0, n, []);
    assert Blanks(0) + Digits(n) + [] == Digits(n);
  }

  lemma PtrTextReads(v: nat)
    requires v <= PTR_MAX
    ensures |PtrText(v)| == PTR_SZ && Atol(PtrText(v)) == v
  {
    assert Pow10(9) == 1000000000 by { assert Pow10(5) == 100000; }
    DigitsShape(v); NumLenFits(v, 9);
    AtolOfDigits(9 - |Digits(v)|, v, []);
    assert PtrText(v) == Blanks(9 - |Digits(v)|) + Digits(v) + [];
  }

  lemma LenTextReads(n: nat)
    requires n <= IDXLEN_MAX
    ensures |LenText(n)| == IDXLEN_SZ && Atol(LenText(n)) == n
  {
    DigitsShape(n); NumLenFits(n, 4);
    AtolOfDigits(4 - |Digits(n)|, n, []);
    assert LenText(n) == Blanks(4 - |Digits(n)|) + Digits(n) + [];
  }

  lemma ReadRecordParts(file: string, off: nat, ptrval: nat, size: nat, r: Slot)
    requires IDXLEN_MIN <= size <= IDXLEN_MAX && off + PREFIX + size <= |file|
    requires Atol(file[off..off + PTR_SZ]) == ptrval
    requires Atol(file[off + PTR_SZ..off + PREFIX]) == size
    requires ParseBody(file[off + PREFIX..off + PREFIX + size]) == Some(r)
    ensures ReadRecord(file, off) == Good(ptrval, r)
  {
    hide ParseBody, Atol;
  }

  /** Index-record round trip at any offset of any file: the record printed there is the record read there. */
  lemma ReadBack(file: string, off: nat, ptrval: nat, r: Slot)
    requires Printable(r) && ptrval <= PTR_MAX
    requires off + PREFIX + r.size <= |file|
    requires file[off..off + PTR_SZ] == PtrText(ptrval)
    requires file[off + PTR_SZ..off + PREFIX] == LenText(r.size)
    requires file[off + PREFIX..off + PREFIX + r.size] == Body(r)
    ensures ReadRecord(file, off) == Good(ptrval, r)
  {
    hide ReadRecord, ParseBody, Body, Atol, PtrText, LenText;
    PtrTextReads(ptrval);
    LenTextReads(r.size);
    ParsePrinted(r);
    ReadRecordParts(file, off, ptrval, r.size, r);
  }

  /** Widest possible text: keys up to KEY_MAX never reach IDXLEN_MAX, whatever extent they are given. */
  lemma FitsIdxLenMax(r: Slot)
    requires |r.key| <= r.area <= KEY_MAX
    requires r.datlen <= DATLEN_MAX && r.used <= r.datlen && r.datoff <= DATA_FILELEN_MAX
    ensures TextLen(r) <= IDXLEN_MAX
  {
    assert Pow10(4) == 10000 && Pow10(7) == 10000000 by { assert Pow10(3) == 1000; }
    assert Pow10(10) == 10000000000 by { assert Pow10(7) == 10000000; }
    NumLenFits(r.datoff, 10);
    NumLenFits(r.datlen, 7);
    NumLenFits(r.used, 7);
    NumLenFits(|r.key|, 4);
  }
}
