/**
 * The multi-page content record of src/module/LocalDbManager.cpp: a text header with an entry for each page, then
 * the compressed pages. Compression is a pair of functions that undo each other. Pages are only ever added at the
 * end, and the header's offsets and lengths cut the content into exactly the pages that were saved.
 */
module ContentRecord {
  import opened CText
  import opened Machine
  import opened IndexRecord

  datatype Page = Page(id: nat, offset: nat, length: nat, page: int)

  /** nowpage is the number of pages. */
  datatype Head = Head(totallength: nat, totalpage: int, taskid: int, batchid: int, pages: seq<Page>)

  // ---------------------------------------------------------------- printing

  /** "%d" */
  function IntText(n: int): string {
    if n < 0 then "-" + Digits(-n) else Digits(n)
  }

  function PageText(p: Page): string {
    IntText(p.id) + "/" + IntText(p.offset) + "/" + IntText(p.length) + "/" + IntText(p.page) + "/"
  }

  function PagesText(ps: seq<Page>): string {
    if ps == [] then "" else PageText(ps[0]) + PagesText(ps[1..])
  }

  function Fields(total: nat, totalpage: int, nowpage: int, taskid: int, batchid: int): string {
    IntText(total) + "/" + IntText(totalpage) + "/" + IntText(nowpage) + "/" + IntText(taskid) + "/" + IntText(batchid) + "/"
  }

  function LengthText(n: nat): string { PadLeft(8, Digits(n)) + "/" }

  function HeadBody(h: Head): string {
    Fields(h.totallength, h.totalpage, |h.pages|, h.taskid, h.batchid) + PagesText(h.pages)
  }

  function HeadText(h: Head): string {
    LengthText(|HeadBody(h)| + 9) + HeadBody(h)
  }

  lemma ExampleNumbers()
    ensures IntText(12345) == "12345" && IntText(10) == "10" && IntText(0) == "0" && IntText(1) == "1"
    ensures IntText(2) == "2" && IntText(7) == "7" && IntText(3) == "3" && PadLeft(8, Digits(33)) == "      33"
  {
    assert Digits(123) == "123";
    assert Digits(12345) == "12345";
    assert Blanks(6) == "      ";
  }

  lemma PageExample()
    ensures PageText(Page(12345, 0, 10, 1)) == "12345/0/10/1/"
  {
    hide Digits, IntText;
    ExampleNumbers();
    assert "12345" + "/" + "0" == "12345/0";
    assert "12345/0" + "/" + "10" == "12345/0/10";
    assert "12345/0/10" + "/" + "1" + "/" == "12345/0/10/1/";
  }

  lemma FieldsExample()
    ensures Fields(10, 2, 1, 7, 3) == "10/2/1/7/3/"
  {
    hide Digits, IntText;
    ExampleNumbers();
    assert "10" + "/" + "2" + "/" + "1" == "10/2/1";
    assert "10/2/1" + "/" + "7" + "/" + "3" + "/" == "10/2/1/7/3/";
  }

  lemma BodyExample()
    ensures HeadBody(Head(10, 2, 7, 3, [Page(12345, 0, 10, 1)])) == "10/2/1/7/3/12345/0/10/1/"
  {
    hide PageText, Fields;
    var p := Page(12345, 0, 10, 1);
    PageExample();
    FieldsExample();
    assert [p][1..] == [];
    assert PagesText([p]) == "12345/0/10/1/" + "" == "12345/0/10/1/";
  }

  lemma BodyLength()
    ensures |"10/2/1/7/3/12345/0/10/1/"| == 24
  {
  }

  /** The head of a record with one page of ten bytes, as it stands in the file. */
  lemma HeadExample()
    ensures HeadText(Head(10, 2, 7, 3, [Page(12345, 0, 10, 1)])) == "      33/" + "10/2/1/7/3/12345/0/10/1/"
  {
    hide HeadBody, PadLeft, Digits;
    BodyExample();
    BodyLength();
    ExampleNumbers();
    assert "      33" + "/" == "      33/";
  }

  /** writeHead; the length of the text is the head's headlength. */
  method WriteHead(h: Head) returns (buf: string)
    ensures buf == HeadText(h)
  {
    hide Fields, PageText, IntText, LengthText;
    var buffer := Fields(h.totallength, h.totalpage, |h.pages|, h.taskid, h.batchid);
    for i := 0 to |h.pages|
      invariant buffer + PagesText(h.pages[i..]) == HeadBody(h)
    {
      assert h.pages[i..][1..] == h.pages[i + 1..];
      buffer := buffer + PageText(h.pages[i]);
    }
    buf := LengthText(|buffer| + 8 + 1) + buffer;
  }

  // ---------------------------------------------------------------- scanning

  datatype Scan = NoMatch | Match(value: int, rest: string)

  /** "%d/" of sscanf, with a field width. */
  function ScanField(s: string, width: nat): Scan {
    var t := SkipSpaces(s);
    var l := if |t| <= width then t else t[..width];
    var u := if l != "" && (l[0] == '-' || l[0] == '+') then l[1..] else l;
    if u == "" || !IsDigit(u[0]) then NoMatch
    else
      var after := t[|l| - |DropDigits(u)|..];
      if after == "" || after[0] != '/' then NoMatch
      else Match(if l[0] == '-' then -ScanDigits(u, 0) else ScanDigits(u, 0), after[1..])
  }

  /** The digits of a number, before something else, scan as the number. */
  lemma NumberScans(n: nat, r: string)
    requires r == "" || !IsDigit(r[0])
    ensures ScanDigits(Digits(n) + r, 0) == n && DropDigits(Digits(n) + r) == r
    ensures Digits(n) != "" && IsDigit(Digits(n)[0])
  {
    DigitsShape(n);
    assert Digits(n)[0] in Digits(n);
    ScanOfDigits(n, r);
    DropOfDigits(n, r);
  }

  /** Reading back a printed number and its slash. */
  lemma IntTextThen(n: int, t: string)
    ensures IntText(n) + t == if n < 0 then "-" + (Digits(-n) + t) else Digits(n) + t
  {
    if n < 0 { assert ("-" + Digits(-n)) + t == "-" + (Digits(-n) + t); }
  }

  lemma ScanPrinted(n: int, rest: string, width: nat)
    requires |IntText(n) + "/" + rest| <= width
    ensures ScanField(IntText(n) + "/" + rest, width) == Match(n, rest)
  {
    hide Digits, ScanDigits, DropDigits, IntText;
    var m := if n < 0 then -n else n;
    var d, t := Digits(m), "/" + rest;
    NumberScans(m, t);
    var s := IntText(n) + "/" + rest;
    assert s == IntText(n) + t;
    IntTextThen(n, t);
    assert s[0] == if n < 0 then '-' else d[0];
    assert s[|s| - |t|..] == t && t[1..] == rest;
    assert n < 0 ==> s[1..] == d + t;
  }

  lemma ScanPrintedAll(n: int, rest: string)
    ensures var s := IntText(n) + "/" + rest; ScanField(s, |s|) == Match(n, rest)
  {
    ScanPrinted(n, rest, |IntText(n) + "/" + rest|);
  }

  lemma PowEight()
    ensures Pow10(8) == 100_000_000
  {
    assert Pow10(4) == 10_000;
  }

  /** The length field is read in eight columns, blanks before it not counted. */
  lemma FirstEight(d: string, u: string)
    requires 0 < |d| <= 8 && u != ""
    ensures var t := d + u;
            var l := if |t| <= 8 then t else t[..8];
            && |d| <= |l| && l == d + l[|d|..] && (l[|d|..] == "" || l[|d|..][0] == u[0])
            && t[0] == d[0] && t[|d|..] == u
  {
  }

  lemma ScanLength(n: nat, rest: string)
    requires n < 100_000_000
    ensures ScanField(LengthText(n) + rest, 8) == Match(n, rest)
  {
    hide Digits, NumLen, ScanDigits, DropDigits;
    var d, u := Digits(n), "/" + rest;
    NumLenFits(n, 8);
    PowEight();
    DigitsShape(n);
    var t := d + u;
    var k: nat := 8 - |d|;
    assert LengthText(n) + rest == Blanks(k) + t;
    var l := if |t| <= 8 then t else t[..8];
    NumberScans(n, "");
    FirstEight(d, u);
    NumberScans(n, l[|d|..]);
    SkipBlanks(k, t);
    assert u[1..] == rest;
  }

  function ScanPage(s: string): Option<Page> {
    match ScanField(s, |s|)
    case NoMatch => None
    case Match(id, s1) =>
      match ScanField(s1, |s1|)
      case NoMatch => None
      case Match(offset, s2) =>
        match ScanField(s2, |s2|)
        case NoMatch => None
        case Match(length, s3) =>
          match ScanField(s3, |s3|)
          case NoMatch => None
          case Match(page, _) =>
            if id < 0 || offset < 0 || length < 0 then None else Some(Page(id, offset, length, page))
  }

  /** n page entries, each skipped by the length of its text printed anew. */
  function ReadPages(s: string, n: nat): Option<seq<Page>>
    decreases n
  {
    if n == 0 then Some([])
    else
      match ScanPage(s)
      case None => None
      case Some(p) =>
        if |PageText(p)| > |s| then None
        else
          match ReadPages(s[|PageText(p)|..], n - 1)
          case None => None
          case Some(ps) => Some([p] + ps)
  }

  /** headlength, and the head's own fields without the pages. */
  datatype Front = Front(headlength: int, totallength: int, totalpage: int, nowpage: int, taskid: int, batchid: int)

  function ScanFront(s: string): Option<Front> {
    match ScanField(s, 8)
    case NoMatch => None
    case Match(headlength, s1) =>
      match ScanField(s1, |s1|)
      case NoMatch => None
      case Match(total, s2) =>
        match ScanField(s2, |s2|)
        case NoMatch => None
        case Match(totalpage, s3) =>
          match ScanField(s3, |s3|)
          case NoMatch => None
          case Match(nowpage, s4) =>
            match ScanField(s4, |s4|)
            case NoMatch => None
            case Match(taskid, s5) =>
              match ScanField(s5, |s5|)
              case NoMatch => None
              case Match(batchid, _) =>
                if headlength < 0 || total < 0 || nowpage < 0 then None
                else Some(Front(headlength, total, totalpage, nowpage, taskid, batchid))
  }

  function FrontText(f: Front): string
    requires f.headlength >= 0 && f.totallength >= 0
  {
    LengthText(f.headlength) + Fields(f.totallength, f.totalpage, f.nowpage, f.taskid, f.batchid)
  }

  /** readHead: the head and its headlength, or None where the text is not a head. */
  function ReadHead(buf: string): Option<(nat, Head)> {
    match ScanFront(buf)
    case None => None
    case Some(f) =>
      if f.headlength < 0 || f.totallength < 0 || f.nowpage < 0 || |FrontText(f)| > |buf| then None
      else
        match ReadPages(buf[|FrontText(f)|..], f.nowpage)
        case None => None
        case Some(ps) => Some((f.headlength, Head(f.totallength, f.totalpage, f.taskid, f.batchid, ps)))
  }

  // ---------------------------------------------------------------- a head reads back

  lemma PageReads(p: Page, rest: string)
    ensures ScanPage(PageText(p) + rest) == Some(p)
  {
    hide IntText, ScanField;
    var r4 := rest;
    var s4 := IntText(p.page) + "/" + r4;
    var s3 := IntText(p.length) + "/" + s4;
    var s2 := IntText(p.offset) + "/" + s3;
    var s1 := IntText(p.id) + "/" + s2;
    ScanPrintedAll(p.page, r4);
    ScanPrintedAll(p.length, s4);
    ScanPrintedAll(p.offset, s3);
    ScanPrintedAll(p.id, s2);
    PageJoins(p, rest);
  }

  lemma PageJoins(p: Page, rest: string)
    ensures PageText(p) + rest ==
              IntText(p.id) + "/" + (IntText(p.offset) + "/" + (IntText(p.length) + "/" + (IntText(p.page) + "/" + rest)))
  {
    hide IntText;
  }

  lemma {:induction false} PagesRead(ps: seq<Page>, rest: string)
    ensures ReadPages(PagesText(ps) + rest, |ps|) == Some(ps)
    decreases |ps|
  {
    hide PageText, ScanPage;
    if ps != [] {
      var s := PagesText(ps) + rest;
      var t := PagesText(ps[1..]) + rest;
      assert s == PageText(ps[0]) + t;
      PageReads(ps[0], t);
      PagesRead(ps[1..], rest);
      assert s[|PageText(ps[0])|..] == t;
      assert [ps[0]] + ps[1..] == ps;
    }
  }

  lemma FrontReads(f: Front, rest: string)
    requires 0 <= f.headlength < 100_000_000 && f.totallength >= 0 && f.nowpage >= 0
    ensures ScanFront(FrontText(f) + rest) == Some(f)
  {
    hide IntText, ScanField, LengthText;
    var s6 := IntText(f.batchid) + "/" + rest;
    var s5 := IntText(f.taskid) + "/" + s6;
    var s4 := IntText(f.nowpage) + "/" + s5;
    var s3 := IntText(f.totalpage) + "/" + s4;
    var s2 := IntText(f.totallength) + "/" + s3;
    ScanPrintedAll(f.batchid, rest);
    ScanPrintedAll(f.taskid, s6);
    ScanPrintedAll(f.nowpage, s5);
    ScanPrintedAll(f.totalpage, s4);
    ScanPrintedAll(f.totallength, s3);
    ScanLength(f.headlength, s2);
    FrontJoins(f, rest);
  }

  lemma FrontJoins(f: Front, rest: string)
    requires f.headlength >= 0 && f.totallength >= 0
    ensures FrontText(f) + rest ==
              LengthText(f.headlength) + (IntText(f.totallength) + "/" + (IntText(f.totalpage) + "/" + (IntText(f.nowpage) + "/"
              + (IntText(f.taskid) + "/" + (IntText(f.batchid) + "/" + rest)))))
  {
    hide IntText, LengthText;
  }

  /** The text of a head is as long as its first field says. */
  lemma HeadTextLength(h: Head)
    requires |HeadBody(h)| + 9 < 100_000_000
    ensures |HeadText(h)| == |HeadBody(h)| + 9
  {
    hide HeadBody;
    NumLenFits(|HeadBody(h)| + 9, 8);
    DigitsShape(|HeadBody(h)| + 9);
  }

  /** readHead gives back the head that writeHead printed, and its length, whatever follows. */
  lemma HeadReads(h: Head, rest: string)
    requires |HeadBody(h)| + 9 < 100_000_000
    ensures ReadHead(HeadText(h) + rest) == Some((|HeadText(h)|, h))
  {
    hide LengthText, Fields, PagesText, ScanFront, ReadPages;
    HeadTextLength(h);
    var f := Front(|HeadBody(h)| + 9, h.totallength, h.totalpage, |h.pages|, h.taskid, h.batchid);
    var t := PagesText(h.pages) + rest;
    assert HeadText(h) + rest == FrontText(f) + t;
    FrontReads(f, t);
    PagesRead(h.pages, rest);
    assert (FrontText(f) + t)[|FrontText(f)|..] == t;
  }

  /** readHead, page by page. */
  method ReadHeadText(text: string) returns (r: Option<(nat, Head)>)
    ensures r == ReadHead(text)
  {
    hide ScanFront, ScanPage, PageText, FrontText, GoesOn, ReadPages;
    var front := ScanFront(text);
    if front.None? {
      return None;
    }
    var f := front.value;
    if f.headlength < 0 || f.totallength < 0 || f.nowpage < 0 || |FrontText(f)| > |text| {
      return None;
    }
    var buf := text[|FrontText(f)|..];
    ghost var start := buf;
    var contentPageHead: seq<Page> := [];
    GoesOnStart(buf, f.nowpage);
    for i := 0 to f.nowpage
      invariant GoesOn(start, f.nowpage, contentPageHead, buf, f.nowpage - i)
    {
      var p := ScanPage(buf);
      GoesOnStep(start, f.nowpage, contentPageHead, buf, f.nowpage - i);
      if p.None? || |PageText(p.value)| > |buf| {
        return None;
      }
      contentPageHead := contentPageHead + [p.value];
      buf := buf[|PageText(p.value)|..];
    }
    GoesOnStop(start, f.nowpage, contentPageHead, buf);
    return Some((f.headlength, Head(f.totallength, f.totalpage, f.taskid, f.batchid, contentPageHead)));
  }

  /** Reading n entries from start has given those of done and goes on with left more from buf. */
  predicate GoesOn(start: string, n: nat, done: seq<Page>, buf: string, left: nat) {
    ReadPages(start, n) == match ReadPages(buf, left)
                           case None => None
                           case Some(ps) => Some(done + ps)
  }

  lemma GoesOnStart(buf: string, n: nat)
    ensures GoesOn(buf, n, [], buf, n)
  {
    hide ReadPages;
    match ReadPages(buf, n)
    case None =>
    case Some(ps) => assert [] + ps == ps;
  }

  lemma GoesOnStep(start: string, n: nat, done: seq<Page>, buf: string, left: nat)
    requires GoesOn(start, n, done, buf, left) && left > 0
    ensures var p := ScanPage(buf);
            if p.None? || |PageText(p.value)| > |buf| then ReadPages(start, n).None?
            else GoesOn(start, n, done + [p.value], buf[|PageText(p.value)|..], left - 1)
  {
    hide ScanPage, PageText;
    var p := ScanPage(buf);
    if p.Some? && |PageText(p.value)| <= |buf| {
      match ReadPages(buf[|PageText(p.value)|..], left - 1)
      case None =>
      case Some(ps) => assert done + ([p.value] + ps) == done + [p.value] + ps;
    }
  }

  lemma GoesOnStop(start: string, n: nat, done: seq<Page>, buf: string)
    requires GoesOn(start, n, done, buf, 0)
    ensures ReadPages(start, n) == Some(done)
  {
    assert done + [] == done;
  }

  // ---------------------------------------------------------------- pages and content

  /** A page that was saved: its id and number, and its bytes, page header first. */
  datatype Saved = Saved(id: nat, page: int, bytes: string)

  function Join(saved: seq<Saved>): string {
    if saved == [] then "" else Join(saved[..|saved| - 1]) + saved[|saved| - 1].bytes
  }

  /** The entries of the header cut the content into the saved pages, one after the other and to its end, and no
      two are of the same id and page. */
  ghost predicate Describes(h: Head, saved: seq<Saved>) {
    && |h.pages| == |saved|
    && (forall i :: 0 <= i < |saved| ==>
          h.pages[i] == Page(saved[i].id, |Join(saved[..i])|, |saved[i].bytes|, saved[i].page))
    && h.totallength == |Join(saved)|
    && (forall i, j :: 0 <= i < j < |saved| ==> saved[i].id != saved[j].id || saved[i].page != saved[j].page)
  }

  predicate IsSaved(saved: seq<Saved>, id: nat, page: int) {
    exists i :: 0 <= i < |saved| && saved[i].id == id && saved[i].page == page
  }

  /** The entries tile the content: each begins where the one before it ends, from 0 to totallength. */
  lemma PagesTile(h: Head, saved: seq<Saved>)
    requires Describes(h, saved) && saved != []
    ensures h.pages[0].offset == 0
    ensures forall i :: 0 <= i < |h.pages| - 1 ==> h.pages[i + 1].offset == h.pages[i].offset + h.pages[i].length
    ensures var last := h.pages[|h.pages| - 1]; last.offset + last.length == h.totallength
  {
    hide Join;
    forall i | 0 <= i < |saved| ensures |Join(saved[..i + 1])| == |Join(saved[..i])| + |saved[i].bytes| {
      JoinLast(saved[..i + 1]);
      assert saved[..i + 1][..i] == saved[..i];
    }
    JoinNone();
    assert saved[..0] == [] && saved[..|saved|] == saved;
  }

  lemma JoinNone()
    ensures Join([]) == ""
  {
  }

  lemma JoinLast(saved: seq<Saved>)
    requires saved != []
    ensures Join(saved) == Join(saved[..|saved| - 1]) + saved[|saved| - 1].bytes
  {
  }

  lemma {:induction false} SliceOfJoin(saved: seq<Saved>, i: nat)
    requires i < |saved|
    ensures var o := |Join(saved[..i])|;
            o + |saved[i].bytes| <= |Join(saved)| && Join(saved)[o..o + |saved[i].bytes|] == saved[i].bytes
    decreases |saved|
  {
    hide Join;
    var n := |saved| - 1;
    JoinLast(saved);
    if i < n {
      assert saved[..n][..i] == saved[..i];
      SliceOfJoin(saved[..n], i);
    }
  }

  lemma DescribesMore(h: Head, saved: seq<Saved>, s: Saved)
    requires Describes(h, saved) && !IsSaved(saved, s.id, s.page)
    ensures Describes(h.(totallength := h.totallength + |s.bytes|, totalpage := h.totalpage + 1,
                         pages := h.pages + [Page(s.id, h.totallength, |s.bytes|, s.page)]), saved + [s])
  {
    var more := saved + [s];
    assert more[..|saved|] == saved;
    assert forall i :: 0 <= i <= |saved| ==> more[..i] == saved[..i];
  }

  lemma DescribesFirst(s: Saved, totalpage: int, taskid: int, batchid: int)
    ensures Describes(Head(|s.bytes|, totalpage, taskid, batchid, [Page(s.id, 0, |s.bytes|, s.page)]), [s])
  {
    assert [s][..0] == [];
  }

  // ---------------------------------------------------------------- the record

  /** A compression or decompression. */
  type Coding = string -> string

  /** inf undoes def, and does not look beyond what def wrote. */
  ghost predicate Undoes(def: Coding, inf: Coding) {
    forall c, junk {:trigger inf(def(c) + junk)} :: inf(def(c) + junk) == c
  }

  /** A stored record: the header's text and the compressed content, no longer than the database takes. */
  ghost predicate RecordOk(text: string, def: Coding, h: Head, saved: seq<Saved>) {
    && text == HeadText(h) + def(Join(saved)) && |text| <= DATLEN_MAX
    && Describes(h, saved)
  }

  lemma RecordReads(text: string, def: Coding, h: Head, saved: seq<Saved>, junk: string)
    requires RecordOk(text, def, h, saved)
    ensures ReadHead(text + junk) == Some((|HeadText(h)|, h)) && |HeadText(h)| <= |text| && Describes(h, saved)
    ensures (text + junk)[|HeadText(h)|..] == def(Join(saved)) + junk && text[|HeadText(h)|..] == def(Join(saved))
  {
    hide HeadText, HeadBody, ReadHead, Join, Describes;
    var t, d := HeadText(h), def(Join(saved));
    HeadFits(h);
    assert text + junk == t + (d + junk);
    HeadReads(h, d + junk);
  }

  lemma HeadFits(h: Head)
    requires |HeadText(h)| <= DATLEN_MAX
    ensures |HeadBody(h)| + 9 < 100_000_000
  {
    hide HeadBody;
  }

  /** Slicing the decompressed content by a page's offset and length gives the bytes saved for the page. */
  lemma LoadedIsSaved(text: string, def: Coding, inf: Coding, h: Head, saved: seq<Saved>, junk: string, i: nat)
    requires RecordOk(text, def, h, saved) && Undoes(def, inf) && i < |saved|
    ensures var buf := text + junk;
            var r := ReadHead(buf);
            && r.Some? && i < |r.value.1.pages| && r.value.0 <= |buf|
            && var p := r.value.1.pages[i];
               var content := inf(buf[r.value.0..]);
               && p.id == saved[i].id && p.page == saved[i].page
               && p.offset + p.length <= |content| && content[p.offset..p.offset + p.length] == saved[i].bytes
  {
    hide HeadText, ReadHead, Join;
    RecordReads(text, def, h, saved, junk);
    SliceOfJoin(saved, i);
  }

  /** Reading the record's head gives these numbers. */
  ghost predicate HeadSays(text: string, totalpage: int, taskid: int, batchid: int) {
    var r := ReadHead(text);
    r.Some? && r.value.1.totalpage == totalpage && r.value.1.taskid == taskid && r.value.1.batchid == batchid
  }

  lemma RecordSays(text: string, def: Coding, h: Head, saved: seq<Saved>)
    requires RecordOk(text, def, h, saved)
    ensures ReadHead(text) == Some((|HeadText(h)|, h)) && HeadSays(text, h.totalpage, h.taskid, h.batchid)
  {
    hide HeadText, ReadHead, RecordOk, Join;
    RecordReads(text, def, h, saved, "");
    assert text + "" == text;
  }

  /** How a store ends: done; refused for its length; or out of space (code 2 of db_store), when a record under the key
      has been deleted already. */
  datatype Ending = Stored | TooLong | NoSpace

  function Effect<V>(m: map<string, V>, key: string, v: V, e: Ending): map<string, V> {
    match e
    case Stored => m[key := v]
    case TooLong => m
    case NoSpace => m - {key}
  }

  ghost predicate AllOk(def: Coding, records: map<string, string>, heads: map<string, Head>, saved: map<string, seq<Saved>>) {
    && records.Keys == heads.Keys == saved.Keys
    && forall k :: k in records ==> RecordOk(records[k], def, heads[k], saved[k])
  }

  class LocalDb {
    const def: Coding
    const inf: Coding
    var records: map<string, string>
    ghost var heads: map<string, Head>
    ghost var saved: map<string, seq<Saved>>

    ghost predicate Valid()
      reads this
    {
      Undoes(def, inf) && AllOk(def, records, heads, saved)
    }

    constructor (def: Coding, inf: Coding)
      requires Undoes(def, inf)
      ensures Valid() && records == map[]
    {
      this.def, this.inf := def, inf;
      records, heads, saved := map[], map[], map[];
    }

    /** dbaccess->store; works says whether there is space. */
    method Store(key: string, data: string, ghost h: Head, ghost s: seq<Saved>, works: bool) returns (e: Ending)
      requires Valid() && data == HeadText(h) + def(Join(s)) && Describes(h, s)
      modifies this
      ensures Valid() && e == if |data| > DATLEN_MAX then TooLong else if works then Stored else NoSpace
      ensures saved == Effect(old(saved), key, s, e) && heads == Effect(old(heads), key, h, e)
      ensures records == Effect(old(records), key, data, e) && records - {key} == old(records) - {key}
      ensures e.Stored? ==> HeadSays(records[key], h.totalpage, h.taskid, h.batchid)
    {
      hide Describes, Join, HeadText, HeadSays, RecordOk, Undoes, Effect, AllOk;
      e := if |data| > DATLEN_MAX then TooLong else if works then Stored else NoSpace;
      if e.Stored? {
        StoredOk(data, def, h, s);
        RecordSays(data, def, h, s);
        EffectStored(records, key, data);
      }
      EffectElsewhere(records, key, data, e);
      StillOk(def, records, heads, saved, key, data, h, s, e);
      records := Effect(records, key, data, e);
      heads := Effect(heads, key, h, e);
      saved := Effect(saved, key, s, e);
    }

    /** savecontent for a record that is not there. */
    method SaveFirst(key: string, id: nat, page: int, taskid: int, batchid: int, pagehead: string, content: string,
                     nextpage: int, works: bool) returns (ghost e: Ending)
      requires Valid() && key !in records
      modifies this
      ensures Valid() && (e.Stored? ==> works)
      ensures saved == Effect(old(saved), key, [Saved(id, page, pagehead + content)], e)
      ensures e.Stored? ==> key in records && HeadSays(records[key], nextpage, taskid, batchid)
      ensures records - {key} == old(records) - {key}
    {
      hide HeadSays, HeadText, Join, Describes, RecordOk, Undoes;
      ghost var s := Saved(id, page, pagehead + content);
      var head := Head(|pagehead| + |content|, nextpage, taskid, batchid, [Page(id, 0, |pagehead| + |content|, page)]);
      var headbuf := WriteHead(head);
      var newcontent := pagehead + content;
      DescribesFirst(s, nextpage, taskid, batchid);
      JoinOne(s);
      e := Store(key, headbuf + def(newcontent), head, [s], works);
    }

    /** The search of savecontent for a page that is already saved. */
    method Find(head: Head, id: nat, page: int, ghost was: seq<Saved>) returns (found: bool)
      requires Describes(head, was)
      ensures found == IsSaved(was, id, page)
    {
      hide Join, Describes;
      DescribesKeys(head, was);
      for i := 0 to |head.pages|
        invariant forall j :: 0 <= j < i ==> !(was[j].id == id && was[j].page == page)
      {
        if head.pages[i].id == id && head.pages[i].page == page {
          return true;
        }
      }
      return false;
    }

    /** savecontent: pagehead and content are the page's bytes; junk is what the data file holds after the record. */
    method SaveContent(key: string, id: nat, page: int, taskid: int, batchid: int, pagehead: string, content: string,
                       nextpage: int, junk: string, works: bool) returns (ghost e: Ending)
      requires Valid()
      modifies this
      ensures Valid() && (e.Stored? ==> works || (key in old(saved) && IsSaved(old(saved[key]), id, page)))
      ensures key in old(saved) && IsSaved(old(saved[key]), id, page) ==> unchanged(this)
      ensures !(key in old(saved) && IsSaved(old(saved[key]), id, page)) ==>
                saved == Effect(old(saved), key,
                  (if key in old(saved) then old(saved[key]) else []) + [Saved(id, page, pagehead + content)], e)
      ensures e.Stored? && key !in old(records) ==> key in records && HeadSays(records[key], nextpage, taskid, batchid)
      ensures e.Stored? && key in old(records) && !IsSaved(old(saved[key]), id, page) ==>
                var r := ReadHead(old(records[key]));
                r.Some? && key in records && HeadSays(records[key], r.value.1.totalpage + 1, r.value.1.taskid, r.value.1.batchid)
      ensures records - {key} == old(records) - {key}
    {
      hide HeadSays, HeadText, ReadHead, Join, Describes, RecordOk, Undoes, IsSaved;
      if key !in records {
        e := SaveFirst(key, id, page, taskid, batchid, pagehead, content, nextpage, works);
        assert [] + [Saved(id, page, pagehead + content)] == [Saved(id, page, pagehead + content)];
        return;
      }
      var datbuf := records[key] + junk;
      ghost var was := saved[key];
      RecordReads(records[key], def, heads[key], was, junk);
      RecordSays(records[key], def, heads[key], was);
      var r := ReadHeadText(datbuf);
      var headlength, head := r.value.0, r.value.1;
      var found := Find(head, id, page, was);
      if found {
        e := Stored;
        return;
      }
      e := SaveMore(key, id, page, pagehead + content, inf(datbuf[headlength..]), head, works, junk);
    }

    /** savecontent for a page that is not there yet in a record that is. */
    method SaveMore(key: string, id: nat, page: int, bytes: string, tmp: string, head0: Head, works: bool, ghost junk: string)
      returns (ghost e: Ending)
      requires Valid() && key in records && head0 == heads[key] && tmp == inf(def(Join(saved[key])) + junk)
      requires !IsSaved(saved[key], id, page)
      modifies this
      ensures Valid() && (e.Stored? ==> works)
      ensures saved == Effect(old(saved), key, old(saved[key]) + [Saved(id, page, bytes)], e)
      ensures e.Stored? ==> key in records && HeadSays(records[key], head0.totalpage + 1, head0.taskid, head0.batchid)
      ensures records - {key} == old(records) - {key}
    {
      hide HeadSays, HeadText, Join, RecordOk, Undoes, IsSaved, Describes;
      ghost var was, s := saved[key], Saved(id, page, bytes);
      RecordDescribes(records[key], def, head0, was);
      InfBack(def, inf, Join(was), junk);
      DescribesMore(head0, was, s);
      JoinMore(was, s);
      var head := head0.(totallength := head0.totallength + |bytes|, totalpage := head0.totalpage + 1,
                         pages := head0.pages + [Page(id, |tmp|, |bytes|, page)]);
      var headbuf := WriteHead(head);
      e := Store(key, headbuf + def(tmp + bytes), head, was + [s], works);
    }

    /** altertotalpageforced: the header says that there are no more pages to come; the content is not touched. */
    method AlterTotalPageForced(key: string, junk: string, works: bool) returns (ghost e: Ending)
      requires Valid()
      modifies this
      ensures Valid()
      ensures key !in old(saved) ==> unchanged(this)
      ensures key in old(saved) ==>
        && saved == Effect(old(saved), key, old(saved[key]), e)
        && heads == Effect(old(heads), key, old(heads[key]).(totalpage := |old(heads[key]).pages|), e)
      ensures key in old(records) && e.Stored? ==>
                var r := ReadHead(old(records[key]));
                && r.Some? && key in records
                && HeadSays(records[key], |r.value.1.pages|, r.value.1.taskid, r.value.1.batchid)
      ensures records - {key} == old(records) - {key}
    {
      hide HeadSays, HeadText, ReadHead, Join, Undoes, RecordOk, Describes;
      e := Stored;
      if key in records {
        RecordReads(records[key], def, heads[key], saved[key], junk);
        RecordSays(records[key], def, heads[key], saved[key]);
        DescribesTotal(heads[key], saved[key], |heads[key].pages|);
        var r := ReadHeadText(records[key] + junk);
        var headlength, head := r.value.0, r.value.1;
        head := head.(totalpage := |head.pages|);
        var headbuf := WriteHead(head);
        e := Store(key, headbuf + records[key][headlength..], head, saved[key], works);
      }
    }
  }

  lemma StillOk(def: Coding, records: map<string, string>, heads: map<string, Head>, saved: map<string, seq<Saved>>,
                key: string, data: string, h: Head, s: seq<Saved>, e: Ending)
    requires AllOk(def, records, heads, saved) && (e.Stored? ==> RecordOk(data, def, h, s))
    ensures AllOk(def, Effect(records, key, data, e), Effect(heads, key, h, e), Effect(saved, key, s, e))
  {
    hide RecordOk;
  }

  lemma EffectStored<V>(m: map<string, V>, key: string, v: V)
    ensures key in Effect(m, key, v, Stored) && Effect(m, key, v, Stored)[key] == v
  {
  }

  lemma EffectElsewhere<V>(m: map<string, V>, key: string, v: V, e: Ending)
    ensures Effect(m, key, v, e) - {key} == m - {key}
  {
  }

  lemma StoredOk(text: string, def: Coding, h: Head, saved: seq<Saved>)
    requires text == HeadText(h) + def(Join(saved)) && Describes(h, saved) && |text| <= DATLEN_MAX
    ensures RecordOk(text, def, h, saved)
  {
  }

  lemma RecordDescribes(text: string, def: Coding, h: Head, saved: seq<Saved>)
    requires RecordOk(text, def, h, saved)
    ensures Describes(h, saved) && h.totallength == |Join(saved)|
  {
  }

  lemma DescribesTotal(h: Head, saved: seq<Saved>, totalpage: int)
    requires Describes(h, saved)
    ensures Describes(h.(totalpage := totalpage), saved)
  {
  }

  lemma JoinOne(s: Saved)
    ensures Join([s]) == s.bytes
  {
    assert [s][..0] == [];
  }

  lemma JoinMore(saved: seq<Saved>, s: Saved)
    ensures Join(saved + [s]) == Join(saved) + s.bytes
  {
    assert (saved + [s])[..|saved|] == saved;
  }

  lemma DescribesKeys(h: Head, saved: seq<Saved>)
    requires Describes(h, saved)
    ensures |h.pages| == |saved| && h.totallength == |Join(saved)|
    ensures forall i :: 0 <= i < |saved| ==> h.pages[i].id == saved[i].id && h.pages[i].page == saved[i].page
  {
  }

  lemma InfBack(def: Coding, inf: Coding, c: string, junk: string)
    requires Undoes(def, inf)
    ensures inf(def(c) + junk) == c
  {
  }
}
