/**
 * The chunked body decoder of src/tools/Http.cpp (section 4.1 of RFC 7230) over the buffered reader of
 * src/tools/MyConnection.cpp: lines and blocks taken from one stream that arrives in pieces, and an output that
 * stops growing at a limit.
 */
module ChunkedBody {
  import opened CText
  import opened Machine

  const BUFFER_SIZE := 8192
  const BSIZE := 8192
  const MAX_PAGE_BUF_SIZE := 2097152
  const LINE := 63
  const TERMINATOR := "\r\n"

  function Min(a: int, b: int): int { if a < b then a else b }

  // ---------------------------------------------------------------- one line

  datatype Line = NoLine | Line(text: string, rest: string)

  /** What Read_Line leaves behind: got is already stored, seen terminator characters have gone by. */
  function LineOf(s: string, got: string, seen: nat): (l: Line)
    requires seen < 2 && |got| <= LINE
    ensures l.Line? ==> |l.rest| <= |s|
    decreases |s|
  {
    if |got| == LINE then Line(got, s)
    else if s == "" then if got == "" then NoLine else Line(got, "")
    else if s[0] != TERMINATOR[seen] then LineOf(s[1..], got + [s[0]], seen)
    else if seen == 0 then LineOf(s[1..], got, 1)
    else Line(got, s[1..])
  }

  // ---------------------------------------------------------------- sscanf "%x"

  predicate IsHex(c: char) {
    '0' <= c <= '9' || 'a' <= c <= 'f' || 'A' <= c <= 'F'
  }

  function HexDigit(c: char): nat
    requires IsHex(c)
  {
    if c <= '9' then c as int - '0' as int else if c <= 'F' then c as int - 'A' as int + 10 else c as int - 'a' as int + 10
  }

  function HexNumber(s: string, acc: nat): nat
    decreases |s|
  {
    if s != "" && IsHex(s[0]) then HexNumber(s[1..], 16 * acc + HexDigit(s[0])) else acc
  }

  /** An unsigned long stored through a pointer to int. */
  function StoredAsInt(v: nat): int {
    var w := v % TWO32;
    if w < TWO32 / 2 then w else w - TWO32
  }

  predicate Signed(t: string) { t != "" && (t[0] == '-' || t[0] == '+') }

  predicate Prefixed(u: string) { |u| >= 2 && u[0] == '0' && (u[1] == 'x' || u[1] == 'X') }

  /** The variable keeps what it held before when no number is there; too large a number saturates. */
  function ScanHex(text: string, before: int): int {
    var t := SkipSpaces(CString(text));
    var u := if Signed(t) then t[1..] else t;
    if u == "" || !IsHex(u[0]) then before
    else
      var v := HexNumber(if Prefixed(u) then u[2..] else u, 0);
      StoredAsInt(if v >= TWO64 then TWO64 - 1 else if t[0] == '-' then (TWO64 - v) % TWO64 else v)
  }

  // ---------------------------------------------------------------- the whole body

  datatype Outcome = Outcome(code: int, out: string, rest: string)
  datatype Taken = Stop(outcome: Outcome) | Go(rest: string, out: string, length: int)

  /** How much of a block of n bytes the output still takes; negative when it is beyond its limit already. */
  function Kept(n: nat, out: string): int {
    Min(n, MAX_PAGE_BUF_SIZE - |out|)
  }

  /** add_buffer, which ignores a size below one. */
  function Added(out: string, s: string, n: int): string
    requires n <= |s|
  {
    if n < 1 then out else out + s[..n]
  }

  /** The data of one chunk, in blocks of BSIZE; the part of a block beyond the output's limit is dropped. */
  function Data(s: string, chunk: nat, out: string, length: int, fails: bool): (t: Taken)
    ensures t.Go? ==> |t.rest| == |s| - chunk
    decreases chunk
  {
    if chunk == 0 then Go(s, out, length)
    else
      var rsize := Min(BSIZE, chunk);
      var n := Min(rsize, |s|);
      if n == 0 || (fails && n < rsize) then Stop(Outcome(-1, out, s[n..]))
      else
        var len := Kept(n, out);
        if length + len >= MAX_PAGE_BUF_SIZE then Stop(Outcome(length + len, Added(out, s, len), s[n..]))
        else Data(s[n..], chunk - n, Added(out, s, len), length + len, fails)
  }

  lemma DataStep(s: string, block: string, rest: string, chunk: nat, out: string, length: int, fails: bool)
    requires chunk > 0 && s == block + rest && |block| == Min(Min(BSIZE, chunk), |s|)
    ensures Data(s, chunk, out, length, fails)
            == if block == "" || (fails && |block| < Min(BSIZE, chunk)) then Stop(Outcome(-1, out, rest))
               else
                 var len := Kept(|block|, out);
                 if length + len >= MAX_PAGE_BUF_SIZE
                 then Stop(Outcome(length + len, Added(out, block, len), rest))
                 else Data(rest, chunk - |block|, Added(out, block, len), length + len, fails)
  {
    assert rest == s[|block|..];
    var len := Kept(|block|, out);
    assert len >= 1 ==> s[..len] == block[..len];
  }

  lemma DataDone(s: string, out: string, length: int, fails: bool)
    ensures Data(s, 0, out, length, fails) == Go(s, out, length)
  {
  }

  /** From a size line on. */
  function FromHeader(s: string, before: int, out: string, length: int, fails: bool): Outcome
    decreases |s|, 1
  {
    match LineOf(s, "", 0)
    case NoLine => Outcome(-1, out, "")
    case Line(text, rest) =>
      if CString(text) == "" then Outcome(-1, out, rest)
      else FromData(rest, ScanHex(text, before), out, length, fails)
  }

  /** From the data of a chunk of the given size on. */
  function FromData(s: string, size: int, out: string, length: int, fails: bool): Outcome
    decreases |s|, 0
  {
    if size <= 0 then Outcome(length, out, s)
    else
      match Data(s, size, out, length, fails)
      case Stop(o) => o
      case Go(rest, more, sum) =>
        match LineOf(rest, "", 0)
        case NoLine => Outcome(-1, more, "")
        case Line(_, next) => FromHeader(next, size, more, sum, fails)
  }

  // ---------------------------------------------------------------- well-formed bodies

  /** A chunk of section 4.1 of RFC 7230: its size in hexadecimal, an extension, its data. */
  datatype Chunk = Chunk(size: string, ext: string, data: string)

  predicate AllHex(s: string) { forall c :: c in s ==> IsHex(c) }

  predicate Unbroken(s: string) { '\r' !in s && '\n' !in s && NUL !in s }

  /** What may stand on a size line, with a size an int holds. */
  predicate SizeText(size: string, ext: string) {
    && size != "" && AllHex(size) && HexNumber(size, 0) < TWO32 / 2
    && (ext == "" || ext[0] == ';' || ext[0] == ' ' || ext[0] == '\t') && Unbroken(ext)
  }

  /** A size line that fits the decoder's line buffer. */
  predicate SizeLine(size: string, ext: string) {
    SizeText(size, ext) && |size| + |ext| < LINE
  }

  predicate WellFormed(c: Chunk) {
    SizeLine(c.size, c.ext) && HexNumber(c.size, 0) == |c.data| > 0
  }

  predicate LeadingZero(c: Chunk) { c.size != "" && c.size[0] == '0' }

  predicate AllWellFormed(cs: seq<Chunk>) { forall c :: c in cs ==> WellFormed(c) }

  function Header(c: Chunk): string { c.size + c.ext + TERMINATOR }

  function Encode(cs: seq<Chunk>): string {
    if cs == [] then "" else Header(cs[0]) + (cs[0].data + TERMINATOR) + Encode(cs[1..])
  }

  function Content(cs: seq<Chunk>): string {
    if cs == [] then "" else cs[0].data + Content(cs[1..])
  }

  /** A line without breaks is read whole exactly when it is shorter than the line buffer. */
  lemma {:induction false} LineWhole(h: string, got: string, rest: string)
    requires '\r' !in h && '\n' !in h && |got| <= LINE
    ensures |got| + |h| < LINE <==> LineOf(h + TERMINATOR + rest, got, 0) == Line(got + h, rest)
    decreases |h|
  {
    var s := h + TERMINATOR + rest;
    if |got| == LINE {
      assert |s| > |rest|;
    } else if h == "" {
      assert s[0] == '\r' && s[1..][0] == '\n' && s[1..][1..] == rest && got + h == got;
    } else {
      assert s[0] == h[0] && h[0] in h && s[1..] == h[1..] + TERMINATOR + rest;
      assert got + [h[0]] + h[1..] == got + h;
      LineWhole(h[1..], got + [h[0]], rest);
    }
  }

  /** A longer line is cut at the line buffer's end, and the rest of it is left in the stream. */
  lemma {:induction false} LineLong(h: string, got: string, rest: string)
    requires '\r' !in h && '\n' !in h && |got| <= LINE <= |got| + |h|
    ensures var k := LINE - |got|; LineOf(h + rest, got, 0) == Line(got + h[..k], h[k..] + rest)
    decreases |h|
  {
    hide LineOf;
    var k := LINE - |got|;
    LineStep(h, got, rest);
    if k == 0 {
      assert got + h[..k] == got && h[k..] == h;
    } else {
      assert forall c :: c in h[1..] ==> c in h;
      LineLong(h[1..], got + [h[0]], rest);
      LongStep(h, got, k);
    }
  }

  lemma LineStep(h: string, got: string, rest: string)
    requires '\r' !in h && '\n' !in h && |got| <= LINE <= |got| + |h|
    ensures LineOf(h + rest, got, 0)
            == if |got| == LINE then Line(got, h + rest) else LineOf(h[1..] + rest, got + [h[0]], 0)
  {
    if |got| < LINE {
      assert (h + rest)[0] == h[0] && h[0] in h && (h + rest)[1..] == h[1..] + rest;
    }
  }

  lemma LongStep(h: string, got: string, k: nat)
    requires 1 <= k <= |h|
    ensures got + [h[0]] + h[1..][..k - 1] == got + h[..k] && h[1..][k - 1..] == h[k..]
  {
    assert [h[0]] + h[1..][..k - 1] == h[..k];
  }

  /** A line that the stream's end cuts off, even after its '\r', counts as a line unless it is empty. */
  lemma {:induction false} LineCutOff(h: string, got: string, cr: string)
    requires '\r' !in h && '\n' !in h && |got| + |h| < LINE && cr <= "\r"
    ensures LineOf(h + cr, got, 0) == if got + h == "" then NoLine else Line(got + h, "")
    decreases |h|
  {
    var s := h + cr;
    if h == "" {
      assert s == cr && got + h == got;
      assert cr != "" ==> s[0] == '\r' && s[1..] == "";
    } else {
      assert s[0] == h[0] && h[0] in h && s[1..] == h[1..] + cr;
      assert got + [h[0]] + h[1..] == got + h;
      LineCutOff(h[1..], got + [h[0]], cr);
    }
  }

  lemma {:induction false} HexNumberOf(size: string, ext: string, acc: nat)
    requires AllHex(size) && (ext == "" || !IsHex(ext[0]))
    ensures HexNumber(size + ext, acc) == HexNumber(size, acc)
    decreases |size|
  {
    if size == "" {
      assert size + ext == ext;
    } else {
      assert size[0] in size && (size + ext)[1..] == size[1..] + ext;
      assert forall c :: c in size[1..] ==> c in size;
      HexNumberOf(size[1..], ext, 16 * acc + HexDigit(size[0]));
    }
  }

  /** Longer digits give no smaller a number. */
  lemma {:induction false} HexNumberGrows(size: string, k: nat, acc: nat)
    requires AllHex(size) && k <= |size|
    ensures acc <= HexNumber(size[..k], acc) <= HexNumber(size, acc)
    decreases |size|
  {
    if size != "" {
      assert size[0] in size && forall c :: c in size[1..] ==> c in size;
      var more := 16 * acc + HexDigit(size[0]);
      HexNumberGrows(size[1..], if k == 0 then 0 else k - 1, more);
      if k == 0 {
        HexNumberGrows(size[1..], 0, more);
      } else {
        assert size[..k][1..] == size[1..][..k - 1];
      }
    }
  }

  /** sscanf reads a size line's number, whatever the variable held. */
  lemma ScanSizeLine(size: string, ext: string, before: int)
    requires SizeText(size, ext)
    ensures CString(size + ext) == size + ext && ScanHex(size + ext, before) == HexNumber(size, 0)
  {
    var h := size + ext;
    assert NUL !in h by {
      assert forall c :: c in h ==> c in size || c in ext;
    }
    CStringWhole(h);
    assert h[0] == size[0] && size[0] in size;
    assert SkipSpaces(h) == h;
    assert !Prefixed(h) by {
      if |h| >= 2 {
        assert h[1] == if |size| >= 2 then size[1] else ext[0];
        assert |size| >= 2 ==> size[1] in size;
      }
    }
    HexNumberOf(size, ext, 0);
  }

  lemma KeptRange(n: nat, out: string)
    requires |out| <= MAX_PAGE_BUF_SIZE
    ensures 0 <= Kept(n, out) <= n && |out| + Kept(n, out) <= MAX_PAGE_BUF_SIZE
    ensures |out| + n <= MAX_PAGE_BUF_SIZE ==> Kept(n, out) == n
  {
  }

  lemma TakeTwice(s: string, n: nat, chunk: nat, out: string)
    requires n <= chunk <= |s| && |out| <= MAX_PAGE_BUF_SIZE
    ensures var len := Kept(n, out);
            var more := out + s[..len];
            var left := Kept(chunk - n, more);
            && len + left == Kept(chunk, out) && more + s[n..][..left] == out + s[..len + left]
            && s[n..][chunk - n..] == s[chunk..]
  {
    var len := Kept(n, out);
    var left := Kept(chunk - n, out + s[..len]);
    assert left > 0 ==> len == n;
    assert s[..len] + s[n..][..left] == s[..len + left];
    assert out + s[..len] + s[n..][..left] == out + (s[..len] + s[n..][..left]);
  }

  /** The first block of a chunk's data that is there. */
  lemma DataBlock(s: string, chunk: nat, out: string, length: int, fails: bool) returns (n: nat)
    requires 0 < chunk <= |s| && |out| <= MAX_PAGE_BUF_SIZE
    ensures 0 < n <= chunk && 0 <= Kept(n, out) <= n
    ensures var len := Kept(n, out);
            Data(s, chunk, out, length, fails)
            == if length + len >= MAX_PAGE_BUF_SIZE then Stop(Outcome(length + len, out + s[..len], s[n..]))
               else Data(s[n..], chunk - n, out + s[..len], length + len, fails)
  {
    hide Data, Kept;
    n := Min(BSIZE, chunk);
    KeptRange(n, out);
    DataStep(s, s[..n], s[n..], chunk, out, length, fails);
    assert Added(out, s[..n], Kept(n, out)) == out + s[..Kept(n, out)];
  }

  /** All of a chunk's data that is there, as one piece: the blocks leave no trace unless the limit is reached. */
  lemma {:induction false} DataAll(s: string, chunk: nat, out: string, length: int, fails: bool)
    requires chunk <= |s| && length < MAX_PAGE_BUF_SIZE && 0 <= length <= |out| <= MAX_PAGE_BUF_SIZE
    ensures var len := Kept(chunk, out);
            var t := Data(s, chunk, out, length, fails);
            if length + len < MAX_PAGE_BUF_SIZE then t == Go(s[chunk..], out + s[..len], length + len)
            else t.Stop? && t.outcome.code == MAX_PAGE_BUF_SIZE == length + len && t.outcome.out == out + s[..len]
    decreases chunk
  {
    hide Data, Kept;
    KeptRange(chunk, out);
    if chunk == 0 {
      DataDone(s, out, length, fails);
      assert s[0..] == s && out + s[..0] == out;
    } else {
      var n := DataBlock(s, chunk, out, length, fails);
      var len := Kept(n, out);
      KeptRange(n, out);
      TakeTwice(s, n, chunk, out);
      KeptRange(chunk - n, out + s[..len]);
      if length + len < MAX_PAGE_BUF_SIZE {
        DataAll(s[n..], chunk - n, out + s[..len], length + len, fails);
      }
    }
  }

  /** Data that ends early is refused, unless the limit is reached first. */
  lemma {:induction false} DataMissing(s: string, chunk: nat, out: string, length: int, fails: bool)
    requires |s| < chunk && length + |s| < MAX_PAGE_BUF_SIZE
    ensures var t := Data(s, chunk, out, length, fails); t.Stop? && t.outcome.code == -1
    decreases chunk
  {
    var rsize := Min(BSIZE, chunk);
    var n := Min(rsize, |s|);
    if n > 0 && !(fails && n < rsize) {
      var len := Kept(n, out);
      DataMissing(s[n..], chunk - n, Added(out, s, len), length + len, fails);
    }
  }

  lemma HexIsNoBreak(size: string, ext: string)
    requires AllHex(size) && Unbroken(ext)
    ensures '\r' !in size + ext && '\n' !in size + ext
  {
    assert forall c :: c in size + ext ==> c in size || c in ext;
  }

  lemma HeaderLine(size: string, ext: string, rest: string, before: int, out: string, length: int, fails: bool)
    requires SizeLine(size, ext)
    ensures FromHeader(size + ext + TERMINATOR + rest, before, out, length, fails)
            == FromData(rest, HexNumber(size, 0), out, length, fails)
  {
    hide LineOf, ScanHex, CString, HexNumber, FromData;
    HexIsNoBreak(size, ext);
    LineWhole(size + ext, "", rest);
    assert "" + (size + ext) == size + ext;
    ScanSizeLine(size, ext, before);
  }

  /** A stream that ends within a size line: an empty line is refused, anything else is taken for the size line. */
  lemma HeaderCutOff(size: string, ext: string, cr: string, before: int, out: string, length: int, fails: bool)
    requires SizeLine(size, ext) && cr <= "\r"
    ensures FromHeader(size + ext + cr, before, out, length, fails)
            == FromData("", HexNumber(size, 0), out, length, fails)
  {
    hide LineOf, ScanHex, CString, HexNumber, FromData;
    HexIsNoBreak(size, ext);
    LineCutOff(size + ext, "", cr);
    assert "" + (size + ext) == size + ext;
    ScanSizeLine(size, ext, before);
  }

  /** A whole chunk delivers its data, up to the limit, and leads to the next size line. */
  lemma OneChunk(c: Chunk, rest: string, before: int, out: string, length: int, fails: bool)
    requires WellFormed(c) && length < MAX_PAGE_BUF_SIZE && 0 <= length <= |out| <= MAX_PAGE_BUF_SIZE
    ensures var o := FromHeader(Header(c) + (c.data + TERMINATOR) + rest, before, out, length, fails);
            var len := Kept(|c.data|, out);
            var more := out + c.data[..len];
            if length + len < MAX_PAGE_BUF_SIZE
            then o == FromHeader(rest, |c.data|, more, length + len, fails)
            else o.code == MAX_PAGE_BUF_SIZE == length + len && o.out == more
  {
    hide LineOf, ScanHex, CString, HexNumber, Data, FromHeader;
    var s := c.data + TERMINATOR + rest;
    assert Header(c) + (c.data + TERMINATOR) + rest == c.size + c.ext + TERMINATOR + s;
    HeaderLine(c.size, c.ext, s, before, out, length, fails);
    DataAll(s, |c.data|, out, length, fails);
    assert s[|c.data|..] == "" + TERMINATOR + rest;
    assert s[..Kept(|c.data|, out)] == c.data[..Kept(|c.data|, out)];
    LineWhole("", "", rest);
  }

  /** Of a size line that does not fit, the digits in the line buffer are the size, and what is left of the line is
      taken for the start of the data. */
  lemma LongSizeLine(size: string, ext: string, rest: string, before: int, out: string, length: int, fails: bool)
    requires SizeText(size, ext) && |size + ext| >= LINE
    ensures FromHeader(size + ext + TERMINATOR + rest, before, out, length, fails)
            == FromData((size + ext)[LINE..] + TERMINATOR + rest, HexNumber(size[..Min(LINE, |size|)], 0), out, length, fails)
    ensures HexNumber(size[..Min(LINE, |size|)], 0) <= HexNumber(size, 0)
  {
    hide LineOf, ScanHex, CString, HexNumber, FromData;
    var h := size + ext;
    var k := Min(LINE, |size|);
    var digits, shown := size[..k], ext[..LINE - k];
    HexIsNoBreak(size, ext);
    LineLong(h, "", TERMINATOR + rest);
    assert "" + h[..LINE] == digits + shown;
    assert forall x :: x in shown ==> x in ext;
    assert forall x :: x in digits ==> x in size;
    assert h[LINE - 0..] + (TERMINATOR + rest) == h[LINE..] + TERMINATOR + rest;
    assert h + TERMINATOR + rest == h + (TERMINATOR + rest);
    HexNumberGrows(size, k, 0);
    ScanSizeLine(digits, shown, before);
  }

  /** So the chunk delivers the stray characters, and loses as many of its own at the end. */
  lemma StrayData(stray: string, data: string, rest: string, out: string, length: int, fails: bool)
    requires 0 <= length <= |out| && |out| + |data| <= MAX_PAGE_BUF_SIZE && length + |data| < MAX_PAGE_BUF_SIZE
    ensures Data(stray + data + rest, |data|, out, length, fails)
            == Go((stray + data)[|data|..] + rest, out + (stray + data)[..|data|], length + |data|)
  {
    hide Data;
    var s := stray + data + rest;
    DataAll(s, |data|, out, length, fails);
    assert s[|data|..] == (stray + data)[|data|..] + rest && s[..|data|] == (stray + data)[..|data|];
  }

  function LastSize(cs: seq<Chunk>, before: int): int {
    if cs == [] then before else LastSize(cs[1..], |cs[0].data|)
  }

  lemma ContentSplit(c: string, d: string, out: string)
    requires |out| <= MAX_PAGE_BUF_SIZE
    ensures var len := Kept(|c|, out);
            var more := out + c[..len];
            more + d[..Kept(|d|, more)] == out + (c + d)[..Kept(|c + d|, out)]
            && len + Kept(|d|, more) == Kept(|c + d|, out)
  {
    var len := Kept(|c|, out);
    var left := Kept(|d|, out + c[..len]);
    assert left > 0 ==> len == |c|;
    assert c[..len] + d[..left] == (c + d)[..len + left];
    assert out + c[..len] + d[..left] == out + (c[..len] + d[..left]);
  }

  lemma EncodeCons(cs: seq<Chunk>)
    ensures cs == [] ==> Encode(cs) == "" && Content(cs) == ""
    ensures cs != [] ==>
      && Encode(cs) == Header(cs[0]) + (cs[0].data + TERMINATOR) + Encode(cs[1..])
      && Content(cs) == cs[0].data + Content(cs[1..])
    ensures AllWellFormed(cs) && cs != [] ==> WellFormed(cs[0]) && AllWellFormed(cs[1..])
  {
    assert forall x :: cs != [] && x in cs[1..] ==> x in cs;
  }

  /** A run of whole chunks delivers its content, up to the limit, and leads to what follows. */
  lemma {:induction false} Encoded(cs: seq<Chunk>, rest: string, before: int, out: string, length: int, fails: bool)
    requires AllWellFormed(cs) && length < MAX_PAGE_BUF_SIZE && 0 <= length <= |out| <= MAX_PAGE_BUF_SIZE
    ensures var o := FromHeader(Encode(cs) + rest, before, out, length, fails);
            var len := Kept(|Content(cs)|, out);
            var more := out + Content(cs)[..len];
            if length + len < MAX_PAGE_BUF_SIZE
            then o == FromHeader(rest, LastSize(cs, before), more, length + len, fails)
            else o.code == MAX_PAGE_BUF_SIZE == length + len && o.out == more
    decreases |cs|
  {
    hide FromHeader, FromData, Kept, Header, Encode, Content;
    EncodeCons(cs);
    if cs == [] {
      assert "" + rest == rest && out + ""[..0] == out;
      KeptRange(0, out);
    } else {
      var c := cs[0];
      KeptRange(|c.data|, out);
      var len := Kept(|c.data|, out);
      var more := out + c.data[..len];
      ContentSplit(c.data, Content(cs[1..]), out);
      var w := Header(c) + (c.data + TERMINATOR);
      assert w + Encode(cs[1..]) + rest == w + (Encode(cs[1..]) + rest);
      OneChunk(c, Encode(cs[1..]) + rest, before, out, length, fails);
      if length + len < MAX_PAGE_BUF_SIZE {
        Encoded(cs[1..], rest, |c.data|, more, length + len, fails);
      } else {
        KeptRange(|Content(cs[1..])|, more);
      }
    }
  }

  /**
   * A well-formed body, however it is cut into chunks and whatever its size lines carry: the output gains the
   * content up to the limit, the count is what it gained, and below the limit exactly the body has been taken.
   */
  lemma Decodes(cs: seq<Chunk>, size: string, ext: string, tail: string, before: int, out: string, fails: bool)
    requires AllWellFormed(cs) && SizeLine(size, ext) && HexNumber(size, 0) == 0 && |out| <= MAX_PAGE_BUF_SIZE
    ensures var o := FromHeader(Encode(cs) + (size + ext + TERMINATOR + tail), before, out, 0, fails);
            var len := Kept(|Content(cs)|, out);
            && o.out == out + Content(cs)[..len] && o.code == len
            && (len < MAX_PAGE_BUF_SIZE ==> o.rest == tail)
  {
    hide FromHeader, Encode, Content;
    var len := Kept(|Content(cs)|, out);
    var more := out + Content(cs)[..len];
    Encoded(cs, size + ext + TERMINATOR + tail, before, out, 0, fails);
    HeaderLine(size, ext, tail, LastSize(cs, before), more, len, fails);
  }

  // ---------------------------------------------------------------- sizes as "%x" and "%X" print them

  const LOWER := "0123456789abcdef"
  const UPPER := "0123456789ABCDEF"

  function Hex(n: nat, upper: bool): string {
    var c := (if upper then UPPER else LOWER)[n % 16];
    if n < 16 then [c] else Hex(n / 16, upper) + [c]
  }

  /** n in base 16 after any number of zeros. */
  function HexText(zeros: nat, n: nat, upper: bool): string {
    seq(zeros, _ => '0') + Hex(n, upper)
  }

  lemma HexDigitOf(d: nat, upper: bool)
    requires d < 16
    ensures var c := (if upper then UPPER else LOWER)[d]; IsHex(c) && HexDigit(c) == d && !IsSpace(c) && c != NUL && c != 'x' && c != 'X'
  {
  }

  lemma {:induction false} HexNumberSnoc(s: string, c: char, acc: nat)
    requires AllHex(s) && IsHex(c)
    ensures HexNumber(s + [c], acc) == 16 * HexNumber(s, acc) + HexDigit(c)
    decreases |s|
  {
    if s != "" {
      assert s[0] in s && forall x :: x in s[1..] ==> x in s;
      assert (s + [c])[1..] == s[1..] + [c];
      HexNumberSnoc(s[1..], c, 16 * acc + HexDigit(s[0]));
    }
  }

  lemma {:induction false} HexScans(n: nat, upper: bool)
    ensures AllHex(Hex(n, upper)) && Hex(n, upper) != "" && HexNumber(Hex(n, upper), 0) == n
  {
    HexDigitOf(n % 16, upper);
    if n >= 16 {
      HexScans(n / 16, upper);
      HexNumberSnoc(Hex(n / 16, upper), (if upper then UPPER else LOWER)[n % 16], 0);
    }
  }

  lemma {:induction false} ZerosScan(zeros: nat, s: string)
    requires AllHex(s)
    ensures AllHex(seq(zeros, _ => '0') + s) && HexNumber(seq(zeros, _ => '0') + s, 0) == HexNumber(s, 0)
  {
    var t := seq(zeros, _ => '0') + s;
    if zeros == 0 {
      assert t == s;
    } else {
      ZerosScan(zeros - 1, s);
      assert t[0] == '0' && t[1..] == seq(zeros - 1, _ => '0') + s;
      assert t == [t[0]] + t[1..];
    }
  }

  lemma HexTextScans(zeros: nat, n: nat, upper: bool)
    ensures AllHex(HexText(zeros, n, upper)) && HexText(zeros, n, upper) != "" && HexNumber(HexText(zeros, n, upper), 0) == n
  {
    HexScans(n, upper);
    ZerosScan(zeros, Hex(n, upper));
  }

  lemma NotPrefixed(size: string, ext: string)
    requires AllHex(size) && size != "" && (size == "0" ==> ext == "" || (ext[0] != 'x' && ext[0] != 'X'))
    ensures !Prefixed(size + ext)
  {
    var h := size + ext;
    if |h| >= 2 {
      assert h[0] == size[0] && h[1] == if |size| >= 2 then size[1] else ext[0];
      assert |size| >= 2 ==> size[1] in size;
      assert |size| == 1 && size[0] == '0' ==> size == "0";
    }
  }

  lemma SkipNothing(h: string)
    requires h != "" && IsHex(h[0])
    ensures SkipSpaces(h) == h && !Signed(h) && h[0] != '-'
  {
  }

  lemma ScansDigits(size: string, rest: string, before: int)
    requires AllHex(size) && size != "" && (rest == "" || !IsHex(rest[0])) && HexNumber(size, 0) < TWO64
    requires size == "0" ==> rest == "" || (rest[0] != 'x' && rest[0] != 'X')
    ensures ScanHex(size + rest, before) == StoredAsInt(HexNumber(size, 0))
  {
    hide AllHex, HexNumber, CString, SkipSpaces, StoredAsInt, Prefixed, IsHex;
    CStringAfter(size, rest);
    var ext := CString(rest);
    CStringHead(rest);
    FirstHex(size);
    assert (size + ext)[0] == size[0];
    SkipNothing(size + ext);
    NotPrefixed(size, ext);
    HexNumberOf(size, ext, 0);
  }

  lemma FirstHex(size: string)
    requires AllHex(size) && size != ""
    ensures IsHex(size[0])
  {
    assert size[0] in size;
  }

  /** sscanf "%x" reads back a number printed in base 16, in either case and with leading zeros, before anything that
      is no digit; only a lone "0" must not be followed by an 'x'. Numbers from 2^31 on come out negative. */
  lemma ScansBack(zeros: nat, n: nat, upper: bool, rest: string, before: int)
    requires n < 0x1_0000_0000 && (rest == "" || !IsHex(rest[0]))
    requires |HexText(zeros, n, upper)| == 1 && n == 0 ==> rest == "" || (rest[0] != 'x' && rest[0] != 'X')
    ensures ScanHex(HexText(zeros, n, upper) + rest, before) == if n < 0x8000_0000 then n else n - 0x1_0000_0000
  {
    hide HexText, Hex, HexNumber, AllHex, ScanHex, IsHex;
    var size := HexText(zeros, n, upper);
    HexTextScans(zeros, n, upper);
    if size == "0" { LoneZero(zeros, n, upper); }
    ScansDigits(size, rest, before);
  }

  lemma LoneZero(zeros: nat, n: nat, upper: bool)
    requires HexText(zeros, n, upper) == "0"
    ensures n == 0
  {
    HexTextScans(zeros, n, upper);
    assert HexNumber("0", 0) == 0 by { assert "0"[1..] == ""; }
  }

  lemma {:induction false} CStringAfter(a: string, rest: string)
    requires AllHex(a)
    ensures CString(a + rest) == a + CString(rest)
    decreases |a|
  {
    if a == "" {
      assert a + rest == rest;
    } else {
      assert a[0] in a && forall x :: x in a[1..] ==> x in a;
      assert (a + rest)[1..] == a[1..] + rest;
      CStringAfter(a[1..], rest);
      assert [a[0]] + (a[1..] + CString(rest)) == a + CString(rest);
    }
  }

  lemma CStringHead(rest: string)
    ensures CString(rest) != "" ==> rest != "" && CString(rest)[0] == rest[0]
  {
  }

  /** A piece of a body as a server writes it: how it prints the size, an extension, and the data. */
  datatype Piece = Piece(zeros: nat, upper: bool, ext: string, data: string)

  predicate PieceOk(p: Piece) {
    && 0 < |p.data| < 0x8000_0000 && Unbroken(p.ext)
    && (p.ext == "" || p.ext[0] == ';' || p.ext[0] == ' ' || p.ext[0] == '\t')
    && |HexText(p.zeros, |p.data|, p.upper)| + |p.ext| < 63
  }

  /** The bytes of a body, and the content it carries. */
  function Written(ps: seq<Piece>): string {
    if ps == [] then ""
    else
      var p := ps[0];
      HexText(p.zeros, |p.data|, p.upper) + p.ext + "\r\n" + p.data + "\r\n" + Written(ps[1..])
  }

  function Carried(ps: seq<Piece>): string {
    if ps == [] then "" else ps[0].data + Carried(ps[1..])
  }

  function Chunks(ps: seq<Piece>): seq<Chunk> {
    if ps == [] then [] else [Chunk(HexText(ps[0].zeros, |ps[0].data|, ps[0].upper), ps[0].ext, ps[0].data)] + Chunks(ps[1..])
  }

  lemma {:induction false} ChunksWritten(ps: seq<Piece>)
    requires forall p :: p in ps ==> PieceOk(p)
    ensures AllWellFormed(Chunks(ps)) && Encode(Chunks(ps)) == Written(ps) && Content(Chunks(ps)) == Carried(ps)
    decreases |ps|
  {
    hide HexText, HexNumber, Unbroken;
    if ps != [] {
      var p := ps[0];
      assert p in ps && forall x :: x in ps[1..] ==> x in ps;
      HexTextScans(p.zeros, |p.data|, p.upper);
      ChunksWritten(ps[1..]);
      EncodeCons(Chunks(ps));
      assert Chunks(ps)[1..] == Chunks(ps[1..]);
    }
  }

  /** A body whose sizes are printed in base 16, closed by a printed zero: the output gains what the body carries, up
      to the limit of two megabytes, the count is the gain, and below the limit exactly the body is taken. */
  lemma DecodesPrinted(ps: seq<Piece>, zeros: nat, upper: bool, tail: string, before: int, out: string, fails: bool)
    requires (forall p :: p in ps ==> PieceOk(p)) && zeros < 62 && |out| <= 2_097_152
    ensures var o := FromHeader(Written(ps) + HexText(zeros, 0, upper) + "\r\n" + tail, before, out, 0, fails);
            var room := 2_097_152 - |out|;
            var len := if |Carried(ps)| < room then |Carried(ps)| else room;
            o.out == out + Carried(ps)[..len] && o.code == len && (len < 2_097_152 ==> o.rest == tail)
  {
    hide FromHeader, Written, Carried, Encode, Content, HexNumber, Chunks, PieceOk;
    ChunksWritten(ps);
    HexTextScans(zeros, 0, upper);
    ZeroText(zeros, upper);
    var size := HexText(zeros, 0, upper);
    Decodes(Chunks(ps), size, "", tail, before, out, fails);
    assert size + "" == size;
    assert Written(ps) + size + "\r\n" + tail == Written(ps) + (size + "" + TERMINATOR + tail);
  }

  lemma ZeroText(zeros: nat, upper: bool)
    ensures |HexText(zeros, 0, upper)| == zeros + 1
  {
  }

  // ---------------------------------------------------------------- bodies that end early

  lemma HexOfCut(size: string, k: nat)
    requires AllHex(size) && 0 < k <= |size| && size[0] != '0'
    ensures 0 < HexNumber(size[..k], 0) <= HexNumber(size, 0) && AllHex(size[..k])
  {
    HexNumberGrows(size, k, 0);
    assert size[0] in size && forall c :: c in size[1..] ==> c in size;
    HexNumberGrows(size[1..], k - 1, HexDigit(size[0]));
    assert size[..k][1..] == size[1..][..k - 1];
    assert forall c :: c in size[..k] ==> c in size;
  }

  /** A chunk that ends anywhere before its end is refused when its size starts with a significant digit. */
  lemma ChunkCutOff(c: Chunk, cut: nat, before: int, out: string, length: int, fails: bool)
    requires WellFormed(c) && !LeadingZero(c) && cut < |Header(c) + (c.data + TERMINATOR)|
    requires 0 <= length <= |out| <= MAX_PAGE_BUF_SIZE && length + |c.data| < MAX_PAGE_BUF_SIZE
    ensures FromHeader((Header(c) + (c.data + TERMINATOR))[..cut], before, out, length, fails).code == -1
  {
    hide LineOf, ScanHex, CString, HexNumber, Data, FromHeader;
    var h := c.size + c.ext;
    var s := (Header(c) + (c.data + TERMINATOR))[..cut];
    if cut < |h| + 2 {
      HeadCutOff(c, cut, before, out, length, fails);
      assert s == (h + "\r")[..cut];
    } else {
      var left := (c.data + TERMINATOR)[..cut - |h| - 2];
      assert s == c.size + c.ext + TERMINATOR + left;
      HeaderLine(c.size, c.ext, left, before, out, length, fails);
      if |left| < |c.data| {
        DataMissing(left, |c.data|, out, length, fails);
      } else {
        KeptRange(|c.data|, out);
        DataAll(left, |c.data|, out, length, fails);
        var cr := left[|c.data|..];
        assert cr == "" || cr == "\r";
        LineCutOff("", "", cr);
        assert "" + cr == cr && "" + "" == "";
      }
    }
  }

  lemma HeadCutOff(c: Chunk, cut: nat, before: int, out: string, length: int, fails: bool)
    requires WellFormed(c) && !LeadingZero(c) && cut < |c.size + c.ext| + 2 && length < MAX_PAGE_BUF_SIZE
    ensures FromHeader((c.size + c.ext + "\r")[..cut], before, out, length, fails).code == -1
  {
    hide LineOf, ScanHex, CString, HexNumber, Data, FromHeader;
    var h := c.size + c.ext;
    var k := Min(cut, |c.size|);
    var e := Min(cut, |h|) - k;
    var cr := if cut > |h| then "\r" else "";
    var s := (h + "\r")[..cut];
    assert s == c.size[..k] + c.ext[..e] + cr;
    if cut == 0 {
      EmptyHeader(before, out, length, fails);
    } else {
      HexOfCut(c.size, k);
      assert forall x :: x in c.ext[..e] ==> x in c.ext;
      HeaderCutOff(c.size[..k], c.ext[..e], cr, before, out, length, fails);
      DataMissing("", HexNumber(c.size[..k], 0), out, length, fails);
    }
  }

  lemma EmptyHeader(before: int, out: string, length: int, fails: bool)
    ensures FromHeader("", before, out, length, fails).code == -1
  {
  }

  lemma {:induction false} CutOff(cs: seq<Chunk>, cut: nat, before: int, out: string, length: int, fails: bool)
    requires AllWellFormed(cs) && (forall c :: c in cs ==> !LeadingZero(c)) && cut <= |Encode(cs)|
    requires 0 <= length <= |out| <= MAX_PAGE_BUF_SIZE && length + |Content(cs)| < MAX_PAGE_BUF_SIZE
    ensures FromHeader(Encode(cs)[..cut], before, out, length, fails).code == -1
    decreases |cs|
  {
    hide FromHeader, FromData, Header, Kept;
    if cs == [] {
      EmptyHeader(before, out, length, fails);
    } else {
      var c := cs[0];
      var w := Header(c) + (c.data + TERMINATOR);
      assert forall x :: x in cs[1..] ==> x in cs;
      if cut < |w| {
        ChunkCutOff(c, cut, before, out, length, fails);
        assert Encode(cs)[..cut] == w[..cut];
      } else {
        var rest := Encode(cs[1..])[..cut - |w|];
        assert Encode(cs)[..cut] == w + rest;
        KeptRange(|c.data|, out);
        OneChunk(c, rest, before, out, length, fails);
        var len := Kept(|c.data|, out);
        CutOff(cs[1..], cut - |w|, |c.data|, out + c.data[..len], length + len, fails);
      }
    }
  }

  lemma {:induction false} EncodeJoins(a: seq<Chunk>, b: seq<Chunk>)
    ensures Encode(a + b) == Encode(a) + Encode(b) && Content(a + b) == Content(a) + Content(b)
    decreases |a|
  {
    hide Header;
    if a == [] {
      assert a + b == b && Encode(b) == "" + Encode(b) && Content(b) == "" + Content(b);
    } else {
      assert (a + b)[0] == a[0] && (a + b)[1..] == a[1..] + b;
      EncodeJoins(a[1..], b);
    }
  }

  lemma EncodeHead(cs: seq<Chunk>)
    requires cs != [] && cs[0].size != ""
    ensures Encode(cs) != "" && Encode(cs)[0] == cs[0].size[0]
  {
    assert Header(cs[0])[0] == cs[0].size[0];
  }

  /** A size line that starts with '0' and is cut after it passes for the last one. */
  lemma CutAfterZero(cs: seq<Chunk>, i: nat, before: int, out: string, fails: bool)
    requires AllWellFormed(cs) && |Content(cs)| < MAX_PAGE_BUF_SIZE && |out| <= MAX_PAGE_BUF_SIZE
    requires i < |cs| && LeadingZero(cs[i])
    ensures |Encode(cs[..i])| + 1 <= |Encode(cs)|
    ensures FromHeader(Encode(cs)[..|Encode(cs[..i])| + 1], before, out, 0, fails).code >= 0
  {
    hide FromHeader, Kept, Encode, Content;
    var a := cs[..i];
    var b := cs[i..];
    assert a + b == cs && b[0] == cs[i] && forall c :: c in a ==> c in cs;
    EncodeJoins(a, b);
    EncodeHead(b);
    assert Encode(cs)[..|Encode(a)| + 1] == Encode(a) + "0";
    KeptRange(|Content(a)|, out);
    Encoded(a, "0", before, out, 0, fails);
    var len := Kept(|Content(a)|, out);
    assert "0" + "" + "" == "0";
    HeaderCutOff("0", "", "", LastSize(a, before), out + Content(a)[..len], len, fails);
  }

  /**
   * A body that ends before its last size line is always refused exactly when no size has a leading zero. With
   * one, a stream that stops right after that zero is reported as a complete, shorter body.
   */
  lemma TruncationCaught(cs: seq<Chunk>, before: int, out: string, fails: bool)
    requires AllWellFormed(cs) && |Content(cs)| < MAX_PAGE_BUF_SIZE && |out| <= MAX_PAGE_BUF_SIZE
    ensures (forall cut :: 0 <= cut <= |Encode(cs)| ==> FromHeader(Encode(cs)[..cut], before, out, 0, fails).code == -1)
            <==> (forall i :: 0 <= i < |cs| ==> !LeadingZero(cs[i]))
  {
    hide FromHeader, Encode, Content;
    if forall i :: 0 <= i < |cs| ==> !LeadingZero(cs[i]) {
      forall cut | 0 <= cut <= |Encode(cs)|
        ensures FromHeader(Encode(cs)[..cut], before, out, 0, fails).code == -1
      {
        CutOff(cs, cut, before, out, 0, fails);
      }
    } else {
      var i :| 0 <= i < |cs| && LeadingZero(cs[i]);
      CutAfterZero(cs, i, before, out, fails);
    }
  }

  // ---------------------------------------------------------------- any input at all

  /** The output only grows, never past the limit; the count is -1 or the growth; the input is taken from its front. */
  ghost predicate Orderly(s: string, out: string, length: int, o: Outcome) {
    && out <= o.out && |o.out| <= MAX_PAGE_BUF_SIZE
    && (o.code == -1 || o.code == length + |o.out| - |out|)
    && |o.rest| <= |s| && o.rest == s[|s| - |o.rest|..]
  }

  function At(t: Taken): Outcome {
    match t
    case Stop(o) => o
    case Go(rest, out, length) => Outcome(length, out, rest)
  }

  lemma {:induction false} DataOrderly(s: string, chunk: nat, out: string, length: int, fails: bool)
    requires |out| <= MAX_PAGE_BUF_SIZE
    ensures var t := Data(s, chunk, out, length, fails);
            Orderly(s, out, length, At(t)) && (t.Go? ==> t.length == length + |t.out| - |out|)
    decreases chunk
  {
    hide Data, Orderly, Kept, Added;
    if chunk == 0 {
      DataDone(s, out, length, fails);
      OrderlyHere(s, 0, out, Kept(0, out), length);
    } else {
      var n := Min(Min(BSIZE, chunk), |s|);
      var len := Kept(n, out);
      KeptRange(n, out);
      var more := Added(out, s[..n], len);
      assert s == s[..n] + s[n..];
      DataStep(s, s[..n], s[n..], chunk, out, length, fails);
      OrderlyHere(s, n, out, len, length);
      if n > 0 && len + length < MAX_PAGE_BUF_SIZE {
        DataOrderly(s[n..], chunk - n, more, length + len, fails);
        OrderlyStep(s, n, out, more, length, Data(s[n..], chunk - n, more, length + len, fails));
      }
    }
  }

  lemma OrderlyHere(s: string, n: nat, out: string, len: int, length: int)
    requires n <= |s| && |out| <= MAX_PAGE_BUF_SIZE && len == Kept(n, out)
    ensures var more := Added(out, s[..n], len);
            && out <= more && |more| == |out| + len <= MAX_PAGE_BUF_SIZE
            && Orderly(s, out, length, Outcome(length + len, more, s[n..]))
            && Orderly(s, out, length, Outcome(-1, out, s[n..]))
            && (n == 0 ==> len == 0 && more == out && s[n..] == s)
  {
  }

  lemma OrderlyStep(s: string, n: nat, out: string, more: string, length: int, t: Taken)
    requires n <= |s| && out <= more && Orderly(s[n..], more, length + |more| - |out|, At(t))
    ensures Orderly(s, out, length, At(t))
  {
    var o := At(t);
    assert s[n..][|s[n..]| - |o.rest|..] == s[|s| - |o.rest|..];
  }

  lemma {:induction false} LineSuffix(s: string, got: string, seen: nat)
    requires seen < 2 && |got| <= LINE
    ensures var l := LineOf(s, got, seen); l.Line? ==> l.rest == s[|s| - |l.rest|..]
    decreases |s|
  {
    if |got| < LINE && s != "" {
      if s[0] != TERMINATOR[seen] {
        LineSuffix(s[1..], got + [s[0]], seen);
      } else if seen == 0 {
        LineSuffix(s[1..], got, 1);
      }
    }
  }

  lemma {:induction false} HeaderOrderly(s: string, before: int, out: string, length: int, fails: bool)
    requires |out| <= MAX_PAGE_BUF_SIZE
    ensures Orderly(s, out, length, FromHeader(s, before, out, length, fails))
    decreases |s|, 1
  {
    hide LineOf, ScanHex, CString, FromData;
    LineSuffix(s, "", 0);
    match LineOf(s, "", 0)
    case NoLine =>
    case Line(text, rest) =>
      if CString(text) != "" {
        BodyOrderly(rest, ScanHex(text, before), out, length, fails);
      }
  }

  lemma {:induction false} BodyOrderly(s: string, size: int, out: string, length: int, fails: bool)
    requires |out| <= MAX_PAGE_BUF_SIZE
    ensures Orderly(s, out, length, FromData(s, size, out, length, fails))
    decreases |s|, 0
  {
    hide LineOf, Data, FromHeader;
    if size > 0 {
      DataOrderly(s, size, out, length, fails);
      match Data(s, size, out, length, fails)
      case Stop(o) =>
      case Go(rest, more, sum) =>
        LineSuffix(rest, "", 0);
        match LineOf(rest, "", 0)
        case NoLine =>
        case Line(_, next) => HeaderOrderly(next, size, more, sum, fails);
    }
  }

  // ---------------------------------------------------------------- exactly which size lines are read right

  /** The chunk's data is delivered, and what follows it is decoded as if it came next. */
  ghost predicate Delivered(c: Chunk, rest: string, before: int, out: string, length: int, fails: bool)
    requires |out| <= MAX_PAGE_BUF_SIZE
  {
    KeptRange(|c.data|, out);
    var len := Kept(|c.data|, out);
    FromHeader(Header(c) + (c.data + TERMINATOR) + rest, before, out, length, fails)
    == FromHeader(rest, |c.data|, out + c.data[..len], length + len, fails)
  }

  /** A chunk that is not the output's last comes out right, whatever its data and whatever follows, if and only if
      its size line is shorter than the line buffer. */
  lemma DeliveredIff(size: string, ext: string, before: int, out: string, length: int, fails: bool)
    requires SizeText(size, ext) && HexNumber(size, 0) > 0 && 0 <= length <= |out| < MAX_PAGE_BUF_SIZE
    requires length + Kept(HexNumber(size, 0), out) < MAX_PAGE_BUF_SIZE
    ensures (forall data, rest :: |data| == HexNumber(size, 0) ==>
               Delivered(Chunk(size, ext, data), rest, before, out, length, fails))
            <==> |size| + |ext| < LINE
  {
    hide FromHeader, HexNumber, Delivered;
    if |size| + |ext| < LINE {
      forall data, rest | |data| == HexNumber(size, 0)
        ensures Delivered(Chunk(size, ext, data), rest, before, out, length, fails)
      {
        ShortDelivered(Chunk(size, ext, data), rest, before, out, length, fails);
      }
    } else {
      var stray := (size + ext)[LINE..] + TERMINATOR;
      var x := if stray[0] == 'x' then 'y' else 'x';
      var data := seq(HexNumber(size, 0), _ => x);
      LongSpoiled(Chunk(size, ext, data), "", before, out, length, fails);
    }
  }

  lemma ShortDelivered(c: Chunk, rest: string, before: int, out: string, length: int, fails: bool)
    requires WellFormed(c) && 0 <= length <= |out| <= MAX_PAGE_BUF_SIZE
    requires length + Kept(|c.data|, out) < MAX_PAGE_BUF_SIZE
    ensures Delivered(c, rest, before, out, length, fails)
  {
    hide FromHeader, Kept;
    KeptRange(|c.data|, out);
    OneChunk(c, rest, before, out, length, fails);
  }

  /** The first character delivered is the first stray one, or none is. */
  lemma LongSpoiled(c: Chunk, rest: string, before: int, out: string, length: int, fails: bool)
    requires SizeText(c.size, c.ext) && HexNumber(c.size, 0) == |c.data| > 0 && |c.size + c.ext| >= LINE
    requires 0 <= length <= |out| < MAX_PAGE_BUF_SIZE && length + Kept(|c.data|, out) < MAX_PAGE_BUF_SIZE
    requires ((c.size + c.ext)[LINE..] + TERMINATOR)[0] != c.data[0]
    ensures !Delivered(c, rest, before, out, length, fails)
  {
    hide FromHeader, FromData, HexNumber, Data;
    var stray := (c.size + c.ext)[LINE..] + TERMINATOR;
    var s := stray + (c.data + TERMINATOR + rest);
    var m := HexNumber(c.size[..Min(LINE, |c.size|)], 0);
    var len := Kept(|c.data|, out);
    var more := out + c.data[..len];
    assert Header(c) + (c.data + TERMINATOR) + rest == c.size + c.ext + TERMINATOR + (c.data + TERMINATOR + rest);
    assert s == (c.size + c.ext)[LINE..] + TERMINATOR + (c.data + TERMINATOR + rest);
    LongSizeLine(c.size, c.ext, c.data + TERMINATOR + rest, before, out, length, fails);
    FirstDelivered(s, m, out, length, fails);
    HeaderOrderly(rest, |c.data|, more, length + len, fails);
    var o := FromHeader(rest, |c.data|, more, length + len, fails);
    assert o.out[|out|] == more[|out|] == c.data[0];
  }

  lemma FirstDelivered(s: string, size: nat, out: string, length: int, fails: bool)
    requires size <= |s| && s != "" && 0 <= length <= |out| < MAX_PAGE_BUF_SIZE
    requires length + Kept(size, out) < MAX_PAGE_BUF_SIZE
    ensures var o := FromData(s, size, out, length, fails);
            |o.out| == |out| || (|o.out| > |out| && o.out[|out|] == s[0])
  {
    hide FromHeader, LineOf, Data;
    if size > 0 {
      KeptRange(size, out);
      var more := out + s[..Kept(size, out)];
      assert more[|out|] == s[0];
      DataAll(s, size, out, length, fails);
      match LineOf(s[size..], "", 0)
      case NoLine =>
      case Line(_, next) => HeaderOrderly(next, size, more, length + Kept(size, out), fails);
    }
  }

  // ---------------------------------------------------------------- the buffered connection

  function Pending(buffer: string, pos: nat, pos_max: int, wire: string): string
    requires pos_max <= |buffer|
  {
    if pos < pos_max then buffer[pos..pos_max] + wire else wire
  }

  lemma PendingFrom(buffer: string, pos: nat, n: nat, pos_max: int, wire: string)
    requires pos + n <= pos_max <= |buffer|
    ensures Pending(buffer, pos, pos_max, wire) == buffer[pos..pos + n] + Pending(buffer, pos + n, pos_max, wire)
  {
    var got, left := buffer[pos..pos + n], buffer[pos + n..pos_max];
    assert buffer[pos..pos_max] == got + left;
    assert got + left + wire == got + (left + wire);
  }

  lemma PendingNone(buffer: string, pos: nat, pos_max: int, wire: string)
    requires pos_max <= |buffer|
    ensures pos >= pos_max ==> Pending(buffer, pos, pos_max, wire) == wire
  {
  }

  class MyConnection {
    const buffer: array<char>
    var pos: nat
    var pos_max: int
    /** The bytes still to arrive, how recv cuts them up, and whether an error or an orderly end follows them. */
    var wire: string
    var pieces: seq<nat>
    const fails: bool

    ghost predicate Valid()
      reads this
    {
      buffer.Length == BUFFER_SIZE && -1 <= pos_max <= BUFFER_SIZE && (pos == 0 || pos <= pos_max)
    }

    /** Every byte not yet handed out, in order. */
    ghost function Unread(): string
      requires Valid()
      reads this, buffer
    {
      Pending(buffer[..], pos, pos_max, wire)
    }

    constructor (wire: string, pieces: seq<nat>, fails: bool)
      ensures Valid() && fresh(buffer) && Unread() == wire && this.fails == fails
    {
      buffer := new char[BUFFER_SIZE](_ => NUL);
      pos, pos_max := 0, 0;
      this.wire, this.pieces, this.fails := wire, pieces, fails;
    }

    /** Read_Partial: at least one byte and at most n; at the end of what arrives 0, or -1 on an error. */
    method ReadPartial(n: nat) returns (count: int, got: string)
      requires n > 0
      modifies `wire, `pieces
      ensures old(wire) == got + wire && |got| <= n && (got == "" <==> old(wire) == "")
      ensures count == if got != "" then |got| else if fails then -1 else 0
    {
      var most := if |wire| < n then |wire| else n;
      var k := if pieces == [] || pieces[0] >= most then most else if pieces[0] == 0 then 1 else pieces[0];
      if pieces != [] {
        pieces := pieces[1..];
      }
      got := wire[..k];
      wire := wire[k..];
      count := if got != "" then |got| else if fails then -1 else 0;
    }

    method Refill()
      requires Valid() && pos >= pos_max
      modifies this, buffer
      ensures Valid() && Unread() == old(Unread()) && pos == 0 && (pos_max > 0 <==> Unread() != "")
    {
      var count, got := ReadPartial(BUFFER_SIZE);
      pos_max := count;
      pos := 0;
      forall i | 0 <= i < |got| {
        buffer[i] := got[i];
      }
      assert pos_max > 0 ==> buffer[..pos_max] == got;
    }

    /** Read_Char */
    method ReadChar() returns (ch: int)
      requires Valid()
      modifies this, buffer
      ensures Valid() && (ch < 0 <==> old(Unread()) == "")
      ensures if ch < 0 then Unread() == "" else old(Unread())[0] as int == ch && Unread() == old(Unread())[1..]
    {
      hide Pending;
      if pos >= pos_max {
        Refill();
        if pos_max <= 0 {
          return -1;
        }
      }
      ghost var s := Unread();
      ch := buffer[pos] as int;
      pos := pos + 1;
      PendingFrom(buffer[..], pos - 1, 1, pos_max, wire);
      assert s == [buffer[pos - 1]] + Unread();
    }

    /** Read_Line with a caller's buffer of LINE characters, where no line is the null pointer. */
    method ReadLine() returns (l: Option<string>)
      requires Valid()
      modifies this, buffer
      ensures Valid()
      ensures match LineOf(old(Unread()), "", 0)
              case NoLine => l == None && Unread() == ""
              case Line(text, rest) => l == Some(text) && Unread() == rest
    {
      var text := "";
      var termseq := 0;
      while |text| < LINE
        invariant Valid() && termseq < 2 && |text| <= LINE
        invariant LineOf(old(Unread()), "", 0) == LineOf(Unread(), text, termseq)
        decreases |Unread()|
      {
        var ch := ReadChar();
        if ch < 0 {
          if text == "" {
            return None;
          }
          break;
        }
        if ch == TERMINATOR[termseq] as int {
          termseq := termseq + 1;
          if termseq == 2 {
            break;
          }
        } else {
          text := text + [ch as char];
        }
      }
      l := Some(text);
    }

    /** Read: length bytes, or what there is before an orderly end; -1 on an error. */
    method Read(length: nat) returns (len: int, got: string)
      requires Valid()
      modifies this
      ensures Valid()
      ensures |got| == Min(length, |old(Unread())|) && old(Unread()) == got + Unread()
      ensures len == if fails && |old(Unread())| < length then -1 else |got|
    {
      hide Pending;
      got := "";
      var nleft: int := length;
      ghost var s := Unread();
      if pos < pos_max {
        var n := if length < pos_max - pos then length else pos_max - pos;
        got := buffer[pos..pos + n];
        PendingFrom(buffer[..], pos, n, pos_max, wire);
        pos := pos + n;
        nleft := nleft - n;
      }
      PendingNone(buffer[..], pos, pos_max, wire);
      while nleft > 0
        invariant Valid() && nleft >= 0 && |got| + nleft == length && s == got + Unread()
        invariant nleft > 0 ==> pos >= pos_max && Unread() == wire
        decreases nleft
      {
        var nread, more := ReadPartial(nleft);
        PendingNone(buffer[..], pos, pos_max, wire);
        if nread < 0 {
          return -1, got;
        }
        if nread == 0 {
          break;
        }
        assert s == got + (more + wire) == (got + more) + wire;
        got := got + more;
        nleft := nleft - nread;
      }
      len := length - nleft;
    }
  }

  class Buffer {
    var data: string

    /** add_buffer */
    method Add(s: string, n: int)
      requires n <= |s|
      modifies this
      ensures data == Added(old(data), s, n)
    {
      if n >= 1 {
        data := data + s[..n];
      }
    }
  }

  /** The inner loop of the decoder: one chunk's data; stop when the caller is to return sum at once. */
  method ReadChunk(connection: MyConnection, buf: Buffer, chunkSize: nat, length: int)
    returns (stop: bool, sum: int)
    requires connection.Valid()
    modifies connection, connection.buffer, buf
    ensures connection.Valid()
    ensures match Data(old(connection.Unread()), chunkSize, old(buf.data), length, connection.fails)
            case Stop(o) => stop && o == Outcome(sum, buf.data, connection.Unread())
            case Go(rest, out, l) => !stop && rest == connection.Unread() && out == buf.data && l == sum
  {
    hide Data, Added, Pending;
    ghost var t := Data(connection.Unread(), chunkSize, buf.data, length, connection.fails);
    var chunk := chunkSize;
    sum := length;
    while chunk > 0
      invariant connection.Valid() && chunk >= 0
      invariant t == Data(connection.Unread(), chunk, buf.data, sum, connection.fails)
      decreases chunk
    {
      var rsize := if chunk > BSIZE then BSIZE else chunk;
      ghost var s := connection.Unread();
      var len, block := connection.Read(rsize);
      DataStep(s, block, connection.Unread(), chunk, buf.data, sum, connection.fails);
      if len <= 0 {
        return true, -1;
      }
      chunk := chunk - len;
      if len > MAX_PAGE_BUF_SIZE - |buf.data| {
        len := MAX_PAGE_BUF_SIZE - |buf.data|;
      }
      sum := sum + len;
      buf.Add(block, len);
      if sum >= MAX_PAGE_BUF_SIZE {
        return true, sum;
      }
    }
    stop := false;
    DataDone(connection.Unread(), buf.data, sum, connection.fails);
  }

  /** The method's uninitialised chunk_size is the parameter chunkSize0. */
  method ReadChunkedBody(connection: MyConnection, buf: Buffer, chunkSize0: int) returns (code: int)
    requires connection.Valid()
    modifies connection, connection.buffer, buf
    ensures connection.Valid()
    ensures FromHeader(old(connection.Unread()), chunkSize0, old(buf.data), 0, connection.fails)
            == Outcome(code, buf.data, connection.Unread())
  {
    hide Data, LineOf, ScanHex, CString, Pending;
    ghost var whole := FromHeader(connection.Unread(), chunkSize0, buf.data, 0, connection.fails);
    var length := 0;
    var header := connection.ReadLine();
    if header == None || CString(header.value) == "" {
      return -1;
    }
    var chunkSize := ScanHex(header.value, chunkSize0);
    while chunkSize > 0
      invariant connection.Valid()
      invariant whole == FromData(connection.Unread(), chunkSize, buf.data, length, connection.fails)
      decreases |connection.Unread()|
    {
      var stop: bool;
      stop, length := ReadChunk(connection, buf, chunkSize, length);
      if stop {
        return length;
      }
      header := connection.ReadLine();
      if header == None {
        return -1;
      }
      header := connection.ReadLine();
      if header == None || CString(header.value) == "" {
        return -1;
      }
      chunkSize := ScanHex(header.value, chunkSize);
    }
    code := length;
  }
}
