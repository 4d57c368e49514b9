/**
 * The reply to a memcached "get" as src/tools/MemCacheClient.cpp reads it: three readers over one buffer, fed by
 * a socket that delivers the bytes in pieces of any size, and a parser that files the values under the requests.
 */
module MemCacheGet {
  import opened CText
  import opened Machine

  const MAXBUF := 1024

  // ---------------------------------------------------------------- the buffered socket

  class ServerSocket {
    const mBuf: array<char>
    var mIdx: nat
    var mBufLen: nat
    /** The bytes still to arrive before the connection ends or fails, and how recv cuts them up. */
    var wire: string
    var pieces: seq<nat>

    ghost predicate Valid()
      reads this
    {
      mBuf.Length == MAXBUF && mIdx <= mBufLen <= MAXBUF
    }

    /** Every byte not yet taken, in order. */
    ghost function Unread(): string
      requires Valid()
      reads this, mBuf
    {
      mBuf[mIdx..mBufLen] + wire
    }

    constructor (wire: string, pieces: seq<nat>)
      ensures Valid() && fresh(mBuf) && Unread() == wire
    {
      mBuf := new char[MAXBUF](_ => NUL);
      mIdx, mBufLen := 0, 0;
      this.wire, this.pieces := wire, pieces;
    }

    /** recv: at least one byte and at most n; nothing only when there is nothing more, which throws. */
    method ReceiveBytes(n: nat) returns (got: string)
      requires n > 0
      modifies `wire, `pieces
      ensures old(wire) == got + wire && |got| <= n && (got == "" <==> old(wire) == "")
    {
      var most := if |wire| < n then |wire| else n;
      var k := if pieces == [] || pieces[0] >= most then most else if pieces[0] == 0 && most > 0 then 1 else pieces[0];
      if pieces != [] {
        pieces := pieces[1..];
      }
      got := wire[..k];
      wire := wire[k..];
    }

    /** Refill the buffer; on an error the connection is dropped and the buffer emptied. */
    method Refill() returns (ok: bool)
      requires Valid() && mIdx == mBufLen
      modifies this, mBuf
      ensures Valid() && Unread() == old(Unread()) && mIdx == 0 && ok == (mBufLen > 0) == (old(Unread()) != "")
    {
      mIdx, mBufLen := 0, 0;
      var got := ReceiveBytes(MAXBUF);
      forall i | 0 <= i < |got| {
        mBuf[i] := got[i];
      }
      mBufLen := |got|;
      ok := got != "";
      assert mBuf[..mBufLen] == got;
    }

    method GetByte() returns (ok: bool, c: char)
      requires Valid()
      modifies this, mBuf
      ensures Valid() && ok == (old(Unread()) != "")
      ensures ok ==> old(Unread()) == [c] + Unread()
    {
      ok := true;
      if mIdx >= mBufLen {
        ok := Refill();
        if !ok {
          return false, NUL;
        }
      }
      c := mBuf[mIdx];
      mIdx := mIdx + 1;
    }

    /** Up to n bytes: what is buffered, or else one recv. */
    method GetBytes(n: nat) returns (got: string)
      requires Valid() && n > 0
      modifies this
      ensures Valid() && old(Unread()) == got + Unread() && |got| <= n
      ensures got == "" <==> old(Unread()) == ""
    {
      if mIdx < mBufLen {
        var nLen := mBufLen - mIdx;
        if nLen > n {
          nLen := n;
        }
        got := mBuf[mIdx..mIdx + nLen];
        mIdx := mIdx + nLen;
        if mIdx == mBufLen {
          mIdx, mBufLen := 0, 0;
        }
        return;
      }
      got := ReceiveBytes(n);
    }

    /** Step over n bytes of the buffer. */
    method Skip(n: nat, ghost s: string, ghost gone: nat)
      requires Valid() && n <= mBufLen - mIdx && gone <= |s| && Unread() == s[gone..]
      modifies `mIdx
      ensures Valid() && mIdx == old(mIdx) + n && gone + n <= |s| && Unread() == s[gone + n..]
    {
      assert Unread() == mBuf[mIdx..mIdx + n] + (mBuf[mIdx + n..mBufLen] + wire);
      mIdx := mIdx + n;
      assert Unread() == s[gone..][n..];
    }

    method DiscardBytes(n: int) returns (ok: bool)
      requires Valid()
      modifies this, mBuf
      ensures Valid() && ok == (n <= |old(Unread())|)
      ensures ok ==> Unread() == old(Unread())[if n < 0 then 0 else n..]
    {
      hide ServerSocket.Unread;
      ok := true;
      var left := n;
      ghost var gone := 0;
      ghost var s := Unread();
      while left > 0
        invariant Valid() && (n >= 0 ==> left >= 0) && (n < 0 ==> left == n)
        invariant gone == (if n < 0 then 0 else n - left) <= |s| && Unread() == s[gone..]
      {
        if mIdx == mBufLen {
          ok := Refill();
          if !ok {
            return;
          }
        }
        var nLen := mBufLen - mIdx;
        if nLen > left {
          Skip(left, s, gone);
          gone := gone + left;
          break;
        }
        left := left - nLen;
        Skip(nLen, s, gone);
        gone := gone + nLen;
      }
    }
  }

  // ---------------------------------------------------------------- numbers

  /** strtoul in base 10: the number, modulo 2^64 or the largest one on overflow, and what follows it. */
  function Strtoul(s: string): (nat, string) {
    var t := SkipSpaces(s);
    var neg := t != "" && t[0] == '-';
    var u := if t != "" && (t[0] == '-' || t[0] == '+') then t[1..] else t;
    if u == "" || !IsDigit(u[0]) then (0, s)
    else
      var n := ScanDigits(u, 0);
      (if n < 0 then 0 else if n >= TWO64 then TWO64 - 1 else if neg then (TWO64 - n) % TWO64 else n, DropDigits(u))
  }

  /** strtoul reads back a printed number. */
  lemma StrtoulOfDigits(n: nat, rest: string)
    requires n < TWO64 && (rest == "" || !IsDigit(rest[0]))
    ensures Strtoul(Digits(n) + rest) == (n, rest)
  {
    var t := Digits(n) + rest;
    DigitsShape(n);
    assert t[0] == Digits(n)[0] && Digits(n)[0] in Digits(n);
    ScanOfDigits(n, rest);
    DropOfDigits(n, rest);
  }

  // ---------------------------------------------------------------- the response as a text

  datatype Result = NotFound | Found

  /** A request: its key, and what the response fills in. */
  datatype Item = Item(key: string, flags: nat, cas: nat, data: string, result: Result)

  datatype Header = BadHeader | Header(key: string, flags: nat, bytes: nat, after: string)

  /** Index of the first c at or after i, or the length. */
  function IndexOf(s: string, c: char, i: nat): (n: nat)
    requires i <= |s|
    ensures i <= n <= |s| && (n < |s| ==> s[n] == c) && forall j :: i <= j < n ==> s[j] != c
    decreases |s| - i
  {
    if i == |s| || s[i] == c then i else IndexOf(s, c, i + 1)
  }

  /** Key, flags and size of a "VALUE " line, and the rest of the line from the end of the size on. */
  function HeaderOf(line: string): (h: Header)
    requires |line| >= 6
    ensures h.Header? ==> h.after != ""
  {
    var n := IndexOf(line, ' ', 6);
    if n == |line| then BadHeader
    else
      var (flags, r1) := Strtoul(line[n + 1..]);
      if r1 == "" || r1[0] != ' ' then BadHeader
      else
        var (bytes, r2) := Strtoul(r1[1..]);
        if r2 == "" || (r2[0] != ' ' && r2[0] != '\r') then BadHeader
        else Header(line[6..n], flags % TWO32, bytes % TWO32, r2)
  }

  datatype Cas = BadCas | NoCas | Cas(value: nat)

  function CasOf(after: string): Cas
    requires after != ""
  {
    if after[0] != ' ' then NoCas
    else
      var (cas, r) := Strtoul(after[1..]);
      if r == "" || r[0] != '\r' then BadCas else Cas(cas)
  }

  /** Index of the first request for a key, or the number of requests. */
  function FindItem(items: seq<Item>, key: string): (p: nat)
    ensures p <= |items| && (p < |items| ==> items[p].key == key)
    ensures forall j :: 0 <= j < p ==> items[j].key != key
  {
    if items == [] then 0 else if items[0].key == key then 0 else 1 + FindItem(items[1..], key)
  }

  function Filed(x: Item, h: Header, cas: Cas, data: string): Item
    requires h.Header?
  {
    Item(x.key, h.flags, if cas.Cas? then cas.value else x.cas, x.data + data, Found)
  }

  datatype Parsed = Bad | Done(items: seq<Item>, rest: string, found: nat)

  /** A number of bytes taken as a signed int. */
  function Signed(n: nat): int {
    if n < 0x8000_0000 then n else n - TWO32
  }

  /** One line of the response, with the data after it: an error that throws, the end, or a value filed or
      skipped. */
  datatype One = Throws | End(rest: string) | Next(items: seq<Item>, rest: string, hit: nat)

  function ReadOne(stream: string, items: seq<Item>): (r: One)
    ensures r.Next? ==> |r.rest| < |stream|
  {
    var nl := IndexOf(stream, '\n', 0);
    if nl == |stream| then Throws
    else
      var line, rest := stream[..nl + 1], stream[nl + 1..];
      if line == "END\r\n" then End(rest)
      else if |line| < 6 || line[..6] != "VALUE " then Throws
      else ReadValue(HeaderOf(line), rest, items)
  }

  function ReadValue(h: Header, rest: string, items: seq<Item>): (r: One)
    requires h.Header? ==> h.after != ""
    ensures !r.End? && (r.Next? ==> |r.rest| <= |rest|)
  {
    if h.BadHeader? then Throws
    else
      var p := FindItem(items, h.key);
      if p == |items| then
        var skip := Signed((h.bytes + 2) % TWO32);
        if skip > |rest| then Throws else Next(items, rest[if skip < 0 then 0 else skip..], 0)
      else
        var cas := CasOf(h.after);
        if cas.BadCas? || h.bytes >= 0x8000_0000 || h.bytes + 2 > |rest| || rest[h.bytes] != '\r' || rest[h.bytes + 1] != '\n'
        then Throws
        else Next(items[p := Filed(items[p], h, cas, rest[..h.bytes])], rest[h.bytes + 2..], 1)
  }

  /** What reading a response from the stream does to the requests, or Bad for the cases that throw. */
  function Parse(stream: string, items: seq<Item>, found: nat): Parsed
    decreases |stream|
  {
    match ReadOne(stream, items)
    case Throws => Bad
    case End(rest) => Done(items, rest, found)
    case Next(items', rest, hit) => Parse(rest, items', found + hit)
  }

  // ---------------------------------------------------------------- reading it from the socket

  /** No newline but the last character. */
  predicate OneLine(l: string) {
    l != "" && l[|l| - 1] == '\n' && forall j :: 0 <= j < |l| - 1 ==> l[j] != '\n'
  }

  predicate Flat(s: string) { forall j :: 0 <= j < |s| ==> s[j] != '\n' }

  lemma IndexOfFrom(s: string, c: char, i: nat, n: nat)
    requires i <= n <= |s| && (n < |s| ==> s[n] == c) && forall j :: i <= j < n ==> s[j] != c
    ensures IndexOf(s, c, i) == n
    decreases n - i
  {
  }

  lemma FirstLine(l: string, body: string)
    requires OneLine(l)
    ensures var stream := l + body;
            && IndexOf(stream, '\n', 0) == |l| - 1 < |stream|
            && stream[..|l|] == l && stream[|l|..] == body
  {
    var stream := l + body;
    assert forall j :: 0 <= j < |l| ==> stream[j] == l[j];
    IndexOfFrom(stream, '\n', 0, |l| - 1);
  }

  /** ReceiveLine */
  method ReceiveLine(a_pServer: ServerSocket) returns (ok: bool, a_sValue: string)
    requires a_pServer.Valid()
    modifies a_pServer, a_pServer.mBuf
    ensures a_pServer.Valid()
    ensures var s := old(a_pServer.Unread());
            var nl := IndexOf(s, '\n', 0);
            ok == (nl < |s|) && (ok ==> a_sValue == s[..nl + 1] && a_pServer.Unread() == s[nl + 1..])
  {
    hide IndexOf, Flat;
    var c;
    ghost var s := a_pServer.Unread();
    a_sValue := "";
    ok, c := a_pServer.GetByte();
    if !ok {
      return;
    }
    FlatEmpty();
    ghost var before := "";
    a_sValue := [c];
    while c != '\n'
      invariant a_pServer.Valid() && s == a_sValue + a_pServer.Unread()
      invariant a_sValue == before + [c] && Flat(before)
      decreases |a_pServer.Unread()|
    {
      FlatMore(before, c);
      before := a_sValue;
      ghost var u := a_pServer.Unread();
      ok, c := a_pServer.GetByte();
      if !ok {
        assert before + "" == before;
        NoLine(s);
        return;
      }
      assert s == before + ([c] + a_pServer.Unread()) == (before + [c]) + a_pServer.Unread();
      a_sValue := a_sValue + [c];
    }
    FlatLine(before);
    FirstLine(a_sValue, a_pServer.Unread());
  }

  lemma FlatEmpty()
    ensures Flat("")
  {
  }

  lemma FlatMore(s: string, c: char)
    requires Flat(s) && c != '\n'
    ensures Flat(s + [c])
  {
  }

  lemma NoLine(s: string)
    requires Flat(s)
    ensures IndexOf(s, '\n', 0) == |s|
  {
    IndexOfIs(s, '\n', |s|);
  }

  lemma IndexOfIs(s: string, c: char, n: nat)
    requires n <= |s| && (n < |s| ==> s[n] == c) && forall j :: 0 <= j < n ==> s[j] != c
    ensures IndexOf(s, c, 0) == n
  {
  }

  /** The loop that receives n bytes of data. */
  method ReceiveData(a_pServer: ServerSocket, n: nat) returns (ok: bool, data: string)
    requires a_pServer.Valid()
    modifies a_pServer
    ensures a_pServer.Valid() && ok == (n <= |old(a_pServer.Unread())|)
    ensures ok ==> data == old(a_pServer.Unread())[..n] && a_pServer.Unread() == old(a_pServer.Unread())[n..]
  {
    data := "";
    ok := true;
    var nBytes := n;
    ghost var s := a_pServer.Unread();
    while nBytes > 0
      invariant a_pServer.Valid() && nBytes >= 0 && |data| + nBytes == n && s == data + a_pServer.Unread()
      decreases nBytes
    {
      var got := a_pServer.GetBytes(nBytes);
      if got == "" {
        return false, data;
      }
      data := data + got;
      nBytes := nBytes - |got|;
    }
    assert s[..n] == data && s[n..] == a_pServer.Unread();
  }

  /** The trailing "\r\n" of a value. */
  method ReceiveEnd(a_pServer: ServerSocket) returns (ok: bool)
    requires a_pServer.Valid()
    modifies a_pServer, a_pServer.mBuf
    ensures a_pServer.Valid()
    ensures var s := old(a_pServer.Unread());
            ok == (|s| >= 2 && s[0] == '\r' && s[1] == '\n') && (ok ==> a_pServer.Unread() == s[2..])
  {
    var c;
    ok, c := a_pServer.GetByte();
    if !ok || c != '\r' {
      return false;
    }
    ok, c := a_pServer.GetByte();
    if !ok || c != '\n' {
      return false;
    }
  }

  /** The part of the loop after a good header. */
  method ReceiveValue(a_pServer: ServerSocket, a_rgItem: array<Item>, h: Header) returns (ok: bool, hit: nat)
    requires a_pServer.Valid() && a_rgItem != a_pServer.mBuf as object && h.Header? && h.after != ""
    modifies a_pServer, a_pServer.mBuf, a_rgItem
    ensures a_pServer.Valid()
    ensures var r := ReadValue(h, old(a_pServer.Unread()), old(a_rgItem[..]));
            ok == r.Next? && (ok ==> r == Next(a_rgItem[..], a_pServer.Unread(), hit))
  {
    hide CasOf;
    var p := 0;
    while p < a_rgItem.Length && a_rgItem[p].key != h.key
      invariant p <= a_rgItem.Length && forall j :: 0 <= j < p ==> a_rgItem[j].key != h.key
    {
      p := p + 1;
    }
    FindItemIs(a_rgItem[..], h.key, p);
    hit := 0;
    if p == a_rgItem.Length {
      ok := a_pServer.DiscardBytes(Signed((h.bytes + 2) % TWO32));
    } else {
      var cas := CasOf(h.after);
      if cas.BadCas? || h.bytes >= 0x8000_0000 {
        return false, 0;
      }
      var data;
      ok, data := ReceiveData(a_pServer, h.bytes);
      if !ok {
        return;
      }
      a_rgItem[p] := Filed(a_rgItem[p], h, cas, data);
      ok := ReceiveEnd(a_pServer);
      hit := 1;
    }
  }

  /** The first line decides. */
  lemma ReadOneIs(stream: string, items: seq<Item>)
    ensures var nl := IndexOf(stream, '\n', 0);
            nl == |stream| ==> ReadOne(stream, items).Throws?
    ensures var nl := IndexOf(stream, '\n', 0);
            nl < |stream| ==>
              var line, rest := stream[..nl + 1], stream[nl + 1..];
              && (line == "END\r\n" ==> ReadOne(stream, items) == End(rest))
              && (line != "END\r\n" && (|line| < 6 || line[..6] != "VALUE ") ==> ReadOne(stream, items).Throws?)
              && (line != "END\r\n" && |line| >= 6 && line[..6] == "VALUE " ==>
                    ReadOne(stream, items) == ReadValue(HeaderOf(line), rest, items))
  {
    hide IndexOf, HeaderOf, ReadValue;
  }

  lemma ParseOnce(stream: string, items: seq<Item>, found: nat)
    ensures Parse(stream, items, found) ==
              match ReadOne(stream, items)
              case Throws => Bad
              case End(rest) => Done(items, rest, found)
              case Next(items', rest, hit) => Parse(rest, items', found + hit)
  {
  }

  /** HandleGetResponse; ok is false where it throws. */
  method HandleGetResponse(a_pServer: ServerSocket, a_rgItem: array<Item>) returns (ok: bool, nFound: nat)
    requires a_pServer.Valid() && a_rgItem != a_pServer.mBuf as object
    modifies a_pServer, a_pServer.mBuf, a_rgItem
    ensures a_pServer.Valid()
    ensures var r := Parse(old(a_pServer.Unread()), old(a_rgItem[..]), 0);
            ok == r.Done? && (ok ==> r == Done(a_rgItem[..], a_pServer.Unread(), nFound))
  {
    hide HeaderOf, ReadValue, ReadOne, Parse, IndexOf;
    nFound := 0;
    while true
      invariant a_pServer.Valid()
      invariant Parse(a_pServer.Unread(), a_rgItem[..], nFound) == Parse(old(a_pServer.Unread()), old(a_rgItem[..]), 0)
      decreases |a_pServer.Unread()|
    {
      ReadOneIs(a_pServer.Unread(), a_rgItem[..]);
      ParseOnce(a_pServer.Unread(), a_rgItem[..], nFound);
      var sValue;
      ok, sValue := ReceiveLine(a_pServer);
      if !ok {
        return;
      }
      if sValue == "END\r\n" {
        return;
      }
      if |sValue| < 6 || sValue[..6] != "VALUE " {
        return false, nFound;
      }
      var h := HeaderOf(sValue);
      if h.BadHeader? {
        BadValue(h, a_pServer.Unread(), a_rgItem[..]);
        return false, nFound;
      }
      var hit;
      ok, hit := ReceiveValue(a_pServer, a_rgItem, h);
      if !ok {
        return;
      }
      nFound := nFound + hit;
    }
  }

  lemma BadValue(h: Header, rest: string, items: seq<Item>)
    requires h.BadHeader?
    ensures ReadValue(h, rest, items).Throws?
  {
  }

  lemma FindItemIs(items: seq<Item>, key: string, p: nat)
    requires p <= |items| && (p < |items| ==> items[p].key == key) && forall j :: 0 <= j < p ==> items[j].key != key
    ensures FindItem(items, key) == p
  {
  }

  // ---------------------------------------------------------------- well-formed responses

  /** A value as the server sends it. */
  datatype Value = Value(key: string, flags: nat, cas: Cas, data: string)

  /** Keys hold no blank and no newline; numbers fit the fields the client keeps them in. */
  predicate ValueOk(v: Value) {
    && ' ' !in v.key && '\n' !in v.key && v.flags < TWO32 && |v.data| < 0x7FFF_FFFE
    && !v.cas.BadCas? && (v.cas.Cas? ==> v.cas.value < TWO64)
  }

  function CasText(cas: Cas): string {
    if cas.Cas? then " " + Digits(cas.value) else ""
  }

  function Line(v: Value): string {
    "VALUE " + v.key + " " + Digits(v.flags) + " " + Digits(|v.data|) + CasText(v.cas) + "\r\n"
  }

  function Text(vs: seq<Value>): string {
    if vs == [] then "END\r\n" else Line(vs[0]) + vs[0].data + "\r\n" + Text(vs[1..])
  }

  /** What a response means for the requests: each value goes to the first request for its key, if there is one. */
  function Answered(items: seq<Item>, vs: seq<Value>): seq<Item>
    decreases |vs|
  {
    if vs == [] then items
    else
      var v, p := vs[0], FindItem(items, vs[0].key);
      Answered(if p == |items| then items else items[p := AnswerOne(items[p], v)], vs[1..])
  }

  function AnswerOne(x: Item, v: Value): Item {
    Item(x.key, v.flags, if v.cas.Cas? then v.cas.value else x.cas, x.data + v.data, Found)
  }

  function Hits(items: seq<Item>, vs: seq<Value>): nat {
    if vs == [] then 0
    else Hits(items, vs[1..]) + if FindItem(items, vs[0].key) < |items| then 1 else 0
  }

  lemma KeyEnds(key: string, t: string)
    requires ' ' !in key
    ensures var line := "VALUE " + (key + (" " + t));
            && |line| >= 6 && line[..6] == "VALUE " && IndexOf(line, ' ', 6) == 6 + |key| < |line|
            && line[6..6 + |key|] == key && line[6 + |key| + 1..] == t
  {
    hide IndexOf;
    var line := "VALUE " + (key + (" " + t));
    var n := 6 + |key|;
    forall j | 6 <= j < n ensures line[j] != ' ' {
      assert line[j] == key[j - 6] && key[j - 6] in key;
    }
    assert line[n] == ' ';
    IndexOfFrom(line, ' ', 6, n);
  }

  lemma CasParses(cas: Cas)
    requires !cas.BadCas? && (cas.Cas? ==> cas.value < TWO64)
    ensures CasOf(CasText(cas) + "\r\n") == cas
  {
    hide Strtoul, Digits;
    if cas.Cas? {
      StrtoulOfDigits(cas.value, "\r\n");
      var after := CasText(cas) + "\r\n";
      assert after[0] == ' ' && after[1..] == Digits(cas.value) + "\r\n";
    } else {
      assert CasText(cas) + "\r\n" == "\r\n";
    }
  }

  lemma AfterStarts(cas: Cas)
    ensures var after := CasText(cas) + "\r\n"; after != "" && (after[0] == ' ' || after[0] == '\r')
  {
  }

  lemma LineJoins(v: Value)
    ensures Line(v) == "VALUE " + (v.key + (" " + (Digits(v.flags) + (" " + (Digits(|v.data|) + (CasText(v.cas) + "\r\n"))))))
  {
    hide Digits, CasText;
  }

  /** The printed line parses to the fields it was printed from. */
  lemma LineParses(v: Value)
    requires ValueOk(v)
    ensures |Line(v)| >= 6 && Line(v)[..6] == "VALUE "
    ensures HeaderOf(Line(v)) == Header(v.key, v.flags, |v.data|, CasText(v.cas) + "\r\n")
    ensures CasOf(CasText(v.cas) + "\r\n") == v.cas
  {
    hide Strtoul, Digits, IndexOf, Line, CasText, CasOf;
    var after := CasText(v.cas) + "\r\n";
    var r1 := " " + (Digits(|v.data|) + after);
    LineJoins(v);
    AfterStarts(v.cas);
    KeyEnds(v.key, Digits(v.flags) + r1);
    StrtoulOfDigits(v.flags, r1);
    StrtoulOfDigits(|v.data|, after);
    assert r1[1..] == Digits(|v.data|) + after;
    CasParses(v.cas);
  }

  lemma FlatJoin(a: string, b: string)
    requires Flat(a) && Flat(b)
    ensures Flat(a + b)
  {
  }

  lemma FlatDigits(n: nat)
    ensures Flat(Digits(n))
  {
    DigitsShape(n);
    assert forall j :: 0 <= j < |Digits(n)| ==> Digits(n)[j] in Digits(n);
  }

  lemma FlatKey(key: string)
    requires '\n' !in key
    ensures Flat(key)
  {
  }

  lemma LineIsOne(v: Value)
    requires ValueOk(v)
    ensures OneLine(Line(v))
  {
    hide Digits, Flat;
    FlatKey(v.key);
    FlatDigits(v.flags);
    FlatDigits(|v.data|);
    FlatKey("VALUE ");
    FlatKey(" ");
    FlatKey("\r");
    FlatKey("");
    if v.cas.Cas? {
      FlatDigits(v.cas.value);
      FlatJoin(" ", Digits(v.cas.value));
    }
    FlatJoin("VALUE ", v.key);
    FlatJoin("VALUE " + v.key, " ");
    FlatJoin("VALUE " + v.key + " ", Digits(v.flags));
    FlatJoin("VALUE " + v.key + " " + Digits(v.flags), " ");
    FlatJoin("VALUE " + v.key + " " + Digits(v.flags) + " ", Digits(|v.data|));
    FlatJoin("VALUE " + v.key + " " + Digits(v.flags) + " " + Digits(|v.data|), CasText(v.cas));
    var m := "VALUE " + v.key + " " + Digits(v.flags) + " " + Digits(|v.data|) + CasText(v.cas);
    FlatJoin(m, "\r");
    assert Line(v) == m + "\r" + "\n";
    FlatLine(m + "\r");
  }

  lemma FlatLine(m: string)
    requires Flat(m)
    ensures OneLine(m + "\n")
  {
  }

  /** The value after its header line. */
  lemma ReadData(v: Value, rest: string, items: seq<Item>)
    requires ValueOk(v)
    ensures var h := Header(v.key, v.flags, |v.data|, CasText(v.cas) + "\r\n");
            var p := FindItem(items, v.key);
            ReadValue(h, v.data + ("\r\n" + rest), items) ==
              if p == |items| then Next(items, rest, 0) else Next(items[p := AnswerOne(items[p], v)], rest, 1)
  {
    hide CasOf, CasText, HeaderOf, Line, FindItem, ValueOk;
    LineParses(v);
    ValueFits(v);
    BodyCut(v.data, rest);
    assert FindItem(items, v.key) < |items| ==>
        Filed(items[FindItem(items, v.key)], Header(v.key, v.flags, |v.data|, CasText(v.cas) + "\r\n"), v.cas, v.data)
        == AnswerOne(items[FindItem(items, v.key)], v);
  }

  lemma ValueFits(v: Value)
    requires ValueOk(v)
    ensures !v.cas.BadCas? && |v.data| < 0x8000_0000 && Signed((|v.data| + 2) % TWO32) == |v.data| + 2
  {
  }

  lemma BodyCut(data: string, rest: string)
    ensures var n, body := |data|, data + ("\r\n" + rest);
            && n + 2 <= |body| && body[..n] == data && body[n] == '\r' && body[n + 1] == '\n' && body[n + 2..] == rest
  {
  }

  /** One value of a response is read and filed, and reading goes on right after it. */
  lemma ReadsValue(v: Value, rest: string, items: seq<Item>)
    requires ValueOk(v)
    ensures var p := FindItem(items, v.key);
            ReadOne(Line(v) + v.data + "\r\n" + rest, items) ==
              if p == |items| then Next(items, rest, 0) else Next(items[p := AnswerOne(items[p], v)], rest, 1)
  {
    hide Line, HeaderOf, CasOf, CasText, ReadValue, OneLine, IndexOf, ReadOne, FindItem, ValueOk;
    LineParses(v);
    LineIsOne(v);
    var l := Line(v);
    var body := v.data + ("\r\n" + rest);
    FirstLine(l, body);
    ReadData(v, rest, items);
    assert l + v.data + "\r\n" + rest == l + body;
    ReadOneIs(l + body, items);
    NotEnd(l);
  }

  lemma NotEnd(l: string)
    requires |l| >= 6 && l[..6] == "VALUE "
    ensures l != "END\r\n"
  {
    assert l[0] == l[..6][0];
  }

  lemma ReadsEnd(rest: string, items: seq<Item>)
    ensures ReadOne("END\r\n" + rest, items) == End(rest)
  {
    FirstLine("END\r\n", rest);
  }

  /** A well-formed response is read to its end and not beyond, and does to the requests what it says. */
  lemma {:induction false} WellFormedParses(vs: seq<Value>, tail: string, items: seq<Item>, found: nat)
    requires forall k :: 0 <= k < |vs| ==> ValueOk(vs[k])
    ensures Parse(Text(vs) + tail, items, found) == Done(Answered(items, vs), tail, found + Hits(items, vs))
    decreases |vs|
  {
    hide ReadOne, Line, Parse, ValueOk, FindItem;
    ParseOnce(Text(vs) + tail, items, found);
    if vs == [] {
      ReadsEnd(tail, items);
    } else {
      var v := vs[0];
      var p := FindItem(items, v.key);
      ReadsValue(v, Text(vs[1..]) + tail, items);
      assert Text(vs) + tail == Line(v) + v.data + "\r\n" + (Text(vs[1..]) + tail);
      var items' := if p == |items| then items else items[p := AnswerOne(items[p], v)];
      WellFormedParses(vs[1..], tail, items', found + if p == |items| then 0 else 1);
      HitsSame(items, items', vs[1..]);
    }
  }

  lemma {:induction false} FindSame(items: seq<Item>, items': seq<Item>, key: string)
    requires |items| == |items'| && forall j :: 0 <= j < |items| ==> items[j].key == items'[j].key
    ensures FindItem(items, key) == FindItem(items', key)
  {
    FindItemIs(items', key, FindItem(items, key));
  }

  lemma {:induction false} HitsSame(items: seq<Item>, items': seq<Item>, vs: seq<Value>)
    requires |items| == |items'| && forall j :: 0 <= j < |items| ==> items[j].key == items'[j].key
    ensures Hits(items, vs) == Hits(items', vs)
    decreases |vs|
  {
    if vs != [] {
      FindSame(items, items', vs[0].key);
      HitsSame(items, items', vs[1..]);
    }
  }

  /** With different keys among the requests and among the values, every request whose key is in the response has
      exactly its value's flags and bytes, and every other request is as it was. */
  lemma {:induction false} AnsweredExactly(items: seq<Item>, vs: seq<Value>, i: nat)
    requires i < |items| && forall j, k :: 0 <= j < k < |items| ==> items[j].key != items[k].key
    requires forall j, k :: 0 <= j < k < |vs| ==> vs[j].key != vs[k].key
    ensures |Answered(items, vs)| == |items|
    ensures forall k :: 0 <= k < |vs| && vs[k].key == items[i].key ==> Answered(items, vs)[i] == AnswerOne(items[i], vs[k])
    ensures (forall k :: 0 <= k < |vs| ==> vs[k].key != items[i].key) ==> Answered(items, vs)[i] == items[i]
    decreases |vs|
  {
    if vs != [] {
      var p := FindItem(items, vs[0].key);
      var items' := if p == |items| then items else items[p := AnswerOne(items[p], vs[0])];
      AnsweredExactly(items', vs[1..], i);
      if vs[0].key == items[i].key { FindItemIs(items, vs[0].key, i); }
      assert forall k :: 1 <= k < |vs| ==> vs[k] == vs[1..][k - 1];
    }
  }
}
