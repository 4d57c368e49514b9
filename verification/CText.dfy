/**
 * The fragment of C's text formatting and parsing that the index file relies on:
 * "%d", "%*d", "%-*s", atol, strrchr and NUL-terminated strings.
 */
module CText {

  const NUL := 0 as char
  const SEP := ':'

  datatype Cut = NoSep | Cut(left: string, right: string)

  // ---------------------------------------------------------------- printing

  function DigitChar(d: nat): (c: char)
    requires d < 10
    ensures IsDigit(c) && DigitValue(c) == d
  {
    (('0' as int) + d) as char
  }

  /** "%d" of a non-negative number. */
  function Digits(n: nat): string {
    if n < 10 then [DigitChar(n)] else Digits(n / 10) + [DigitChar(n % 10)]
  }

  /** How many decimal digits a number has. */
  function NumLen(n: nat): (k: nat)
    ensures k >= 1
  {
    if n < 10 then 1 else 1 + NumLen(n / 10)
  }

  function Blanks(n: nat): string {
    seq(n, _ => ' ')
  }

  /** "%*d": right-justify in a field of the given width. */
  function PadLeft(width: nat, s: string): string {
    Blanks(if |s| < width then width - |s| else 0) + s
  }

  /** "%-*s": left-justify in a field of the given width. */
  function PadRight(width: nat, s: string): string {
    s + Blanks(if |s| < width then width - |s| else 0)
  }

  function Pow10(k: nat): (p: nat)
    ensures p >= 1
  {
    if k == 0 then 1 else 10 * Pow10(k - 1)
  }

  // ---------------------------------------------------------------- parsing

  predicate IsDigit(c: char) { '0' <= c <= '9' }

  function DigitValue(c: char): int { (c as int) - ('0' as int) }

  /** isspace in the C locale. */
  predicate IsSpace(c: char) {
    c == ' ' || (9 <= c as int <= 13)
  }

  function SkipSpaces(s: string): string {
    if s != [] && IsSpace(s[0]) then SkipSpaces(s[1..]) else s
  }

  function ScanDigits(s: string, acc: int): int
    decreases |s|
  {
    if s != [] && IsDigit(s[0]) then ScanDigits(s[1..], 10 * acc + DigitValue(s[0])) else acc
  }

  /** What follows the leading digits. */
  function DropDigits(s: string): (r: string)
    ensures |r| <= |s|
  {
    if s != "" && IsDigit(s[0]) then DropDigits(s[1..]) else s
  }

  /** atol (atoi on short fields): blanks, an optional sign, then digits. */
  function Atol(s: string): int {
    var t := SkipSpaces(s);
    if t != [] && t[0] == '-' then -ScanDigits(t[1..], 0)
    else if t != [] && t[0] == '+' then ScanDigits(t[1..], 0)
    else ScanDigits(t, 0)
  }

  /** The part of a buffer a C string function sees. */
  function CString(s: string): string {
    if s == [] || s[0] == NUL then [] else [s[0]] + CString(s[1..])
  }

  /** strrchr(s, ':') followed by overwriting the separator with NUL. */
  function CutLast(s: string): Cut {
    if s == [] then NoSep
    else
      var n := |s| - 1;
      if s[n] == SEP then Cut(s[..n], [])
      else match CutLast(s[..n])
        case NoSep => NoSep
        case Cut(l, r) => Cut(l, r + [s[n]])
  }

  // ---------------------------------------------------------------- lemmas

  lemma {:induction false} DigitsShape(n: nat)
    ensures |Digits(n)| == NumLen(n)
    ensures forall c :: c in Digits(n) ==> IsDigit(c)
  {
    if n >= 10 {
      DigitsShape(n / 10);
    }
  }

  lemma {:induction false} NumLenFits(n: nat, k: nat)
    requires k >= 1 && n < Pow10(k)
    ensures NumLen(n) <= k
  {
    if n >= 10 {
      NumLenFits(n / 10, k - 1);
    }
  }

  lemma {:induction false} NumLenMonotone(m: nat, n: nat)
    requires m <= n
    ensures NumLen(m) <= NumLen(n)
  {
    if n >= 10 && m >= 10 {
      NumLenMonotone(m / 10, n / 10);
    }
  }

  lemma {:induction false} ScanOfDigits(n: nat, rest: string)
    ensures ScanDigits(Digits(n) + rest, 0) == ScanDigits(rest, n)
  {
    var d := DigitChar(n % 10);
    if n < 10 {
      assert (Digits(n) + rest)[1..] == rest;
    } else {
      assert Digits(n) + rest == Digits(n / 10) + ([d] + rest);
      ScanOfDigits(n / 10, [d] + rest);
      assert ([d] + rest)[1..] == rest;
    }
  }

  lemma {:induction false} DropOfDigits(n: nat, rest: string)
    requires rest == "" || !IsDigit(rest[0])
    ensures DropDigits(Digits(n) + rest) == rest
  {
    DigitsShape(n);
    DropAll(Digits(n), rest);
  }

  lemma {:induction false} DropAll(d: string, rest: string)
    requires (forall c :: c in d ==> IsDigit(c)) && (rest == "" || !IsDigit(rest[0]))
    ensures DropDigits(d + rest) == rest
    decreases |d|
  {
    if d == "" {
      assert d + rest == rest;
    } else {
      assert (d + rest)[1..] == d[1..] + rest && d[0] in d;
      DropAll(d[1..], rest);
    }
  }

  lemma {:induction false} SkipBlanks(n: nat, s: string)
    requires s == [] || !IsSpace(s[0])
    ensures SkipSpaces(Blanks(n) + s) == s
  {
    if n == 0 {
      assert Blanks(n) + s == s;
    } else {
      assert (Blanks(n) + s)[1..] == Blanks(n - 1) + s;
      SkipBlanks(n - 1, s);
    }
  }

  /** atol reads back a printed number, whatever blanks precede it and whatever non-digit follows. */
  lemma AtolOfDigits(k: nat, n: nat, rest: string)
    requires rest == [] || !IsDigit(rest[0])
    ensures Atol(Blanks(k) + Digits(n) + rest) == n
  {
    var t := Digits(n) + rest;
    DigitsShape(n);
    assert t[0] in Digits(n);
    assert Blanks(k) + Digits(n) + rest == Blanks(k) + t;
    SkipBlanks(k, t);
    ScanOfDigits(n, rest);
  }

  lemma {:induction false} CStringWhole(s: string)
    requires NUL !in s
    ensures CString(s) == s
  {
    if s != [] {
      assert s[0] in s;
      assert forall c :: c in s[1..] ==> c in s;
      CStringWhole(s[1..]);
    }
  }

  lemma CutLastSnoc(s: string, c: char)
    ensures CutLast(s + [c]) ==
            if c == SEP then Cut(s, [])
            else match CutLast(s)
              case NoSep => NoSep
              case Cut(l, r) => Cut(l, r + [c])
  {
    assert (s + [c])[..|s|] == s;
  }

  lemma {:induction false} CutLastAt(a: string, b: string)
    requires SEP !in b
    ensures CutLast(a + [SEP] + b) == Cut(a, b)
  {
    hide CutLast;
    if b == [] {
      CutLastSnoc(a, SEP);
      assert a + [SEP] + b == a + [SEP];
    } else {
      var n := |b| - 1;
      var b', c := b[..n], b[n];
      assert c in b && forall x :: x in b' ==> x in b;
      CutLastAt(a, b');
      CutLastSnoc(a + [SEP] + b', c);
      assert b == b' + [c];
      assert a + [SEP] + b == a + [SEP] + b' + [c];
    }
  }
}
