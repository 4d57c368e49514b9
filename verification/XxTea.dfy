/**
 * The block mixer of src/tools/OtherFunc.cpp: a string packed into 32-bit words, mixed in place by rounds
 * over neighbouring words, and printed in hexadecimal. The mixing has an inverse for every key and every
 * number of rounds, so the whole encoding loses nothing.
 */
module XxTea {
  type word = bv32

  const DELTA: word := 2654435769

  // ---------------------------------------------------------------- packing

  function Pack(a: bv8, b: bv8, c: bv8, d: bv8): word {
    (a as word) | ((b as word) << 8) | ((c as word) << 16) | ((d as word) << 24)
  }

  function ByteOf(w: word, i: nat): bv8 {
    if i == 0 then (w & 0xff) as bv8
    else if i == 1 then ((w >> 8) & 0xff) as bv8
    else if i == 2 then ((w >> 16) & 0xff) as bv8
    else ((w >> 24) & 0xff) as bv8
  }

  lemma PackBytes(a: bv8, b: bv8, c: bv8, d: bv8)
    ensures var w := Pack(a, b, c, d);
            ByteOf(w, 0) == a && ByteOf(w, 1) == b && ByteOf(w, 2) == c && ByteOf(w, 3) == d
  {
  }

  /** s is a C string of length len in memory; packing may read up to two bytes past its terminator. */
  predicate CStr(s: seq<bv8>, len: nat) {
    len + 3 <= |s| && s[len] == 0 && 0 !in s[..len]
  }

  function LengthWord(len: nat): word
    requires len < 0x8000_0000
  {
    len as word
  }

  function PackFrom(s: seq<bv8>, len: nat, i: nat): (v: seq<word>)
    requires CStr(s, len)
    ensures |v| == if i < len then (len - i + 3) / 4 else 0
    decreases len + 4 - i
  {
    if i >= len then []
    else [Pack(s[i], s[i + 1], s[i + 2], s[i + 3])] + PackFrom(s, len, i + 4)
  }

  /** sl */
  method Sl(s: seq<bv8>, len: nat, w: bool) returns (v: seq<word>)
    requires CStr(s, len) && len < 0x8000_0000
    ensures v == PackFrom(s, len, 0) + if w then [LengthWord(len)] else []
  {
    hide Pack;
    v := [];
    var i := 0;
    while i < len
      invariant 0 <= i < len + 4 && v + PackFrom(s, len, i) == PackFrom(s, len, 0)
      decreases len - i
    {
      v := v + [Pack(s[i], s[i + 1], s[i + 2], s[i + 3])];
      i := i + 4;
    }
    if w {
      v := v + [LengthWord(len)];
    }
  }

  // ---------------------------------------------------------------- mixing

  /** The key word for position p in a round with selector e: index (p & 3) ^ e. */
  function KeyAt(k: seq<word>, p: nat, e: word): word
    requires |k| >= 4
  {
    var x := (if p % 4 == 0 then 0 else if p % 4 == 1 then 1 else if p % 4 == 2 then 2 else 3) ^ e;
    if x == 0 then k[0] else if x == 1 then k[1] else if x == 2 then k[2] else k[3]
  }

  function Mx(z: word, y: word, sum: word, kw: word): word {
    (((z >> 5) ^ (y << 2)) + ((y >> 3) ^ (z << 4))) ^ ((sum ^ y) + (kw ^ z))
  }

  function Selector(sum: word): word { (sum >> 2) & 3 }

  function Plus(a: word, b: word): word { a + b }

  function Minus(a: word, b: word): word { a - b }

  function Before(p: nat, n: nat): (r: nat)
    requires p < n && n >= 2
    ensures r < n && r != p
  {
    if p == 0 then n - 1 else p - 1
  }

  function After(p: nat, n: nat): (r: nat)
    requires p < n && n >= 2
    ensures r < n && r != p
  {
    if p == n - 1 then 0 else p + 1
  }

  /** What is added to word p: it depends on its two neighbours, not on the word itself. */
  function MixAt(v: seq<word>, p: nat, sum: word, k: seq<word>): word
    requires |v| >= 2 && |k| >= 4 && p < |v|
  {
    Mx(v[Before(p, |v|)], v[After(p, |v|)], sum, KeyAt(k, p, Selector(sum)))
  }

  function Step(v: seq<word>, p: nat, sum: word, k: seq<word>): (r: seq<word>)
    requires |v| >= 2 && |k| >= 4 && p < |v|
    ensures |r| == |v|
  {
    v[p := Plus(v[p], MixAt(v, p, sum, k))]
  }

  /** The first p steps of a round. */
  function Pass(v: seq<word>, sum: word, k: seq<word>, p: nat): (r: seq<word>)
    requires |v| >= 2 && |k| >= 4 && p <= |v|
    ensures |r| == |v|
  {
    if p == 0 then v else Step(Pass(v, sum, k, p - 1), p - 1, sum, k)
  }

  function SumAt(q: nat): word {
    if q == 0 then 0 else Plus(SumAt(q - 1), DELTA)
  }

  function Rounds(v: seq<word>, k: seq<word>, q: nat): (r: seq<word>)
    requires |v| >= 2 && |k| >= 4
    ensures |r| == |v|
  {
    if q == 0 then v else Pass(Rounds(v, k, q - 1), SumAt(q), k, |v|)
  }

  function RoundCount(n: nat): nat
    requires n > 0
  {
    6 + 52 / n
  }

  /** One word of the mix. */
  lemma MxExample()
    ensures Mx(0x12345678, 0x9abcdef0, 0x9e3779b9, 0x0f1e2d3c) == 0xbbc3f75c
  {
  }

  /** "abcd" with its length, mixed for one round under the key "0123456789abcdef". */
  lemma RoundExample()
    ensures Rounds([0x64636261, 4], [0x33323130, 0x37363534, 0x62613938, 0x66656463], 1) == [0x64fc150a, 0x295258a1]
  {
    var k: seq<word> := [0x33323130, 0x37363534, 0x62613938, 0x66656463];
    var v: seq<word> := [0x64636261, 4];
    assert Rounds(v, k, 0) == v && SumAt(0) == 0 && SumAt(1) == 0x9e3779b9;
    assert Step(v, 0, 0x9e3779b9, k) == [0x64fc150a, 4];
    assert Step([0x64fc150a, 4], 1, 0x9e3779b9, k) == [0x64fc150a, 0x295258a1];
    assert Pass(v, 0x9e3779b9, k, 0) == v && Pass(v, 0x9e3779b9, k, 1) == [0x64fc150a, 4];
  }

  /** The mixing loops of en, in place. */
  method Mix(v: array<word>, k: seq<word>)
    requires v.Length >= 2 && |k| >= 4
    modifies v
    ensures v[..] == Rounds(old(v[..]), k, RoundCount(v.Length))
  {
    hide Mx, KeyAt, Selector, Plus;
    var n := v.Length - 1;
    var z, y := v[n], v[0];
    var q := 6 + 52 / (n + 1);
    var sum: word := 0;
    ghost var was, done := v[..], 0;
    while 0 < q
      invariant 0 <= q && q + done == RoundCount(v.Length)
      invariant sum == SumAt(done) && v[..] == Rounds(was, k, done) && z == v[n]
      decreases q
    {
      q := q - 1;
      sum := Plus(sum, DELTA);
      var e := Selector(sum);
      ghost var start := v[..];
      for p1 := 0 to n
        invariant v[..] == Pass(start, sum, k, p1)
        invariant z == if p1 == 0 then v[n] else v[p1 - 1]
      {
        y := v[p1 + 1];
        v[p1] := Plus(v[p1], Mx(z, y, sum, KeyAt(k, p1, e)));
        z := v[p1];
      }
      y := v[0];
      v[n] := Plus(v[n], Mx(z, y, sum, KeyAt(k, n, e)));
      z := v[n];
      done := done + 1;
    }
  }

  // ---------------------------------------------------------------- the inverse

  function UnStep(v: seq<word>, p: nat, sum: word, k: seq<word>): (r: seq<word>)
    requires |v| >= 2 && |k| >= 4 && p < |v|
    ensures |r| == |v|
  {
    v[p := Minus(v[p], MixAt(v, p, sum, k))]
  }

  /** Undo the first p steps of a round, last one first. */
  function UnPass(v: seq<word>, sum: word, k: seq<word>, p: nat): (r: seq<word>)
    requires |v| >= 2 && |k| >= 4 && p <= |v|
    ensures |r| == |v|
    decreases p
  {
    if p == 0 then v else UnPass(UnStep(v, p - 1, sum, k), sum, k, p - 1)
  }

  function UnRounds(v: seq<word>, k: seq<word>, q: nat): (r: seq<word>)
    requires |v| >= 2 && |k| >= 4
    ensures |r| == |v|
    decreases q
  {
    if q == 0 then v else UnRounds(UnPass(v, SumAt(q), k, |v|), k, q - 1)
  }

  lemma SubAdd(x: word, m: word)
    ensures Plus(x - m, m) == x && Minus(x + m, m) == x
  {
  }

  lemma PlusMinus(x: word, m: word)
    ensures Minus(Plus(x, m), m) == x
  {
    hide Minus;
    SubAdd(x, m);
  }

  lemma MinusPlus(x: word, m: word)
    ensures Plus(Minus(x, m), m) == x
  {
    hide Plus;
    SubAdd(x, m);
  }

  lemma StepBack(v: seq<word>, p: nat, sum: word, k: seq<word>)
    requires |v| >= 2 && |k| >= 4 && p < |v|
    ensures UnStep(Step(v, p, sum, k), p, sum, k) == v
    ensures Step(UnStep(v, p, sum, k), p, sum, k) == v
  {
    hide Mx, KeyAt, Selector, Plus, Minus;
    PlusMinus(v[p], MixAt(v, p, sum, k));
    MinusPlus(v[p], MixAt(v, p, sum, k));
  }

  lemma {:induction false} PassBack(v: seq<word>, sum: word, k: seq<word>, p: nat)
    requires |v| >= 2 && |k| >= 4 && p <= |v|
    ensures UnPass(Pass(v, sum, k, p), sum, k, p) == v
    ensures Pass(UnPass(v, sum, k, p), sum, k, p) == v
    decreases p
  {
    hide Step, UnStep;
    if p > 0 {
      PassBack(v, sum, k, p - 1);
      StepBack(Pass(v, sum, k, p - 1), p - 1, sum, k);
      PassBack(UnStep(v, p - 1, sum, k), sum, k, p - 1);
      StepBack(v, p - 1, sum, k);
    }
  }

  /** For every key and every number of rounds the mixing is a bijection on vectors of two or more words. */
  lemma {:induction false} RoundsBack(v: seq<word>, k: seq<word>, q: nat)
    requires |v| >= 2 && |k| >= 4
    ensures UnRounds(Rounds(v, k, q), k, q) == v
    ensures Rounds(UnRounds(v, k, q), k, q) == v
    decreases q
  {
    hide Pass, UnPass;
    if q > 0 {
      RoundsBack(v, k, q - 1);
      PassBack(Rounds(v, k, q - 1), SumAt(q), k, |v|);
      RoundsBack(UnPass(v, SumAt(q), k, |v|), k, q - 1);
      PassBack(v, SumAt(q), k, |v|);
    }
  }

  // ---------------------------------------------------------------- printing

  function HexChar(x: word): char {
    if x == 0 then '0' else if x == 1 then '1' else if x == 2 then '2' else if x == 3 then '3'
    else if x == 4 then '4' else if x == 5 then '5' else if x == 6 then '6' else if x == 7 then '7'
    else if x == 8 then '8' else if x == 9 then '9' else if x == 10 then 'a' else if x == 11 then 'b'
    else if x == 12 then 'c' else if x == 13 then 'd' else if x == 14 then 'e' else 'f'
  }

  /** The low and the high four bits of byte i of a word. */
  function Low(w: word, i: nat): word {
    if i == 0 then w & 0xf else if i == 1 then (w >> 8) & 0xf else if i == 2 then (w >> 16) & 0xf else (w >> 24) & 0xf
  }

  function High(w: word, i: nat): word {
    if i == 0 then (w >> 4) & 0xf else if i == 1 then (w >> 12) & 0xf
    else if i == 2 then (w >> 20) & 0xf else (w >> 28) & 0xf
  }

  /** The first n bytes of the words in hexadecimal, lowest byte of a word first. */
  function HexOf(v: seq<word>, n: nat): (s: string)
    requires n <= 4 * |v|
    ensures |s| == 2 * n
  {
    if n == 0 then ""
    else HexOf(v, n - 1) + [HexChar(High(v[(n - 1) / 4], (n - 1) % 4)), HexChar(Low(v[(n - 1) / 4], (n - 1) % 4))]
  }

  /** bh */
  method Bh(ar: array<word>) returns (str: string)
    ensures str == HexOf(ar[..], 4 * ar.Length)
  {
    hide High, Low, HexChar;
    str := "";
    for i := 0 to 4 * ar.Length
      invariant str == HexOf(ar[..], i)
    {
      str := str + [HexChar(High(ar[i / 4], i % 4))];
      str := str + [HexChar(Low(ar[i / 4], i % 4))];
    }
  }

  /** Digits in lower case, the lowest byte of a word first and its high digit before its low one. */
  lemma HexExample()
    ensures HexOf([0xb35cd2e1], 4) == "e1d25cb3"
  {
    var v: seq<word> := [0xb35cd2e1];
    assert HexOf(v, 1) == "e1" && HexOf(v, 2) == "e1d2" && HexOf(v, 3) == "e1d25c";
  }

  lemma HexCharOnce(x: word, y: word)
    requires x < 16 && y < 16 && HexChar(x) == HexChar(y)
    ensures x == y
  {
  }

  lemma NibbleSmall(w: word, i: nat)
    ensures Low(w, i) < 16 && High(w, i) < 16
  {
  }

  lemma NibblesAreWord(w: word, u: word)
    requires forall i :: 0 <= i < 4 ==> Low(w, i) == Low(u, i) && High(w, i) == High(u, i)
    ensures w == u
  {
    assert Low(w, 0) == Low(u, 0) && Low(w, 1) == Low(u, 1) && Low(w, 2) == Low(u, 2) && Low(w, 3) == Low(u, 3);
    assert High(w, 0) == High(u, 0) && High(w, 1) == High(u, 1) && High(w, 2) == High(u, 2) && High(w, 3) == High(u, 3);
  }

  lemma {:induction false} HexAt(v: seq<word>, n: nat, i: nat)
    requires i < n <= 4 * |v|
    ensures HexOf(v, n)[2 * i] == HexChar(High(v[i / 4], i % 4))
    ensures HexOf(v, n)[2 * i + 1] == HexChar(Low(v[i / 4], i % 4))
  {
    hide High, Low, HexChar;
    if i < n - 1 { HexAt(v, n - 1, i); }
  }

  lemma SameNibbles(v: seq<word>, u: seq<word>, a: nat, i: nat)
    requires |v| == |u| && a < |v| && i < 4 && HexOf(v, 4 * |v|) == HexOf(u, 4 * |u|)
    ensures Low(v[a], i) == Low(u[a], i) && High(v[a], i) == High(u[a], i)
  {
    hide High, Low, HexChar, HexOf;
    var j := 4 * a + i;
    assert j / 4 == a && j % 4 == i;
    HexAt(v, 4 * |v|, j);
    HexAt(u, 4 * |u|, j);
    NibbleSmall(v[a], i);
    NibbleSmall(u[a], i);
    HexCharOnce(Low(v[a], i), Low(u[a], i));
    HexCharOnce(High(v[a], i), High(u[a], i));
  }

  /** The hexadecimal text determines the words. */
  lemma HexOnce(v: seq<word>, u: seq<word>)
    requires HexOf(v, 4 * |v|) == HexOf(u, 4 * |u|)
    ensures v == u
  {
    hide High, Low, HexChar;
    assert |v| == |u|;
    forall a | 0 <= a < |v| ensures v[a] == u[a] {
      forall i | 0 <= i < 4 ensures Low(v[a], i) == Low(u[a], i) && High(v[a], i) == High(u[a], i) {
        SameNibbles(v, u, a, i);
      }
      NibblesAreWord(v[a], u[a]);
    }
  }

  // ---------------------------------------------------------------- the whole encoding

  /** The string packed into words, its length last. */
  function Words(s: seq<bv8>, len: nat): seq<word>
    requires CStr(s, len) && len < 0x8000_0000
  {
    PackFrom(s, len, 0) + [LengthWord(len)]
  }

  function Encoded(s: seq<bv8>, len: nat, k: seq<word>): string
    requires CStr(s, len) && len < 0x8000_0000 && |k| >= 4
  {
    if len == 0 then ""
    else
      var v := Words(s, len);
      HexOf(Rounds(v, k, RoundCount(|v|)), 4 * |v|)
  }

  /** en */
  method En(p: seq<bv8>, plen: nat, key: seq<bv8>, klen: nat) returns (r: string)
    requires CStr(p, plen) && plen < 0x8000_0000 && CStr(key, klen) && 13 <= klen < 0x8000_0000
    ensures r == Encoded(p, plen, PackFrom(key, klen, 0))
  {
    hide Rounds, HexOf, PackFrom, LengthWord, RoundCount;
    assert plen > 0 ==> p[0] in p[..plen];
    if p[0] == 0 {
      return "";
    }
    var words := Sl(p, plen, true);
    var k := Sl(key, klen, false);
    var v := new word[|words|](i requires 0 <= i < |words| => words[i]);
    assert v[..] == words && k == PackFrom(key, klen, 0);
    Mix(v, k);
    r := Bh(v);
  }

  lemma {:induction false} PackedAt(s: seq<bv8>, len: nat, i: nat, a: nat)
    requires CStr(s, len) && a < |PackFrom(s, len, i)|
    ensures i + 4 * a < len
    ensures var j := i + 4 * a; PackFrom(s, len, i)[a] == Pack(s[j], s[j + 1], s[j + 2], s[j + 3])
    decreases a
  {
    hide Pack;
    if a > 0 { PackedAt(s, len, i + 4, a - 1); }
  }

  /** Byte j of memory is byte j % 4 of word j / 4. */
  lemma PackedByte(s: seq<bv8>, len: nat, j: nat)
    requires CStr(s, len) && j < 4 * |PackFrom(s, len, 0)|
    ensures j < |s| && ByteOf(PackFrom(s, len, 0)[j / 4], j % 4) == s[j]
  {
    var a := j / 4;
    PackedAt(s, len, 0, a);
    PackBytes(s[4 * a], s[4 * a + 1], s[4 * a + 2], s[4 * a + 3]);
    hide Pack, ByteOf, PackFrom;
    assert j == 4 * a + j % 4;
    assert j % 4 == 0 || j % 4 == 1 || j % 4 == 2 || j % 4 == 3;
  }

  lemma NotShorter(s: seq<bv8>, len: nat, t: seq<bv8>, len': nat)
    requires CStr(s, len) && CStr(t, len') && PackFrom(s, len, 0) == PackFrom(t, len', 0)
    ensures len >= len'
  {
    assert forall j :: 0 <= j < len' ==> t[j] in t[..len'];
    if len < len' {
      PackedByte(s, len, len);
      PackedByte(t, len', len);
    }
  }

  /** The words before the length word determine the string, whatever lies in memory after it. */
  lemma PackedOnce(s: seq<bv8>, len: nat, t: seq<bv8>, len': nat)
    requires CStr(s, len) && CStr(t, len') && PackFrom(s, len, 0) == PackFrom(t, len', 0)
    ensures len == len' && s[..len] == t[..len]
  {
    NotShorter(s, len, t, len');
    NotShorter(t, len', s, len);
    forall j | 0 <= j < len ensures s[j] == t[j] {
      PackedByte(s, len, j);
      PackedByte(t, len, j);
    }
  }

  /** Under one key, equal encodings come from equal strings: nothing of the password is lost. */
  lemma EncodedOnce(s: seq<bv8>, len: nat, t: seq<bv8>, len': nat, k: seq<word>)
    requires CStr(s, len) && CStr(t, len') && len < 0x8000_0000 && len' < 0x8000_0000 && |k| >= 4
    requires Encoded(s, len, k) == Encoded(t, len', k)
    ensures len == len' && s[..len] == t[..len]
  {
    hide Rounds, UnRounds, HexOf, PackFrom, CStr, LengthWord, RoundCount;
    if len > 0 && len' > 0 {
      var v, u := Words(s, len), Words(t, len');
      var q := RoundCount(|v|);
      HexOnce(Rounds(v, k, q), Rounds(u, k, RoundCount(|u|)));
      assert |v| == |u|;
      RoundsBack(v, k, q);
      RoundsBack(u, k, q);
      assert v[..|v| - 1] == PackFrom(s, len, 0) && u[..|u| - 1] == PackFrom(t, len', 0);
      PackedOnce(s, len, t, len');
    }
  }
}
