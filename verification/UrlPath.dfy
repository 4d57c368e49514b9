/**
 * Path normalisation of src/tools/Url.cpp: loops that rewrite a string until "//", "/./", "/../" and "%7E" are
 * gone from it. A path is a list of segments; the loops evaluate the segments on a stack, as section 5.2.4 of
 * RFC 3986 asks, with one exact exception for a last segment "." or "..".
 */
module UrlPath {
  // ---------------------------------------------------------------- string searching

  const NPOS: nat := 0xFFFF_FFFF_FFFF_FFFF

  /** What std::string can hold, with room to spare. */
  const MAX_SIZE: nat := 0x4000_0000_0000_0000

  predicate Occ(s: string, i: nat, w: string) {
    i + |w| <= |s| && s[i..i + |w|] == w
  }

  /** std::string::find */
  function Find(s: string, w: string, from: nat): (r: nat)
    requires from <= |s| < NPOS
    ensures r == NPOS || (from <= r <= |s| && Occ(s, r, w))
    ensures forall i :: from <= i < r && i <= |s| ==> !Occ(s, i, w)
    decreases |s| - from
  {
    if Occ(s, from, w) then from
    else if from == |s| then NPOS
    else Find(s, w, from + 1)
  }

  /** std::string::find_last_of for one character, from position i backwards. */
  function FindLast(s: string, c: char, i: nat): (r: nat)
    requires i < |s| < NPOS
    ensures r == NPOS || (r <= i && s[r] == c)
    ensures forall j :: 0 <= j <= i && (r == NPOS || j > r) ==> s[j] != c
  {
    if s[i] == c then i else if i == 0 then NPOS else FindLast(s, c, i - 1)
  }

  // ---------------------------------------------------------------- segments

  type Segs = seq<string>

  /** The text of a path: every segment after its slash. */
  function Text(p: Segs): string {
    if p == [] then "" else "/" + p[0] + Text(p[1..])
  }

  predicate CleanSeg(w: string) {
    forall i :: 0 <= i < |w| ==> w[i] != '/' && w[i] != '?'
  }

  predicate Clean(p: Segs) {
    forall k :: 0 <= k < |p| ==> CleanSeg(p[k])
  }

  /** Nothing, or the query with its question mark. */
  predicate QueryOk(q: string) { q == "" || q[0] == '?' }

  /** Does w match at the first segment: exactly and before another one, or, open, as a prefix? */
  predicate Matches(p: Segs, w: string, closed: bool) {
    p != [] && if closed then |p| > 1 && p[0] == w else w <= p[0]
  }

  function Pattern(w: string, closed: bool): string {
    "/" + w + if closed then "/" else ""
  }

  /** Index of the first match, or the number of segments. */
  function First(p: Segs, w: string, closed: bool): (k: nat)
    ensures k <= |p|
    ensures k < |p| ==> if closed then k < |p| - 1 && p[k] == w else w <= p[k]
    ensures forall j :: 0 <= j < k ==> if closed then j < |p| - 1 ==> p[j] != w else !(w <= p[j])
  {
    if p == [] then 0
    else if Matches(p, w, closed) then 0
    else 1 + First(p[1..], w, closed)
  }

  /** Where segment k begins, at its slash. */
  function Pos(p: Segs, k: nat): nat
    requires k <= |p|
  {
    if k == 0 then 0 else 1 + |p[0]| + Pos(p[1..], k - 1)
  }

  lemma PrefixOf(a: string, t: string, w: string, closed: bool)
    requires CleanSeg(a) && CleanSeg(w) && (t == "" || t[0] == '/' || t[0] == '?')
    ensures w + (if closed then "/" else "") <= a + t <==>
              if closed then a == w && t != "" && t[0] == '/' else w <= a
  {
    var v := w + if closed then "/" else "";
    assert |w| > |a| && t != "" ==> (a + t)[|a|] == t[0] && v[|a|] == w[|a|];
    assert |w| < |a| && closed ==> v[|w|] == '/' && (a + t)[|w|] == a[|w|];
    assert |w| <= |a| ==> (a + t)[..|w|] == a[..|w|];
    assert |v| <= |a + t| ==> (v <= a + t <==> forall n :: 0 <= n < |v| ==> (a + t)[n] == v[n]);
    assert forall n :: 0 <= n < |w| ==> v[n] == w[n];
    assert |w| <= |a| && w == a[..|w|] && !closed ==> v == (a + t)[..|v|];
    assert a == w && closed && t != "" && t[0] == '/' ==> v == (a + t)[..|v|];
    assert |v| <= |a + t| && v <= a + t && |w| <= |a| ==> w == a[..|w|];
  }

  lemma ShiftOcc(h: string, t: string, j: nat, w: string)
    ensures Occ(h + t, |h| + j, w) <==> Occ(t, j, w)
  {
    if |h| + j + |w| <= |h + t| {
      assert (h + t)[|h| + j..|h| + j + |w|] == t[j..j + |w|];
    }
  }

  lemma StartOcc(t: string, v: string)
    ensures Occ("/" + t, 0, "/" + v) <==> v <= t
  {
    assert |v| <= |t| ==> ("/" + t)[0..1 + |v|] == "/" + t[..|v|];
    assert |v| <= |t| && "/" + v == "/" + t[..|v|] ==> ("/" + v)[1..] == v && ("/" + t[..|v|])[1..] == t[..|v|];
  }

  lemma CleanHead(p: Segs)
    requires Clean(p) && p != []
    ensures CleanSeg(p[0]) && Clean(p[1..])
  {
  }

  lemma TextStart(p: Segs)
    ensures if p == [] then Text(p) == "" else Text(p) != "" && Text(p)[0] == '/'
  {
  }

  lemma TextStep(p: Segs)
    requires p != []
    ensures Text(p) == "/" + p[0] + Text(p[1..])
  {
  }

  lemma OccHere(p: Segs, q: string, w: string, closed: bool)
    requires Clean(p) && QueryOk(q) && CleanSeg(w) && p != []
    ensures Occ(Text(p) + q, 0, Pattern(w, closed)) <==> Matches(p, w, closed)
  {
    hide Occ, Clean, CleanSeg, Text;
    var a, t := p[0], Text(p[1..]) + q;
    var v := w + if closed then "/" else "";
    CleanHead(p);
    TextStart(p[1..]);
    PrefixOf(a, t, w, closed);
    StartOcc(a + t, v);
    TextStep(p);
    assert Text(p) + q == "/" + (a + t) && Pattern(w, closed) == "/" + v;
  }

  lemma NotInside(p: Segs, q: string, w: string, closed: bool, i: nat)
    requires Clean(p) && p != [] && 0 < i <= |p[0]|
    ensures !Occ(Text(p) + q, i, Pattern(w, closed))
  {
    var s := Text(p) + q;
    assert s[i] == p[0][i - 1];
    assert Pattern(w, closed)[0] == '/';
    assert i + |Pattern(w, closed)| <= |s| ==> s[i..i + |Pattern(w, closed)|][0] == s[i];
  }

  lemma OccLater(p: Segs, q: string, v: string, i: nat)
    requires p != [] && i > |p[0]|
    ensures Occ(Text(p) + q, i, v) <==> Occ(Text(p[1..]) + q, i - 1 - |p[0]|, v)
  {
    hide Text, Occ;
    TextStep(p);
    var h, t := "/" + p[0], Text(p[1..]) + q;
    assert Text(p) + q == h + t;
    ShiftOcc(h, t, i - 1 - |p[0]|, v);
  }

  /** At a place of the path text the pattern occurs exactly when a matching segment begins there. */
  lemma {:induction false} OccFirst(p: Segs, q: string, w: string, closed: bool, i: nat)
    requires Clean(p) && QueryOk(q) && CleanSeg(w) && i < |Text(p)|
    ensures i < Pos(p, First(p, w, closed)) ==> !Occ(Text(p) + q, i, Pattern(w, closed))
    ensures First(p, w, closed) < |p| && i == Pos(p, First(p, w, closed)) ==> Occ(Text(p) + q, i, Pattern(w, closed))
    decreases p
  {
    hide Occ, Matches, Pattern, QueryOk;
    if i == 0 {
      OccHere(p, q, w, closed);
    } else if i <= |p[0]| {
      NotInside(p, q, w, closed, i);
    } else {
      OccLater(p, q, Pattern(w, closed), i);
      OccFirst(p[1..], q, w, closed, i - 1 - |p[0]|);
    }
  }

  lemma {:induction false} PosInside(p: Segs, k: nat)
    requires k <= |p|
    ensures k < |p| ==> Pos(p, k) < |Text(p)|
    ensures k == |p| ==> Pos(p, k) == |Text(p)|
    decreases k
  {
    if k > 0 { PosInside(p[1..], k - 1); }
  }

  /** Searching for a pattern finds the first matching segment, or nothing before the query. */
  lemma FindIsFirst(p: Segs, q: string, w: string, closed: bool)
    requires Clean(p) && QueryOk(q) && CleanSeg(w) && |Text(p) + q| < MAX_SIZE
    ensures var k := First(p, w, closed);
            var i := Find(Text(p) + q, Pattern(w, closed), 0);
            if k < |p| then i == Pos(p, k) < |Text(p)| else i >= |Text(p)| && (q == "" ==> i == NPOS)
  {
    var k := First(p, w, closed);
    var s := Text(p) + q;
    var i := Find(s, Pattern(w, closed), 0);
    PosInside(p, k);
    assert i != NPOS ==> i + 1 <= |s|;
    hide Occ, Find;
    if i < |Text(p)| { OccFirst(p, q, w, closed, i); }
    if k < |p| { OccFirst(p, q, w, closed, Pos(p, k)); }
  }

  // ---------------------------------------------------------------- cutting the text

  lemma {:induction false} TextJoin(a: Segs, b: Segs)
    ensures Text(a + b) == Text(a) + Text(b)
    decreases a
  {
    if a == [] {
      assert a + b == b;
    } else {
      assert (a + b)[1..] == a[1..] + b;
      TextJoin(a[1..], b);
    }
  }

  lemma {:induction false} PosIsLength(p: Segs, k: nat)
    requires k <= |p|
    ensures Pos(p, k) == |Text(p[..k])|
    decreases k
  {
    if k > 0 {
      assert p[..k][1..] == p[1..][..k - 1];
      PosIsLength(p[1..], k - 1);
    }
  }

  lemma Pieces(h: string, m: string, t: string)
    ensures var s := h + "/" + m + t;
            && s[|h|] == '/' && s[..|h|] == h && s[|h| + 1..|h| + 1 + |m|] == m && s[|h| + 1 + |m|..] == t
  {
  }

  lemma CutText(p: Segs, k: nat)
    requires k < |p|
    ensures Text(p) == Text(p[..k]) + "/" + p[k] + Text(p[k + 1..])
  {
    hide Text;
    assert p == p[..k] + p[k..] && p[k..][1..] == p[k + 1..];
    TextJoin(p[..k], p[k..]);
    TextStep(p[k..]);
    assert Text(p[..k]) + ("/" + p[k] + Text(p[k + 1..])) == Text(p[..k]) + "/" + p[k] + Text(p[k + 1..]);
  }

  /** The text before segment k and the text after it. */
  lemma Cut(p: Segs, q: string, k: nat)
    requires k < |p|
    ensures var i := Pos(p, k);
            var s := Text(p) + q;
            && i + 1 + |p[k]| <= |Text(p)| && s[i] == '/'
            && s[..i] == Text(p[..k]) && s[i + 1..i + 1 + |p[k]|] == p[k]
            && s[i + 1 + |p[k]|..] == Text(p[k + 1..]) + q
  {
    hide Text, Pos;
    PosIsLength(p, k);
    CutText(p, k);
    var h, t := Text(p[..k]), Text(p[k + 1..]) + q;
    Pieces(h, p[k], t);
    assert Text(p) + q == h + "/" + p[k] + t;
  }

  /** The slash before that of segment k is that of segment k - 1. */
  lemma SlashBefore(p: Segs, q: string, k: nat)
    requires Clean(p) && 0 < k < |p| && |Text(p) + q| < MAX_SIZE
    ensures 0 < Pos(p, k) <= |Text(p)|
    ensures FindLast(Text(p) + q, '/', Pos(p, k) - 1) == Pos(p, k - 1)
  {
    hide Text, Pos;
    Cut(p, q, k);
    Cut(p, q, k - 1);
    var s := Text(p) + q;
    PosNext(p, k - 1);
    assert CleanSeg(p[k - 1]);
    assert forall j :: Pos(p, k - 1) < j < Pos(p, k) ==> s[j] == p[k - 1][j - 1 - Pos(p, k - 1)];
  }

  lemma {:induction false} PosNext(p: Segs, k: nat)
    requires k < |p|
    ensures Pos(p, k + 1) == Pos(p, k) + 1 + |p[k]|
    decreases k
  {
    if k > 0 { PosNext(p[1..], k - 1); }
  }

  lemma {:induction false} NoQuery(p: Segs)
    requires Clean(p)
    ensures forall i :: 0 <= i < |Text(p)| ==> Text(p)[i] != '?'
    decreases p
  {
    if p != [] {
      NoQuery(p[1..]);
      assert Clean(p[1..]);
    }
  }

  /** Where the search for the question mark ends up. */
  lemma FindMark(t: string, q: string)
    requires '?' !in t && QueryOk(q) && |t + q| < MAX_SIZE
    ensures Find(t + q, "?", 0) == if q == "" then NPOS else |t|
  {
    var s := t + q;
    forall j | 0 <= j <= |s| ensures Occ(s, j, "?") <==> j < |s| && s[j] == '?' {
      if j < |s| { assert s[j..j + 1] == [s[j]]; }
    }
    hide Occ;
    assert q != "" ==> s[|t|] == '?';
  }

  lemma FindQuery(p: Segs, q: string)
    requires Clean(p) && QueryOk(q) && |Text(p) + q| < MAX_SIZE
    ensures Find(Text(p) + q, "?", 0) == if q == "" then NPOS else |Text(p)|
  {
    NoQuery(p);
    FindMark(Text(p), q);
  }

  // ---------------------------------------------------------------- evaluating the segments

  function Remove(p: Segs, k: nat): (r: Segs)
    requires k < |p|
    ensures |r| == |p| - 1
  {
    p[..k] + p[k + 1..]
  }

  /** p without the segments w before the last one. */
  function Without(p: Segs, w: string): (r: Segs)
    ensures |r| <= |p| && (p != [] ==> r != [] && r[|r| - 1] == p[|p| - 1])
  {
    if |p| <= 1 then p
    else if p[0] == w then Without(p[1..], w)
    else [p[0]] + Without(p[1..], w)
  }

  function Pop(st: Segs): Segs { if st == [] then [] else st[..|st| - 1] }

  /** A segment before the last is dropped, pops the stack, or is pushed. */
  function Pushed(st: Segs, w: string): Segs {
    if w == "" || w == "." then st else if w == ".." then Pop(st) else st + [w]
  }

  /** Evaluation on a stack. */
  function Resolve(st: Segs, p: Segs): (r: Segs)
    requires p != []
    ensures r != [] && r[|r| - 1] == p[|p| - 1]
    decreases |p|
  {
    if |p| == 1 then st + p else Resolve(Pushed(st, p[0]), p[1..])
  }

  /** A last segment "." or "..", resolved, leaves a closing slash. */
  function Finish(r: Segs): (f: Segs)
    requires r != []
  {
    var n := |r| - 1;
    if r[n] == "." then r[..n] + [""]
    else if r[n] == ".." then Pop(r[..n]) + [""]
    else r
  }

  /** The dot segments removed, as section 5.2.4 of RFC 3986 has it, and empty ones with them. */
  function Eval(p: Segs): Segs
    requires p != []
  {
    Finish(Resolve([], p))
  }

  predicate NoneInside(p: Segs, w: string) { First(p, w, true) == |p| }

  lemma WithoutStep(a: string, p: Segs, w: string)
    requires p != []
    ensures Without([a] + p, w) == if a == w then Without(p, w) else [a] + Without(p, w)
    ensures First([a] + p, w, true) == if a == w then 0 else 1 + First(p, w, true)
  {
    assert ([a] + p)[1..] == p;
  }

  lemma WithoutOne(p: Segs, w: string)
    requires |p| <= 1
    ensures First(p, w, true) == |p| && Without(p, w) == p
  {
  }

  lemma RemoveStep(a: string, p: Segs, k: nat)
    requires k < |p|
    ensures Remove([a] + p, k + 1) == [a] + Remove(p, k) && Remove([a] + p, 0) == p
  {
  }

  lemma {:induction false} WithoutFirst(p: Segs, w: string)
    ensures var k := First(p, w, true);
            if k == |p| then Without(p, w) == p else Without(Remove(p, k), w) == Without(p, w)
    decreases |p|
  {
    hide First, Without, Remove;
    if |p| <= 1 {
      WithoutOne(p, w);
    } else {
      var a, rest := p[0], p[1..];
      assert p == [a] + rest;
      WithoutFirst(rest, w);
      WithoutStep(a, rest, w);
      RemoveStep(a, rest, 0);
      var k := First(rest, w, true);
      if a != w && k < |rest| {
        RemoveStep(a, rest, k);
        WithoutStep(a, Remove(rest, k), w);
      }
    }
  }

  lemma {:induction false} WithoutKeepsOther(p: Segs, w: string, v: string)
    requires NoneInside(p, v)
    ensures NoneInside(Without(p, w), v)
    decreases p
  {
    if |p| > 1 {
      WithoutKeepsOther(p[1..], w, v);
    }
  }

  /** Empty and "." segments make no difference to the evaluation. */
  lemma {:induction false} ResolveWithout(st: Segs, p: Segs, w: string)
    requires p != [] && (w == "" || w == ".")
    ensures Resolve(st, Without(p, w)) == Resolve(st, p)
    decreases |p|
  {
    if |p| > 1 {
      ResolveWithout(Pushed(st, p[0]), p[1..], w);
      assert p[0] != w ==> Without(p, w)[1..] == Without(p[1..], w);
    }
  }

  /** Segments that are not dots and not empty are pushed. */
  lemma {:induction false} ResolvePlain(st: Segs, a: Segs, p: Segs)
    requires p != [] && forall k :: 0 <= k < |a| ==> a[k] != "" && a[k] != "." && a[k] != ".."
    ensures Resolve(st, a + p) == Resolve(st + a, p)
    decreases a
  {
    if a == [] {
      assert a + p == p && st + a == st;
    } else {
      assert (a + p)[1..] == a[1..] + p;
      assert st + [a[0]] + a[1..] == st + a;
      ResolvePlain(st + [a[0]], a[1..], p);
    }
  }

  /** One round of the third loop, on segments. */
  function PopAt(p: Segs, k: nat): (r: Segs)
    requires k < |p|
    ensures |r| < |p| && (k < |p| - 1 ==> r != [])
  {
    if k == 0 then p[1..] else p[..k - 1] + p[k + 1..]
  }

  lemma NoneMeans(p: Segs, w: string)
    ensures NoneInside(p, w) <==> forall j :: 0 <= j < |p| - 1 ==> p[j] != w
  {
    hide Matches;
  }

  lemma NoneInPopAt(p: Segs, k: nat, w: string)
    requires NoneInside(p, w) && k < |p| - 1
    ensures NoneInside(PopAt(p, k), w)
  {
    NoneMeans(p, w);
    NoneMeans(PopAt(p, k), w);
    hide NoneInside;
    assert k > 0 ==> forall j :: 0 <= j < |p| - 2 ==> PopAt(p, k)[j] == p[if j < k - 1 then j else j + 2];
  }

  lemma ResolveDots(st: Segs, p: Segs)
    requires |p| > 1 && p[0] == ".."
    ensures Resolve(st, p) == Resolve(Pop(st), p[1..])
  {
    assert Pushed(st, p[0]) == Pop(st);
  }

  /** The first ".." and the segment before it, both taken out, evaluate alike. */
  lemma ResolvePopped(p: Segs, k: nat)
    requires 0 < k < |p| - 1 && p[k] == ".."
    requires forall j :: 0 <= j < k ==> p[j] != "" && p[j] != "." && p[j] != ".."
    ensures Resolve([], PopAt(p, k)) == Resolve([], p)
  {
    hide Resolve;
    var a, b := p[..k], p[k..];
    assert p == a + b && [] + a == a && b[0] == ".." && b[1..] == p[k + 1..];
    assert Pop(a) == p[..k - 1] && [] + p[..k - 1] == p[..k - 1];
    ResolvePlain([], a, b);
    ResolveDots(a, b);
    ResolvePlain([], p[..k - 1], p[k + 1..]);
  }

  lemma ResolveAllPlain(p: Segs)
    requires p != [] && NoneInside(p, "") && NoneInside(p, ".") && NoneInside(p, "..")
    ensures Resolve([], p) == p
  {
    var n := |p| - 1;
    NoneMeans(p, "");
    NoneMeans(p, ".");
    NoneMeans(p, "..");
    hide First, NoneInside;
    assert p == p[..n] + p[n..] && [] + p[..n] == p[..n];
    ResolvePlain([], p[..n], p[n..]);
  }

  lemma ResolvePopAt(p: Segs)
    requires NoneInside(p, "") && NoneInside(p, ".") && p != [] && !NoneInside(p, "..")
    ensures var k := First(p, "..", true);
            && k < |p| - 1 && Resolve([], PopAt(p, k)) == Resolve([], p)
            && NoneInside(PopAt(p, k), "") && NoneInside(PopAt(p, k), ".")
  {
    var k := First(p, "..", true);
    NoneMeans(p, "");
    NoneMeans(p, ".");
    NoneInPopAt(p, k, "");
    NoneInPopAt(p, k, ".");
    if k > 0 { ResolvePopped(p, k); }
  }

  // ---------------------------------------------------------------- decoding

  const TILDE := "%7E"

  /** Every "%7E" read as "~". */
  function Decode(s: string): (r: string)
    ensures |r| <= |s|
    decreases |s|
  {
    if s == "" then ""
    else if Occ(s, 0, TILDE) then "~" + Decode(s[3..])
    else [s[0]] + Decode(s[1..])
  }

  lemma {:induction false} DecodePrefix(a: string, b: string)
    requires forall j :: 0 <= j < |a| ==> !Occ(a + b, j, TILDE)
    ensures Decode(a + b) == a + Decode(b)
    decreases |a|
  {
    if a == "" {
      assert a + b == b;
    } else {
      assert (a + b)[1..] == a[1..] + b;
      forall j | 0 <= j < |a| - 1 ensures !Occ(a[1..] + b, j, TILDE) {
        ShiftOcc(a[..1], a[1..] + b, j, TILDE);
        assert a[..1] + (a[1..] + b) == a + b;
      }
      DecodePrefix(a[1..], b);
    }
  }

  lemma DecodeStep(b: string)
    ensures Decode(TILDE + b) == "~" + Decode(b) && Decode("~" + b) == "~" + Decode(b)
  {
    assert (TILDE + b)[0..3] == TILDE && (TILDE + b)[3..] == b;
    assert ("~" + b)[1..] == b;
    assert |b| >= 2 ==> ("~" + b)[0..3][0] == '~';
  }

  /** Putting "~" for the first occurrence makes no new one before it. */
  lemma NoneBefore(a: string, b: string, j: nat)
    requires j < |a| && !Occ(a + (TILDE + b), j, TILDE)
    ensures !Occ(a + ("~" + b), j, TILDE)
  {
    var s, t := a + (TILDE + b), a + ("~" + b);
    if j + 3 <= |a| {
      assert t[j..j + 3] == s[j..j + 3];
    } else if j + 3 <= |t| {
      assert t[j..j + 3][|a| - j] == '~';
    }
  }

  /** Replacing the first "%7E" does not change what is decoded. */
  lemma DecodeFirst(t: string, i: nat)
    requires Occ(t, i, TILDE) && forall j :: 0 <= j < i ==> !Occ(t, j, TILDE)
    ensures Decode(t[..i] + "~" + t[i + 3..]) == Decode(t)
  {
    hide Decode;
    var a, b := t[..i], t[i + 3..];
    assert t == a + (TILDE + b);
    DecodePrefix(a, TILDE + b);
    DecodeStep(b);
    forall j | 0 <= j < |a| ensures !Occ(a + ("~" + b), j, TILDE) {
      NoneBefore(a, b, j);
    }
    DecodePrefix(a, "~" + b);
    assert a + "~" + b == a + ("~" + b);
  }

  lemma DecodeNothing(t: string)
    requires forall j :: 0 <= j < |t| ==> !Occ(t, j, TILDE)
    ensures Decode(t) == t
  {
    assert t + "" == t;
    DecodePrefix(t, "");
  }

  /** A pattern without "~" or '?' is found in a path with its query where it is found in the path alone. */
  lemma OccInPath(t: string, q: string, i: nat, w: string)
    requires QueryOk(q) && i < |t| && w != "" && '?' !in w
    ensures Occ(t + q, i, w) <==> Occ(t, i, w)
  {
    if i + |w| <= |t| {
      assert (t + q)[i..i + |w|] == t[i..i + |w|];
    } else if i + |w| <= |t + q| {
      assert (t + q)[i..i + |w|][|t| - i] == '?';
    }
  }

  // ---------------------------------------------------------------- the whole function, on segments

  /** What pathend holds: the end of the path, but npos once a path without a query has been rewritten. */
  function Ended(p: Segs, q: string, changed: bool): nat {
    if q == "" && changed then NPOS else |Text(p)|
  }

  /** The first segment that begins with w is the last one, and is w. */
  predicate EndsIn(p: Segs, w: string)
    requires p != []
  {
    First(p, w, false) == |p| - 1 && p[|p| - 1] == w
  }

  /** The rewriting of a final "." when pathend is where the path ends. */
  function FixDot(p: Segs): (r: Segs)
    requires p != []
    ensures r != []
  {
    if EndsIn(p, ".") then p[..|p| - 1] + [""] else p
  }

  function FixDotDot(p: Segs): (r: Segs)
    requires p != []
    ensures r != []
  {
    if EndsIn(p, "..") then Pop(p[..|p| - 1]) + [""] else p
  }

  /** The segments the four rewriting steps leave. */
  function Norm(p: Segs, query: bool): (r: Segs)
    requires p != []
    ensures r != []
  {
    var p1 := Without(Without(p, ""), ".");
    var p2 := if query || p1 == p then FixDot(p1) else p1;
    var p3 := Resolve([], p2);
    if query || (p1 == p && p3 == p2) then FixDotDot(p3) else p3
  }

  class CUrl {
    var m_sPath: string

    constructor (path: string)
      ensures m_sPath == path
    {
      m_sPath := path;
    }

    /** The first two loops: "//" with an empty w, "/./" with w ".". */
    method DropSegments(w: string, pathend: nat, ghost p: Segs, ghost q: string, ghost changed: bool) returns (end: nat)
      requires w == "" || w == "."
      requires m_sPath == Text(p) + q && p != [] && Clean(p) && QueryOk(q) && |m_sPath| < MAX_SIZE
      requires pathend == Ended(p, q, changed)
      modifies this
      ensures m_sPath == Text(Without(p, w)) + q && |m_sPath| <= old(|m_sPath|) && Clean(Without(p, w))
      ensures end == Ended(Without(p, w), q, changed || Without(p, w) != p)
    {
      hide Text, Without, First, Find, Pos, Clean, Remove, Occ, Ended, QueryOk;
      ghost var r := p;
      end := pathend;
      FindIsFirst(r, q, w, true);
      var i := Find(m_sPath, "/" + w + "/", 0);
      while i != NPOS && i < end
        invariant m_sPath == Text(r) + q && r != [] && Clean(r) && |m_sPath| <= old(|m_sPath|)
        invariant Without(r, w) == Without(p, w) && (r == p || |r| < |p|)
        invariant end == Ended(r, q, changed || r != p)
        invariant i == Find(m_sPath, Pattern(w, true), 0)
        decreases |r|
      {
        ghost var k := First(r, w, true);
        EndedBound(r, q, changed || r != p);
        RoundDrops(r, q, w);
        m_sPath := m_sPath[..i] + m_sPath[i + 1 + |w|..];
        r := Remove(r, k);
        FindQuery(r, q);
        EndedIs(r, q);
        end := Find(m_sPath, "?", 0);
        i := Find(m_sPath, "/" + w + "/", 0);
      }
      NoRound(r, q, w, changed || r != p);
    }

    /** A path that ends in its first "/." loses the dot, if pathend is where the path ends. */
    method DropDot(pathend: nat, ghost p: Segs, ghost q: string, ghost changed: bool) returns (end: nat)
      requires m_sPath == Text(p) + q && p != [] && Clean(p) && QueryOk(q) && |m_sPath| < MAX_SIZE
      requires pathend == Ended(p, q, changed)
      modifies this
      ensures var r := if q == "" && changed then p else FixDot(p);
              m_sPath == Text(r) + q && |m_sPath| <= old(|m_sPath|) && Clean(r) && end == Ended(r, q, changed)
    {
      hide Text, Find, Pos, Clean, Occ, First, EndsIn, FixDot, Pattern, QueryOk;
      Patterns();
      var i := Find(m_sPath, "/.", 0);
      FindIsFirst(p, q, ".", false);
      AtEnd(p, ".");
      if EndsIn(p, ".") { DotText(p, q); } else { Unfixed(p); }
      end := pathend;
      if i != NPOS && i == pathend - 2 {
        m_sPath := m_sPath[..i + 1] + m_sPath[i + 2..];
        end := pathend - 1;
      }
    }

    /** One round of the third loop: segment k, a "..", goes together with the segment before it. */
    method PopRound(i: nat, ghost r: Segs, ghost q: string)
      requires m_sPath == Text(r) + q && Clean(r) && QueryOk(q) && |m_sPath| < MAX_SIZE && r != []
      requires First(r, "..", true) < |r| && i == Pos(r, First(r, "..", true))
      modifies this
      ensures m_sPath == Text(PopAt(r, First(r, "..", true))) + q && |m_sPath| < old(|m_sPath|)
    {
      hide Text, Find, FindLast, Pos, Clean, PopAt, QueryOk;
      PopText(r, q, First(r, "..", true));
      if i > 0 {
        var limit := FindLast(m_sPath, '/', i - 1);
        m_sPath := m_sPath[..limit] + m_sPath[i + 3..];
      } else {
        m_sPath := m_sPath[i + 3..];
      }
    }

    /** The third loop, "/../". */
    method PopSegments(pathend: nat, ghost p: Segs, ghost q: string, ghost changed: bool) returns (end: nat)
      requires m_sPath == Text(p) + q && p != [] && Clean(p) && QueryOk(q) && |m_sPath| < MAX_SIZE
      requires NoneInside(p, "") && NoneInside(p, ".") && pathend == Ended(p, q, changed)
      modifies this
      ensures var r := Resolve([], p);
              m_sPath == Text(r) + q && |m_sPath| <= old(|m_sPath|) && Clean(r) && end == Ended(r, q, changed || r != p)
    {
      hide Text, Resolve, First, Find, FindLast, Pos, Clean, PopAt, Occ, NoneInside, Ended, Pattern, QueryOk;
      Patterns();
      ghost var r := p;
      end := pathend;
      FindIsFirst(r, q, "..", true);
      var i := Find(m_sPath, "/../", 0);
      while i != NPOS && i < end
        invariant m_sPath == Text(r) + q && r != [] && Clean(r) && |m_sPath| <= old(|m_sPath|)
        invariant Resolve([], r) == Resolve([], p) && NoneInside(r, "") && NoneInside(r, ".") && (r == p || |r| < |p|)
        invariant end == Ended(r, q, changed || r != p)
        invariant i == Find(m_sPath, Pattern("..", true), 0)
        decreases |r|
      {
        ghost var k := First(r, "..", true);
        EndedBound(r, q, changed || r != p);
        RoundPops(r, q);
        PopRound(i, r, q);
        r := PopAt(r, k);
        FindQuery(r, q);
        EndedIs(r, q);
        end := Find(m_sPath, "?", 0);
        i := Find(m_sPath, "/../", 0);
      }
      EndedBound(r, q, changed || r != p);
      NoPop(r, q, changed || r != p);
    }

    /** A path that ends in its first "/.." loses its last segment, if pathend is where the path ends. */
    method PopLast(pathend: nat, ghost p: Segs, ghost q: string, ghost changed: bool) returns (end: nat)
      requires m_sPath == Text(p) + q && p != [] && Clean(p) && QueryOk(q) && |m_sPath| < MAX_SIZE
      requires pathend == Ended(p, q, changed)
      modifies this
      ensures var r := if q == "" && changed then p else FixDotDot(p);
              m_sPath == Text(r) + q && |m_sPath| <= old(|m_sPath|) && Clean(r) && end == Ended(r, q, changed || r != p)
    {
      hide Text, Find, FindLast, Pos, Clean, QueryOk, Occ, First, EndsIn, FixDotDot, Pattern, Ended, Matches;
      Patterns();
      var i := Find(m_sPath, "/..", 0);
      LastMatch(p, q, "..", changed);
      EndedCases(FixDotDot(p), q, true);
      end := pathend;
      if i != NPOS && i == pathend - 3 {
        DotDotText(p, q);
        FindQuery(FixDotDot(p), q);
        var newPath;
        if i > 0 {
          var limit := FindLast(m_sPath, '/', i - 1);
          newPath := m_sPath[..limit + 1];
        } else {
          newPath := "/";
        }
        newPath := newPath + m_sPath[i + 3..];
        m_sPath := newPath;
        end := Find(m_sPath, "?", 0);
      } else {
        Unfixed(p);
      }
    }

    /** The last loop, "%7E". */
    method DecodePath(pathend: nat, ghost path: string, ghost q: string)
      requires m_sPath == path + q && '?' !in path && QueryOk(q) && |m_sPath| < MAX_SIZE
      requires pathend == |path| || (q == "" && pathend == NPOS)
      modifies this
      ensures m_sPath == Decode(path) + q
    {
      hide Decode, Find, Occ;
      ghost var t := path;
      var end := pathend;
      var i := Find(m_sPath, "%7E", 0);
      while i != NPOS && i < end
        invariant m_sPath == t + q && '?' !in t && |t| <= |path| && Decode(t) == Decode(path)
        invariant end == |t| || (q == "" && end == NPOS)
        invariant i == Find(m_sPath, TILDE, 0)
        decreases |t|
      {
        RoundDecodes(t, q);
        m_sPath := m_sPath[..i] + "~" + m_sPath[i + 3..];
        t := t[..i] + "~" + t[i + 3..];
        FindMark(t, q);
        end := Find(m_sPath, "?", 0);
        i := Find(m_sPath, "%7E", 0);
      }
      NoTilde(t, q);
    }

    /** normalizePath */
    method NormalizePath(ghost p: Segs, ghost q: string)
      requires m_sPath == Text(p) + q && p != [] && Clean(p) && QueryOk(q) && |m_sPath| < MAX_SIZE
      modifies this
      ensures m_sPath == Decode(Text(Norm(p, q != ""))) + q && Clean(Norm(p, q != ""))
    {
      hide Text, Find, Without, Resolve, FixDot, FixDotDot, Clean, First, Decode, NoneInside;
      var pathend := Find(m_sPath, "?", 0);
      FindQuery(p, q);
      if pathend == NPOS {
        pathend := |m_sPath|;
      }
      pathend := DropSegments("", pathend, p, q, false);
      ghost var p0 := Without(p, "");
      pathend := DropSegments(".", pathend, p0, q, p0 != p);
      ghost var p1 := Without(p0, ".");
      StillWithout(p);
      pathend := DropDot(pathend, p1, q, p1 != p);
      ghost var p2 := if q == "" && p1 != p then p1 else FixDot(p1);
      FixDotInside(p1);
      pathend := PopSegments(pathend, p2, q, p1 != p);
      ghost var p3 := Resolve([], p2);
      pathend := PopLast(pathend, p3, q, p1 != p || p3 != p2);
      ghost var p4 := Norm(p, q != "");
      NoMark(p4);
      DecodePath(pathend, Text(p4), q);
    }
  }

  /** After the first two loops no empty and no "." segment is left before the last, and if one was dropped the
      segments are fewer. */
  lemma StillWithout(p: Segs)
    requires p != []
    ensures var p1 := Without(Without(p, ""), ".");
            NoneInside(p1, "") && NoneInside(p1, ".") && (p1 == p <==> Without(p, "") == p && p1 == Without(p, ""))
  {
    hide Without;
    var p0 := Without(p, "");
    WithoutNone(p, "");
    WithoutNone(p0, ".");
    WithoutKeepsOther(p0, ".", "");
    WithoutShorter(p, "");
    WithoutShorter(p0, ".");
  }

  lemma {:induction false} WithoutNone(p: Segs, w: string)
    ensures NoneInside(Without(p, w), w)
    decreases |p|
  {
    if |p| > 1 {
      WithoutNone(p[1..], w);
    }
  }

  lemma {:induction false} WithoutShorter(p: Segs, w: string)
    ensures Without(p, w) == p || |Without(p, w)| < |p|
    decreases |p|
  {
    if |p| > 1 {
      WithoutShorter(p[1..], w);
      assert p == [p[0]] + p[1..];
    }
  }

  lemma FixDotInside(p: Segs)
    requires p != [] && NoneInside(p, "") && NoneInside(p, ".")
    ensures NoneInside(FixDot(p), "") && NoneInside(FixDot(p), ".")
  {
    NoneMeans(p, "");
    NoneMeans(p, ".");
    NoneMeans(FixDot(p), "");
    NoneMeans(FixDot(p), ".");
    hide NoneInside, First;
  }

  lemma NoMark(p: Segs)
    requires Clean(p)
    ensures '?' !in Text(p)
  {
    hide Text;
    NoQuery(p);
  }

  lemma RoundDecodes(t: string, q: string)
    requires '?' !in t && QueryOk(q) && |t + q| < MAX_SIZE
    requires Find(t + q, TILDE, 0) < |t| || (q == "" && Find(t + q, TILDE, 0) < NPOS)
    ensures var i := Find(t + q, TILDE, 0);
            var s := t + q;
            && i + 3 <= |t|
            && var u := t[..i] + "~" + t[i + 3..];
               s[..i] + "~" + s[i + 3..] == u + q && '?' !in u && |u| < |t| && Decode(u) == Decode(t)
  {
    hide Decode, Find;
    var i, s := Find(t + q, TILDE, 0), t + q;
    forall j | 0 <= j < |t| ensures Occ(s, j, TILDE) <==> Occ(t, j, TILDE) {
      OccInPath(t, q, j, TILDE);
    }
    assert i < |t|;
    DecodeFirst(t, i);
  }

  lemma NoTilde(t: string, q: string)
    requires '?' !in t && QueryOk(q) && |t + q| < MAX_SIZE
    requires Find(t + q, TILDE, 0) >= |t|
    ensures Decode(t) == t
  {
    hide Decode, Find;
    forall j | 0 <= j < |t| ensures !Occ(t, j, TILDE) {
      OccInPath(t, q, j, TILDE);
    }
    DecodeNothing(t);
  }

  lemma DotDotFirst(p: Segs, q: string)
    requires Clean(p) && |p| == 1 && p[0] == ".."
    ensures var s := Text(p) + q; 3 <= |s| && "/" + s[3..] == Text([""]) + q && |Text([""])| < |Text(p)|
  {
    hide Text;
    TextStep(p);
    TextStart(p[1..]);
    OneSlash();
  }

  lemma DotDotLater(p: Segs, q: string)
    requires Clean(p) && |p| > 1 && QueryOk(q) && |Text(p) + q| < MAX_SIZE && p[|p| - 1] == ".."
    ensures var i, s := Pos(p, |p| - 1), Text(p) + q;
            var r := p[..|p| - 2] + [""];
            && 0 < i && i + 3 <= |s| && |Text(r)| < |Text(p)|
            && var limit := FindLast(s, '/', i - 1); limit < i && s[..limit + 1] + s[i + 3..] == Text(r) + q
  {
    hide Text, Pos, FindLast, Clean, QueryOk;
    var k := |p| - 1;
    var i, s := Pos(p, k), Text(p) + q;
    Cut(p, q, k);
    TextStart(p[k + 1..]);
    assert s[i + 3..] == q;
    SlashBefore(p, q, k);
    Cut(p, q, k - 1);
    PosNext(p, k - 1);
    OneSlash();
    TextJoin(p[..k - 1], [""]);
    assert s[..Pos(p, k - 1) + 1] == Text(p[..k - 1]) + "/";
  }

  /** Taking the text of a last segment ".." and of the one before it away. */
  lemma DotDotText(p: Segs, q: string)
    requires Clean(p) && p != [] && QueryOk(q) && |Text(p) + q| < MAX_SIZE && EndsIn(p, "..")
    ensures var i, s := Pos(p, |p| - 1), Text(p) + q;
            var r := FixDotDot(p);
            && i + 3 <= |s| && Clean(r) && |Text(r)| < |Text(p)|
            && (i > 0 ==> var limit := FindLast(s, '/', i - 1); limit < i && s[..limit + 1] + s[i + 3..] == Text(r) + q)
            && (i == 0 ==> "/" + s[3..] == Text(r) + q)
  {
    hide Text, Pos, FindLast;
    var k := |p| - 1;
    PosZero(p, k);
    if k > 0 {
      DotDotLater(p, q);
      assert Pop(p[..k]) == p[..k - 1];
    } else {
      DotDotFirst(p, q);
      assert Pop(p[..k]) + [""] == [""];
    }
  }

  lemma CutOut(p: Segs, q: string, k: nat)
    requires Clean(p) && k < |p|
    ensures var i := Pos(p, k);
            var s := Text(p) + q;
            && i + 1 + |p[k]| <= |s| && s[..i] + s[i + 1 + |p[k]|..] == Text(Remove(p, k)) + q
            && Clean(Remove(p, k))
  {
    hide Text, Pos;
    Cut(p, q, k);
    TextJoin(p[..k], p[k + 1..]);
    assert Text(p[..k]) + (Text(p[k + 1..]) + q) == Text(p[..k]) + Text(p[k + 1..]) + q;
  }

  lemma RoundDrops(r: Segs, q: string, w: string)
    requires Clean(r) && QueryOk(q) && CleanSeg(w) && |Text(r) + q| < MAX_SIZE
    requires Find(Text(r) + q, Pattern(w, true), 0) < |Text(r)| || (q == "" && Find(Text(r) + q, Pattern(w, true), 0) < NPOS)
    ensures var k := First(r, w, true);
            var i := Find(Text(r) + q, Pattern(w, true), 0);
            var s := Text(r) + q;
            && k < |r| - 1 && i + 1 + |w| <= |s| && s[..i] + s[i + 1 + |w|..] == Text(Remove(r, k)) + q
            && Clean(Remove(r, k)) && Without(Remove(r, k), w) == Without(r, w)
  {
    hide Without, Text, Find, Occ, Pos, Remove, Clean, Pattern;
    FindIsFirst(r, q, w, true);
    var k := First(r, w, true);
    CutOut(r, q, k);
    WithoutFirst(r, w);
  }

  lemma NoRound(r: Segs, q: string, w: string, changed: bool)
    requires Clean(r) && QueryOk(q) && CleanSeg(w) && |Text(r) + q| < MAX_SIZE
    requires var i := Find(Text(r) + q, Pattern(w, true), 0); !(i != NPOS && i < Ended(r, q, changed))
    ensures Without(r, w) == r && NoneInside(r, w)
  {
    hide Without, Text, Find, Occ, Pos;
    FindIsFirst(r, q, w, true);
    WithoutFirst(r, w);
  }

  lemma Patterns()
    ensures Pattern("..", true) == "/../" && Pattern(".", false) == "/." && Pattern("..", false) == "/.."
  {
  }

  lemma EndedBound(r: Segs, q: string, changed: bool)
    ensures Ended(r, q, changed) <= |Text(r)| || (q == "" && Ended(r, q, changed) == NPOS)
    ensures Ended(r, q, changed) >= |Text(r)| || |Text(r)| > NPOS
  {
  }

  lemma EndedIs(r: Segs, q: string)
    ensures Ended(r, q, true) == if q == "" then NPOS else |Text(r)|
  {
  }

  lemma RoundPops(r: Segs, q: string)
    requires Clean(r) && QueryOk(q) && |Text(r) + q| < MAX_SIZE && r != [] && NoneInside(r, "") && NoneInside(r, ".")
    requires Find(Text(r) + q, Pattern("..", true), 0) < |Text(r)| || (q == "" && Find(Text(r) + q, Pattern("..", true), 0) < NPOS)
    ensures var k := First(r, "..", true);
            && k < |r| - 1 && Find(Text(r) + q, Pattern("..", true), 0) == Pos(r, k) && PopAt(r, k) != []
            && Clean(PopAt(r, k)) && Resolve([], PopAt(r, k)) == Resolve([], r)
            && NoneInside(PopAt(r, k), "") && NoneInside(PopAt(r, k), ".")
  {
    hide Resolve, Text, Find, Occ, FindLast, Clean, NoneInside, PopAt, Pos, Pattern;
    FindIsFirst(r, q, "..", true);
    FirstInside(r);
    ResolvePopAt(r);
    CleanPop(r, First(r, "..", true));
  }

  lemma FirstInside(r: Segs)
    requires First(r, "..", true) < |r|
    ensures !NoneInside(r, "..")
  {
  }

  lemma PosZero(p: Segs, k: nat)
    requires k <= |p|
    ensures Pos(p, k) == 0 <==> k == 0
  {
  }

  lemma PopPair(p: Segs, q: string, k: nat)
    requires Clean(p) && QueryOk(q) && 0 < k < |p| && |Text(p) + q| < MAX_SIZE
    ensures var i := Pos(p, k);
            var s := Text(p) + q;
            var j := i + 1 + |p[k]|;
            && 0 < i && j <= |s|
            && FindLast(s, '/', i - 1) == Pos(p, k - 1) < i
            && s[..Pos(p, k - 1)] + s[j..] == Text(PopAt(p, k)) + q
  {
    hide Text, FindLast, Pos, Clean;
    Cut(p, q, k);
    SlashBefore(p, q, k);
    Cut(p, q, k - 1);
    PosNext(p, k - 1);
    TextJoin(p[..k - 1], p[k + 1..]);
    assert Text(p[..k - 1]) + (Text(p[k + 1..]) + q) == Text(p[..k - 1]) + Text(p[k + 1..]) + q;
  }

  lemma CleanPop(p: Segs, k: nat)
    requires Clean(p) && k < |p|
    ensures Clean(PopAt(p, k))
  {
  }

  /** Taking the text of segments k - 1 and k out, or of segment 0. */
  lemma PopText(p: Segs, q: string, k: nat)
    requires Clean(p) && QueryOk(q) && k < |p| && |Text(p) + q| < MAX_SIZE
    ensures var i := Pos(p, k);
            var s := Text(p) + q;
            var j := i + 1 + |p[k]|;
            && j <= |s| && (i == 0 <==> k == 0)
            && (i > 0 ==> var limit := FindLast(s, '/', i - 1);
                          limit < i && s[..limit] + s[j..] == Text(PopAt(p, k)) + q)
            && (i == 0 ==> s[j..] == Text(PopAt(p, k)) + q)
            && Clean(PopAt(p, k))
  {
    hide Text, FindLast, Pos, Clean;
    Cut(p, q, k);
    PosZero(p, k);
    CleanPop(p, k);
    if k > 0 { PopPair(p, q, k); }
  }

  lemma NoPop(r: Segs, q: string, changed: bool)
    requires Clean(r) && QueryOk(q) && |Text(r) + q| < MAX_SIZE && r != [] && NoneInside(r, "") && NoneInside(r, ".")
    requires var i := Find(Text(r) + q, Pattern("..", true), 0); !(i != NPOS && i < Ended(r, q, changed))
    ensures Resolve([], r) == r
  {
    hide Resolve, Text, Find, Occ, Pos;
    FindIsFirst(r, q, "..", true);
    ResolveAllPlain(r);
  }

  /** The first open match ends the path exactly when it is the whole last segment. */
  lemma DotsClean(w: string)
    requires w == "." || w == ".."
    ensures CleanSeg(w)
  {
  }

  lemma EndedCases(p: Segs, q: string, changed: bool)
    ensures Ended(p, q, changed) == if q == "" && changed then NPOS else |Text(p)|
  {
  }

  /** The first match of "/." or "/.." ends the path as it is known exactly for a last segment like that. */
  lemma LastMatch(p: Segs, q: string, w: string, changed: bool)
    requires Clean(p) && QueryOk(q) && p != [] && |Text(p) + q| < MAX_SIZE && (w == "." || w == "..")
    ensures var i := Find(Text(p) + q, Pattern(w, false), 0);
            && (i != NPOS && i + 1 + |w| == Ended(p, q, changed) <==> EndsIn(p, w) && !(q == "" && changed))
            && (i != NPOS && i + 1 + |w| == Ended(p, q, changed) ==> i == Pos(p, |p| - 1))
  {
    hide Text, Find, Pos, Clean, QueryOk, First, EndsIn, Pattern, Ended, Matches, CleanSeg, Occ;
    DotsClean(w);
    EndedCases(p, q, changed);
    FindIsFirst(p, q, w, false);
    AtEnd(p, w);
    assert |Text(p) + q| == |Text(p)| + |q|;
  }

  lemma AtEnd(p: Segs, w: string)
    requires Clean(p) && p != []
    ensures var k := First(p, w, false);
            if k < |p| then Pos(p, k) + 1 + |w| == |Text(p)| <==> EndsIn(p, w) else !EndsIn(p, w)
    ensures EndsIn(p, w) ==> First(p, w, false) == |p| - 1
  {
    hide Text, Pos;
    var k := First(p, w, false);
    if k < |p| {
      Cut(p, "", k);
      TextStart(p[k + 1..]);
      assert |Text(p) + ""| == |Text(p)|;
      assert |Text(p)| == Pos(p, k) + 1 + |p[k]| + |Text(p[k + 1..])|;
      assert k < |p| - 1 ==> p[k + 1..] != [];
    }
  }

  lemma Unfixed(p: Segs)
    requires p != []
    ensures !EndsIn(p, ".") ==> FixDot(p) == p
    ensures !EndsIn(p, "..") ==> FixDotDot(p) == p
  {
  }

  lemma OneSlash()
    ensures Text([""]) == "/"
  {
    TextStep([""]);
    TextStart([""][1..]);
  }

  /** Taking the dot of a last segment "." away. */
  lemma DotText(p: Segs, q: string)
    requires Clean(p) && p != [] && EndsIn(p, ".")
    ensures var i, s := Pos(p, |p| - 1), Text(p) + q;
            var r := FixDot(p);
            i + 2 <= |s| && s[..i + 1] + s[i + 2..] == Text(r) + q && Clean(r) && |Text(r)| == |Text(p)| - 1
  {
    hide Text, Pos;
    var k := |p| - 1;
    Cut(p, q, k);
    OneSlash();
    TextJoin(p[..k], [""]);
    TextStart(p[k + 1..]);
    var i, s := Pos(p, k), Text(p) + q;
    assert s[..i + 1] == Text(p[..k]) + "/";
    assert |s| == |s[..i + 1]| + 1 + |s[i + 2..]|;
  }

  // ---------------------------------------------------------------- when the dots are resolved

  /** Whether a last "." or ".." is resolved. With a query it is unless another segment before it begins alike;
      without one, also not once anything was rewritten, because the end of the path is lost then. */
  predicate Clears(p: Segs, query: bool)
    requires p != []
  {
    var n := |p| - 1;
    if p[n] == "." then
      forall k :: 0 <= k < n ==> if query then p[k] == "." || !("." <= p[k]) else p[k] != "" && !("." <= p[k])
    else if p[n] == ".." then
      if query then forall k :: 0 <= k < |Resolve([], p)| - 1 ==> !(".." <= Resolve([], p)[k])
      else forall k :: 0 <= k < n ==> p[k] != "" && p[k] != "." && !(".." <= p[k])
    else true
  }

  lemma EndsInMeans(p: Segs, w: string)
    requires p != []
    ensures EndsIn(p, w) <==> p[|p| - 1] == w && forall k :: 0 <= k < |p| - 1 ==> !(w <= p[k])
  {
    hide Matches;
  }

  lemma WithoutSame(p: Segs, w: string)
    ensures Without(p, w) == p <==> forall k :: 0 <= k < |p| - 1 ==> p[k] != w
  {
    WithoutFirst(p, w);
    WithoutNone(p, w);
    NoneMeans(p, w);
    hide Without, First, Remove;
  }

  /** Nothing before the last begins with a dot except the segments "." themselves. */
  predicate OnlyDots(p: Segs) {
    forall k :: 0 <= k < |p| - 1 ==> p[k] == "." || !("." <= p[k])
  }

  lemma OnlyDotsStep(a: string, p: Segs)
    requires p != []
    ensures OnlyDots([a] + p) <==> (a == "." || !("." <= a)) && OnlyDots(p)
  {
    assert ([a] + p)[0] == a;
    assert forall k :: 1 <= k < |p| ==> ([a] + p)[k] == p[k - 1];
    assert forall k :: 0 <= k < |p| - 1 ==> p[k] == ([a] + p)[k + 1];
  }

  lemma {:induction false} OnlyDotsWithout(p: Segs, w: string)
    requires w == "" || w == "."
    ensures OnlyDots(Without(p, w)) <==> OnlyDots(p)
    decreases |p|
  {
    if |p| > 1 {
      OnlyDotsWithout(p[1..], w);
      assert p == [p[0]] + p[1..];
      OnlyDotsStep(p[0], p[1..]);
      OnlyDotsStep(p[0], Without(p[1..], w));
    }
  }

  /** The last segment is only carried along. */
  lemma {:induction false} ResolveLast(st: Segs, a: Segs, x: string, y: string)
    ensures var r := Resolve(st, a + [x]);
            Resolve(st, a + [y]) == r[..|r| - 1] + [y]
    decreases |a|
  {
    if a == [] {
      assert [] + [x] == [x] && [] + [y] == [y];
    } else {
      assert (a + [x])[1..] == a[1..] + [x] && (a + [y])[1..] == a[1..] + [y];
      ResolveLast(Pushed(st, a[0]), a[1..], x, y);
    }
  }

  lemma {:induction false} ResolveLonger(st: Segs, p: Segs)
    requires p != []
    ensures |Resolve(st, p)| <= |st| + |p|
    ensures (exists k :: 0 <= k < |p| - 1 && (p[k] == "" || p[k] == "." || p[k] == "..")) ==> |Resolve(st, p)| < |st| + |p|
    decreases |p|
  {
    if |p| > 1 {
      ResolveLonger(Pushed(st, p[0]), p[1..]);
      assert forall k :: 1 <= k < |p| - 1 ==> p[k] == p[1..][k - 1];
    }
  }

  /** The evaluation is the identity exactly on paths without empty and dot segments before the last. */
  lemma ResolveSame(p: Segs)
    requires p != []
    ensures Resolve([], p) == p <==> forall k :: 0 <= k < |p| - 1 ==> p[k] != "" && p[k] != "." && p[k] != ".."
  {
    ResolveLonger([], p);
    NoneMeans(p, "");
    NoneMeans(p, ".");
    NoneMeans(p, "..");
    hide NoneInside, Resolve, First;
    if forall k :: 0 <= k < |p| - 1 ==> p[k] != "" && p[k] != "." && p[k] != ".." {
      ResolveAllPlain(p);
    }
  }

  lemma ResolveTwice(p: Segs)
    requires p != []
    ensures Resolve([], Without(Without(p, ""), ".")) == Resolve([], p)
  {
    hide Without, Resolve;
    ResolveWithout([], p, "");
    ResolveWithout([], Without(p, ""), ".");
  }

  lemma NormOther(p: Segs, query: bool)
    requires p != [] && p[|p| - 1] != "." && p[|p| - 1] != ".."
    ensures Norm(p, query) == Eval(p)
  {
    hide Without, Resolve, First;
    ResolveTwice(p);
  }

  lemma DotsAtEnd(p: Segs)
    requires p != [] && p[|p| - 1] == "."
    ensures EndsIn(Without(Without(p, ""), "."), ".") <==> OnlyDots(p)
  {
    hide Without, EndsIn, First;
    var p1 := Without(Without(p, ""), ".");
    EndsInMeans(p1, ".");
    OnlyDotsWithout(p, "");
    OnlyDotsWithout(Without(p, ""), ".");
    WithoutInner(Without(p, ""), ".");
  }

  lemma DotClears(p: Segs, query: bool)
    requires p != [] && p[|p| - 1] == "."
    ensures var p1 := Without(Without(p, ""), ".");
            (query || p1 == p) && EndsIn(p1, ".") <==> Clears(p, query)
  {
    hide Without, EndsIn, First;
    WithoutTwice(p);
    DotsAtEnd(p);
  }

  lemma NormDotFixed(p: Segs, query: bool)
    requires p != [] && p[|p| - 1] == "."
    requires var p1 := Without(Without(p, ""), "."); (query || p1 == p) && EndsIn(p1, ".")
    ensures Norm(p, query) == Eval(p)
  {
    hide Without, Resolve, EndsIn, Norm, Eval, First, Finish, FixDotDot;
    var p1 := Without(Without(p, ""), ".");
    SplitLast(p1);
    ResolveTwice(p);
    LastDotResolved(p1[..|p1| - 1], p1[|p1| - 1]);
    NormFixed(p, query);
    EvalIs(p);
  }

  lemma LastDotResolved(a: Segs, x: string)
    requires x == "."
    ensures var r := Resolve([], a + [""]);
            r == Finish(Resolve([], a + [x])) && FixDotDot(r) == r
  {
    hide Resolve, FixDotDot, Finish;
    ResolveLast([], a, x, "");
    FinishDot(Resolve([], a + [x]));
    PlainEnd(Resolve([], a + [""]));
  }

  lemma SplitLast(p: Segs)
    requires p != []
    ensures p == p[..|p| - 1] + [p[|p| - 1]]
  {
  }

  lemma NormFixed(p: Segs, query: bool)
    requires p != []
    requires var p1 := Without(Without(p, ""), "."); (query || p1 == p) && EndsIn(p1, ".")
    ensures var p1 := Without(Without(p, ""), ".");
            var p3 := Resolve([], p1[..|p1| - 1] + [""]);
            Norm(p, query) == p3 || Norm(p, query) == FixDotDot(p3)
  {
    hide Without, Resolve, EndsIn, First, FixDotDot;
  }

  lemma EvalIs(p: Segs)
    requires p != []
    ensures Eval(p) == Finish(Resolve([], p))
  {
  }

  lemma FinishDot(r: Segs)
    requires r != [] && r[|r| - 1] == "."
    ensures Finish(r) == r[..|r| - 1] + [""]
  {
  }

  lemma PlainEnd(r: Segs)
    requires r != [] && r[|r| - 1] != ".."
    ensures FixDotDot(r) == r
  {
    hide First;
  }

  lemma NormDotKept(p: Segs, query: bool)
    requires p != [] && p[|p| - 1] == "."
    requires var p1 := Without(Without(p, ""), "."); !((query || p1 == p) && EndsIn(p1, "."))
    ensures Norm(p, query) == Resolve([], p)
  {
    hide Without, Resolve, EndsIn, First, FixDot, FixDotDot;
    ResolveTwice(p);
    PlainEnd(Resolve([], p));
    Unfixed(Without(Without(p, ""), "."));
  }

  lemma FinishDiffers(r: Segs)
    requires r != [] && r[|r| - 1] == "."
    ensures Finish(r) != r
  {
    FinishDot(r);
  }

  lemma NormDotLeft(p: Segs, query: bool)
    requires p != [] && p[|p| - 1] == "."
    requires var p1 := Without(Without(p, ""), "."); !((query || p1 == p) && EndsIn(p1, "."))
    ensures Norm(p, query) != Eval(p)
  {
    hide Without, Resolve, EndsIn, First, Norm, Eval, Finish, Matches;
    NormDotKept(p, query);
    EvalIs(p);
    FinishDiffers(Resolve([], p));
  }

  lemma NormDot(p: Segs, query: bool)
    requires p != [] && p[|p| - 1] == "."
    ensures Norm(p, query) == Eval(p) <==> Clears(p, query)
  {
    hide Without, Resolve, EndsIn, Norm, Eval, Clears;
    DotClears(p, query);
    var p1 := Without(Without(p, ""), ".");
    if (query || p1 == p) && EndsIn(p1, ".") {
      NormDotFixed(p, query);
    } else {
      NormDotLeft(p, query);
    }
  }

  lemma {:induction false} WithoutInner(p: Segs, w: string)
    ensures forall k :: 0 <= k < |Without(p, w)| - 1 ==> Without(p, w)[k] != w
  {
    WithoutNone(p, w);
    NoneMeans(Without(p, w), w);
  }

  lemma WithoutTwice(p: Segs)
    requires p != []
    ensures Without(Without(p, ""), ".") == p <==> forall k :: 0 <= k < |p| - 1 ==> p[k] != "" && p[k] != "."
  {
    StillWithout(p);
    WithoutSame(p, "");
    WithoutSame(p, ".");
    hide Without;
  }

  lemma DotDotClears(p: Segs, query: bool)
    requires p != [] && p[|p| - 1] == ".."
    ensures (query || Resolve([], p) == p) && EndsIn(Resolve([], p), "..") <==> Clears(p, query)
  {
    ResolveSame(p);
    EndsInMeans(Resolve([], p), "..");
    hide Without, Resolve, First, EndsIn;
  }

  lemma NormDotDotValue(p: Segs, query: bool)
    requires p != [] && p[|p| - 1] == ".."
    ensures var r := Resolve([], p);
            Norm(p, query) == if (query || r == p) && EndsIn(r, "..") then FixDotDot(r) else r
  {
    ResolveTwice(p);
    ResolveSame(p);
    WithoutTwice(p);
    Unfixed(Without(Without(p, ""), "."));
    EndsInMeans(Without(Without(p, ""), "."), ".");
    Unfixed(Resolve([], p));
    hide Without, Resolve, First, EndsIn, FixDotDot, FixDot;
  }

  lemma NormDotDot(p: Segs, query: bool)
    requires p != [] && p[|p| - 1] == ".."
    ensures Norm(p, query) == Eval(p) <==> Clears(p, query)
  {
    hide Norm, Resolve, First, EndsIn, Clears;
    NormDotDotValue(p, query);
    DotDotClears(p, query);
  }

  /** The normalised path is the evaluation of the path's segments exactly when Clears says so: always, for a
      path whose last segment is not "." or "..". */
  lemma NormIsEval(p: Segs, query: bool)
    requires p != []
    ensures Norm(p, query) == Eval(p) <==> Clears(p, query)
  {
    hide Norm, Eval;
    if p[|p| - 1] == "." {
      NormDot(p, query);
    } else if p[|p| - 1] == ".." {
      NormDotDot(p, query);
    } else {
      NormOther(p, query);
    }
  }

  /** Without a query a path that was rewritten keeps its final "..": "/a//b/.." becomes "/a/b/..", not "/a/". */
  lemma EndLost()
    ensures var p := ["a", "", "b", ".."];
            && Text(p) == "/a//b/.." && Clean(p) && !Clears(p, false)
            && Text(Norm(p, false)) == "/a/b/.." && Text(Eval(p)) == "/a/"
  {
    hide Norm, Eval, Text;
    var p := ["a", "", "b", ".."];
    EndSegments();
    assert p[1..] == ["", "b", ".."];
    TextOf3(p[1..]);
    TextStep(p);
    TextOf3(["a", "b", ".."]);
    TextStep(["a", ""]);
    assert ["a", ""][1..] == [""];
    TextStep([""]);
    TextNone();
    assert p[1] == "" && p[3] == "..";
  }

  lemma EndSegments()
    ensures var p := ["a", "", "b", ".."]; Norm(p, false) == ["a", "b", ".."] && Eval(p) == ["a", ""]
  {
    var p := ["a", "", "b", ".."];
    EndResolves();
    NormDotDotValue(p, false);
    hide Norm, Resolve, Finish;
    EvalIs(p);
    assert Resolve([], p) != p;
  }

  lemma TextOf3(p: Segs)
    requires |p| == 3
    ensures Text(p) == "/" + p[0] + "/" + p[1] + "/" + p[2]
  {
    TextStep(p);
    TextStep(p[1..]);
    TextStep(p[2..]);
    assert p[1..][1..] == p[2..] && p[2..][1..] == [];
    assert Text([]) == "";
  }

  lemma EndResolves()
    ensures Resolve([], ["a", "", "b", ".."]) == ["a", "b", ".."]
    ensures Finish(["a", "b", ".."]) == ["a", ""]
  {
  }

  // ---------------------------------------------------------------- what is gone from the path

  lemma FixDotDotInside(p: Segs, w: string)
    requires p != [] && NoneInside(p, w)
    ensures NoneInside(FixDotDot(p), w)
  {
    NoneMeans(p, w);
    NoneMeans(FixDotDot(p), w);
    hide NoneInside, First;
  }

  predicate PlainSeg(w: string) { w != "" && w != "." && w != ".." }

  predicate PlainInside(p: Segs) {
    forall k :: 0 <= k < |p| - 1 ==> PlainSeg(p[k])
  }

  lemma {:induction false} ResolvedPlain(st: Segs, p: Segs)
    requires p != [] && forall k :: 0 <= k < |st| ==> PlainSeg(st[k])
    ensures PlainInside(Resolve(st, p))
    decreases |p|
  {
    if |p| > 1 {
      ResolvedPlain(Pushed(st, p[0]), p[1..]);
    }
  }

  lemma NormPlain(p: Segs, query: bool, w: string)
    requires p != [] && (w == "" || w == "." || w == "..")
    ensures NoneInside(Norm(p, query), w)
  {
    hide Without, Resolve, NoneInside, FixDot, FixDotDot;
    var p1 := Without(Without(p, ""), ".");
    var p2 := if query || p1 == p then FixDot(p1) else p1;
    ResolvedPlain([], p2);
    NoneMeans(Resolve([], p2), w);
    assert forall j :: 0 <= j < |Resolve([], p2)| - 1 ==> PlainSeg(Resolve([], p2)[j]);
    FixDotDotInside(Resolve([], p2), w);
  }

  /** A text without "~" that begins the decoded text begins the text itself. */
  lemma {:induction false} DecodedPrefix(s: string, w: string)
    requires w <= Decode(s) && '~' !in w
    ensures w <= s
    decreases |s|
  {
    if w != "" {
      assert w[0] == Decode(s)[0];
      assert w[0] in w;
      assert !Occ(s, 0, TILDE);
      assert w[1..] <= Decode(s)[1..] == Decode(s[1..]);
      DecodedPrefix(s[1..], w[1..]);
      assert s == [s[0]] + s[1..] && w == [w[0]] + w[1..];
    }
  }

  lemma OccStart(s: string, w: string)
    ensures Occ(s, 0, w) <==> w <= s
  {
  }

  /** Decoding brings no text without "~" about that was not there, and leaves no "%7E". */
  lemma {:induction false} DecodedOcc(s: string, w: string, j: nat) returns (i: nat)
    requires w != "" && '~' !in w && Occ(Decode(s), j, w)
    ensures Occ(s, i, w) && w != TILDE
    decreases |s|
  {
    hide Occ;
    OccStart(Decode(s), w);
    OccStart(s, w);
    OccStart(s, TILDE);
    OccNonempty(Decode(s), j, w);
    if w <= Decode(s) {
      DecodedPrefix(s, w);
      i := 0;
      assert w[0] == Decode(s)[0];
      if w == TILDE { DecodeHead(s); }
    } else {
      DecodeCons(s);
      var n := if TILDE <= s then 3 else 1;
      var d := Decode(s[n..]);
      assert Decode(s) == Decode(s)[..1] + d;
      ShiftOcc(Decode(s)[..1], d, j - 1, w);
      i := DecodedOcc(s[n..], w, j - 1);
      ShiftOcc(s[..n], s[n..], i, w);
      assert s == s[..n] + s[n..];
      i := n + i;
    }
  }

  lemma OccNonempty(s: string, j: nat, w: string)
    requires Occ(s, j, w) && w != ""
    ensures s != "" && (j == 0 ==> w <= s)
  {
  }

  lemma DecodeHead(s: string)
    requires TILDE <= s
    ensures Decode(s) != "" && Decode(s)[0] == '~'
  {
    OccStart(s, TILDE);
  }

  lemma DecodeCons(s: string)
    requires Decode(s) != ""
    ensures s != "" && Decode(s) == Decode(s)[..1] + if TILDE <= s then Decode(s[3..]) else Decode(s[1..])
  {
    OccStart(s, TILDE);
  }

  /** None of "//", "/./", "/../" and "%7E" is left before the query, for every path. */
  lemma NothingLeft(p: Segs, query: bool, w: string, j: nat)
    requires p != [] && Clean(Norm(p, query)) && w in {"//", "/./", "/../", TILDE}
    ensures !Occ(Decode(Text(Norm(p, query))), j, w)
  {
    hide Norm, Decode, Text, Occ, Clean;
    var t := Text(Norm(p, query));
    if Occ(Decode(t), j, w) {
      var i := DecodedOcc(t, w, j);
      NoPattern(p, query, w, i);
    }
  }

  lemma NoPattern(p: Segs, query: bool, w: string, i: nat)
    requires p != [] && Clean(Norm(p, query)) && w in {"//", "/./", "/../"}
    ensures !Occ(Text(Norm(p, query)), i, w)
  {
    var r := Norm(p, query);
    var v := if w == "//" then "" else if w == "/./" then "." else "..";
    assert w == Pattern(v, true);
    NormPlain(p, query, v);
    hide Norm, Text, Clean;
    PosInside(r, |r|);
    assert Text(r) + "" == Text(r);
    if i < |Text(r)| { OccFirst(r, "", v, true, i); }
  }

  // ---------------------------------------------------------------- every absolute path

  /** The index of the first slash or question mark, or the length. */
  function Stop(s: string): (n: nat)
    ensures n <= |s|
    ensures n < |s| ==> s[n] == '/' || s[n] == '?'
    ensures forall i :: 0 <= i < n ==> s[i] != '/' && s[i] != '?'
  {
    if s == "" || s[0] == '/' || s[0] == '?' then 0 else 1 + Stop(s[1..])
  }

  /** Every path that begins with a slash is the text of segments followed by a query. */
  lemma {:induction false} AnyPath(s: string) returns (p: Segs, q: string)
    requires s != "" && s[0] == '/'
    ensures s == Text(p) + q && p != [] && Clean(p) && QueryOk(q)
    decreases |s|
  {
    hide Text, Stop, Clean, QueryOk;
    var n := Stop(s[1..]);
    var a, t := s[1..][..n], s[1..][n..];
    assert s == "/" + a + t;
    TextNone();
    TextStep([a]);
    if n == |s[1..]| || s[1..][n] == '?' {
      p, q := [a], t;
      QueryFrom(t);
    } else {
      p, q := AnyPath(t);
      TextStep([a] + p);
      assert ([a] + p)[1..] == p;
      CleanCons(a, p);
      p := [a] + p;
    }
    CleanOne(a);
  }

  lemma TextNone()
    ensures forall a: string :: Text([a][1..]) == ""
  {
  }

  lemma QueryFrom(t: string)
    requires t == "" || t[0] == '?'
    ensures QueryOk(t)
  {
  }

  lemma CleanCons(a: string, p: Segs)
    requires CleanSeg(a) && Clean(p)
    ensures Clean([a] + p)
  {
  }

  lemma CleanOne(a: string)
    requires CleanSeg(a)
    ensures Clean([a])
  {
  }
}
