/**
 * The streaming digest of src/tools/mymd5.c: a context that takes a message in pieces, block by block, with a
 * 64-bit bit count kept in two words. The block transformation is a parameter. However the message is cut up,
 * the digest is that of the padded message of RFC 1321, sections 3.1 to 3.4, folded block by block.
 */
module Md5 {
  import opened Machine

  type Word = x: int | 0 <= x < TWO32

  datatype Quad = Quad(a: Word, b: Word, c: Word, d: Word)

  /** The transformation of the chaining words by the sixteen words of one block. */
  type Transform = (Quad, seq<Word>) -> Quad

  const START := Quad(0x67452301, 0xefcdab89, 0x98badcfe, 0x10325476)

  // ---------------------------------------------------------------- words and bytes

  /** Four bytes, lowest first. */
  function WordAt(b: seq<byte>, j: nat): Word
    requires j + 4 <= |b|
  {
    b[j] as int + 0x100 * b[j + 1] as int + 0x1_0000 * b[j + 2] as int + 0x100_0000 * b[j + 3] as int
  }

  function ByteOf(w: Word, i: nat): byte {
    if i == 0 then w % 0x100
    else if i == 1 then w / 0x100 % 0x100
    else if i == 2 then w / 0x1_0000 % 0x100
    else w / 0x100_0000 % 0x100
  }

  function WordBytes(w: Word): seq<byte> {
    [ByteOf(w, 0), ByteOf(w, 1), ByteOf(w, 2), ByteOf(w, 3)]
  }

  lemma DivTwice(w: nat)
    ensures w / 0x1_0000 == w / 0x100 / 0x100
  {
  }

  lemma DivThrice(w: nat)
    ensures w / 0x100_0000 == w / 0x1_0000 / 0x100
  {
  }

  lemma WordOfBytes(w: Word)
    ensures ByteOf(w, 0) + 0x100 * ByteOf(w, 1) + 0x1_0000 * ByteOf(w, 2) + 0x100_0000 * ByteOf(w, 3) == w
  {
    DivTwice(w);
    DivThrice(w);
    assert w / 0x100_0000 < 0x100;
  }

  /** The sixteen words of a block. */
  function Decode(b: seq<byte>): (r: seq<Word>)
    requires |b| == 64
    ensures |r| == 16
  {
    seq(16, i requires 0 <= i < 16 => WordAt(b, 4 * i))
  }

  // ---------------------------------------------------------------- the reference

  function FoldBlocks(T: Transform, buf: Quad, m: seq<byte>): Quad
    requires |m| % 64 == 0
    decreases |m|
  {
    if |m| == 0 then buf else FoldBlocks(T, T(buf, Decode(m[..64])), m[64..])
  }

  /** A one bit and as many zeros as bring the length to 56 modulo 64 bytes. */
  function Padding(n: nat): (p: seq<byte>)
    ensures 1 <= |p| <= 64 && (n + |p|) % 64 == 56
    ensures p[0] == 0x80 && forall i :: 1 <= i < |p| ==> p[i] == 0
  {
    [0x80] + seq(if n % 64 < 56 then 55 - n % 64 else 119 - n % 64, _ => 0)
  }

  /** The length in bits modulo 2^64, low word first. */
  function LengthBytes(n: nat): (p: seq<byte>)
    ensures |p| == 8
  {
    WordBytes(8 * n % TWO64 % TWO32) + WordBytes(8 * n % TWO64 / TWO32)
  }

  function Digest(q: Quad): seq<byte> {
    WordBytes(q.a) + WordBytes(q.b) + WordBytes(q.c) + WordBytes(q.d)
  }

  /** The words begin as the bytes of RFC 1321, section 3.3: counting up to ef, and down again from fe. */
  lemma StartBytes()
    ensures Digest(START) == [0x01, 0x23, 0x45, 0x67, 0x89, 0xab, 0xcd, 0xef, 0xfe, 0xdc, 0xba, 0x98, 0x76, 0x54, 0x32, 0x10]
  {
  }

  lemma WholeBlocks(n: nat, p: nat)
    requires (n + p) % 64 == 56
    ensures (n + p + 8) % 64 == 0
  {
    var k := (n + p) / 64;
    assert n + p + 8 == 64 * (k + 1);
  }

  function Padded(msg: seq<byte>): (m: seq<byte>)
    ensures |m| % 64 == 0
  {
    WholeBlocks(|msg|, |Padding(|msg|)|);
    msg + Padding(|msg|) + LengthBytes(|msg|)
  }

  function Reference(T: Transform, msg: seq<byte>): seq<byte> {
    Digest(FoldBlocks(T, START, Padded(msg)))
  }

  // ---------------------------------------------------------------- feeding bytes

  /** A context: bits counted, chaining words, block being filled. */
  datatype Context = Context(bits: nat, buf: Quad, block: seq<byte>)

  function Fill(bits: nat): (mdi: nat)
    ensures mdi < 64
  {
    bits / 8 % 64
  }

  function Feed(T: Transform, buf: Quad, block: seq<byte>, mdi: nat, data: seq<byte>): (r: (Quad, seq<byte>))
    requires |block| == 64 && mdi < 64
    ensures |r.1| == 64
    decreases |data|
  {
    if data == [] then (buf, block)
    else
      var b := block[mdi := data[0]];
      if mdi + 1 == 64 then Feed(T, T(buf, Decode(b)), b, 0, data[1..]) else Feed(T, buf, b, mdi + 1, data[1..])
  }

  /** MD5Update on a context. */
  function Updated(T: Transform, c: Context, data: seq<byte>): (r: Context)
    requires |c.block| == 64
    ensures |r.block| == 64
  {
    var (buf, block) := Feed(T, c.buf, c.block, Fill(c.bits), data);
    Context((c.bits + 8 * |data|) % TWO64, buf, block)
  }

  /** MD5Final: pad, then transform fourteen words of the block and the two of the count. */
  function FinalWords(block: seq<byte>, bits: nat): seq<Word>
    requires |block| == 64 && bits < TWO64
  {
    Decode(block)[..14] + [bits % TWO32, bits / TWO32]
  }

  function Finished(T: Transform, c: Context): seq<byte>
    requires |c.block| == 64 && c.bits < TWO64
  {
    var p := Updated(T, c, Padding(Fill(c.bits)));
    Digest(T(p.buf, FinalWords(p.block, c.bits)))
  }

  // ---------------------------------------------------------------- any way of cutting the message

  lemma Mod64(a: nat, b: nat, k: nat)
    requires a == b + 64 * k
    ensures a % 64 == b % 64
  {
  }

  lemma Mod64Add(a: nat, n: nat)
    ensures (a % 64 + n) % 64 == (a + n) % 64
  {
    Mod64(a + n, a % 64 + n, a / 64);
  }

  lemma Eighth(bits: nat, n: nat)
    ensures (bits + 8 * n) / 8 == bits / 8 + n
  {
  }

  lemma EighthWrapped(x: nat, y: nat, k: nat)
    requires x == y + TWO64 * k
    ensures x / 8 == y / 8 + 64 * (0x80_0000_0000_0000 * k)
  {
    assert TWO64 * k == 8 * (0x2000_0000_0000_0000 * k);
    Eighth(y, 0x2000_0000_0000_0000 * k);
  }

  lemma Wrapped(x: nat)
    ensures x == x % TWO64 + TWO64 * (x / TWO64)
  {
  }

  /** The place in the block advances with the bytes counted, also when the count wraps around. */
  lemma FillAdvances(bits: nat, n: nat)
    ensures Fill((bits + 8 * n) % TWO64) == (Fill(bits) + n) % 64
  {
    var x := bits + 8 * n;
    var y, k := x % TWO64, x / TWO64;
    Wrapped(x);
    EighthWrapped(x, y, k);
    Eighth(bits, n);
    Mod64(x / 8, y / 8, 0x80_0000_0000_0000 * k);
    Mod64Add(bits / 8, n);
  }

  lemma SlotStep(mdi: nat, n: nat)
    requires mdi < 64
    ensures mdi + 1 == 64 ==> (mdi + (n + 1)) % 64 == (0 + n) % 64
    ensures mdi + 1 < 64 ==> (mdi + (n + 1)) % 64 == (mdi + 1 + n) % 64
  {
    if mdi + 1 == 64 { Mod64(n + 64, n, 1); }
  }

  lemma {:induction false} FeedSplit(T: Transform, buf: Quad, block: seq<byte>, mdi: nat, a: seq<byte>, b: seq<byte>)
    requires |block| == 64 && mdi < 64
    ensures var (buf', block') := Feed(T, buf, block, mdi, a);
            Feed(T, buf, block, mdi, a + b) == Feed(T, buf', block', (mdi + |a|) % 64, b)
    decreases |a|
  {
    if a == [] {
      assert a + b == b;
    } else {
      assert (a + b)[1..] == a[1..] + b;
      SlotStep(mdi, |a| - 1);
      var c := block[mdi := a[0]];
      if mdi + 1 == 64 {
        FeedSplit(T, T(buf, Decode(c)), c, 0, a[1..], b);
      } else {
        FeedSplit(T, buf, c, mdi + 1, a[1..], b);
      }
    }
  }

  /** Two updates reach the context that one update with the joined data reaches. */
  lemma UpdatedSplit(T: Transform, c: Context, a: seq<byte>, b: seq<byte>)
    requires |c.block| == 64
    ensures Updated(T, Updated(T, c, a), b) == Updated(T, c, a + b)
  {
    hide Feed;
    FeedSplit(T, c.buf, c.block, Fill(c.bits), a, b);
    FillAdvances(c.bits, |a|);
    BitsAdd(c.bits, |a|, |b|);
  }

  lemma BitsAdd(bits: nat, m: nat, n: nat)
    ensures ((bits + 8 * m) % TWO64 + 8 * n) % TWO64 == (bits + 8 * (m + n)) % TWO64
  {
    ModAdd(bits + 8 * m, 8 * n);
  }

  lemma ModAdd(x: nat, y: nat)
    ensures (x % TWO64 + y) % TWO64 == (x + y) % TWO64
  {
    Wrapped(x);
    Wrapped(x % TWO64 + y);
    WrapUnique(x + y, (x % TWO64 + y) % TWO64, x / TWO64 + (x % TWO64 + y) / TWO64);
  }

  lemma WrapUnique(x: nat, r: nat, k: nat)
    requires r < TWO64 && x == r + TWO64 * k
    ensures x % TWO64 == r
  {
  }

  function Join(chunks: seq<seq<byte>>): seq<byte> {
    if chunks == [] then [] else chunks[0] + Join(chunks[1..])
  }

  function UpdatedAll(T: Transform, c: Context, chunks: seq<seq<byte>>): (r: Context)
    requires |c.block| == 64
    ensures |r.block| == 64
    decreases |chunks|
  {
    if chunks == [] then c else UpdatedAll(T, Updated(T, c, chunks[0]), chunks[1..])
  }

  /** However a message is cut into pieces, the context reached is the same. */
  lemma {:induction false} AnySplit(T: Transform, c: Context, chunks: seq<seq<byte>>)
    requires |c.block| == 64 && c.bits < TWO64
    ensures UpdatedAll(T, c, chunks) == Updated(T, c, Join(chunks))
    decreases |chunks|
  {
    if chunks != [] {
      hide Updated;
      AnySplit(T, Updated(T, c, chunks[0]), chunks[1..]);
      UpdatedSplit(T, c, chunks[0], Join(chunks[1..]));
    }
  }

  // ---------------------------------------------------------------- the digest is the reference

  lemma {:induction false} FeedFill(T: Transform, buf: Quad, block: seq<byte>, mdi: nat, d: seq<byte>)
    requires |block| == 64 && mdi + |d| < 64
    ensures Feed(T, buf, block, mdi, d) == (buf, block[..mdi] + d + block[mdi + |d|..])
    decreases |d|
  {
    if d == [] {
      assert block[..mdi] + d + block[mdi..] == block;
    } else {
      var b := block[mdi := d[0]];
      FeedFill(T, buf, b, mdi + 1, d[1..]);
      assert b[..mdi + 1] + d[1..] + b[mdi + |d|..] == block[..mdi] + d + block[mdi + |d|..];
    }
  }

  /** Bytes that bring the block to its end transform it. */
  lemma FeedToEnd(T: Transform, buf: Quad, block: seq<byte>, mdi: nat, d: seq<byte>)
    requires |block| == 64 && mdi < 64 && mdi + |d| == 64
    ensures Feed(T, buf, block, mdi, d) == (T(buf, Decode(block[..mdi] + d)), block[..mdi] + d)
  {
    var h := d[..|d| - 1];
    var l := d[|d| - 1..];
    assert d == h + l;
    FeedSplit(T, buf, block, mdi, h, l);
    FeedFill(T, buf, block, mdi, h);
    var b := block[..mdi] + h + block[63..];
    assert b[63 := l[0]] == block[..mdi] + d;
    assert l[1..] == [];
  }

  lemma {:induction false} FeedBlocks(T: Transform, buf: Quad, block: seq<byte>, m: seq<byte>)
    requires |block| == 64 && |m| % 64 == 0
    ensures Feed(T, buf, block, 0, m).0 == FoldBlocks(T, buf, m)
    decreases |m|
  {
    if |m| > 0 {
      var h, l := m[..64], m[64..];
      assert m == h + l && block[..0] + h == h;
      FeedSplit(T, buf, block, 0, h, l);
      FeedToEnd(T, buf, block, 0, h);
      FeedBlocks(T, T(buf, Decode(h)), h, l);
    }
  }

  /** The last block: the length bytes are the two words of the count. */
  lemma LengthIsCount(block: seq<byte>, n: nat)
    requires |block| == 64
    ensures Decode(block[..56] + LengthBytes(n)) == FinalWords(block, 8 * n % TWO64)
  {
    var bits := 8 * n % TWO64;
    WordOfBytes(bits % TWO32);
    WordOfBytes(bits / TWO32);
    hide ByteOf;
    var b := block[..56] + LengthBytes(n);
    assert WordAt(b, 56) == bits % TWO32 && WordAt(b, 60) == bits / TWO32;
    forall i | 0 <= i < 14 ensures Decode(b)[i] == Decode(block)[i] {
    }
  }

  lemma ContextAfter(T: Transform, block: seq<byte>, msg: seq<byte>)
    requires |block| == 64
    ensures var c := Updated(T, Context(0, START, block), msg);
            && c.bits == 8 * |msg| % TWO64 && Fill(c.bits) == |msg| % 64
            && (c.buf, c.block) == Feed(T, START, block, 0, msg)
  {
    hide Feed;
    FillAdvances(0, |msg|);
  }

  lemma FeedLast(T: Transform, block: seq<byte>, m: seq<byte>, last: seq<byte>)
    requires |block| == 64 && |m| % 64 == 56 && |last| == 8
    ensures |m + last| % 64 == 0
    ensures var (buf, b) := Feed(T, START, block, 0, m);
            FoldBlocks(T, START, m + last) == T(buf, Decode(b[..56] + last))
  {
    WholeBlocks(|m|, 0);
    hide Feed, FoldBlocks, Decode;
    var (buf, b) := Feed(T, START, block, 0, m);
    FeedSplit(T, START, block, 0, m, last);
    FeedToEnd(T, buf, b, 56, last);
    FeedBlocks(T, START, block, m + last);
  }

  /** Whatever was in the block buffer, update and final give the digest of the padded message. */
  lemma DigestIsReference(T: Transform, block: seq<byte>, msg: seq<byte>)
    requires |block| == 64
    ensures Finished(T, Updated(T, Context(0, START, block), msg)) == Reference(T, msg)
  {
    hide Feed, Fill, Updated, FoldBlocks, Padding, LengthBytes, FinalWords, Decode, Digest;
    var c := Updated(T, Context(0, START, block), msg);
    ContextAfter(T, block, msg);
    PaddingFill(|msg|);
    var pad, len8 := Padding(|msg|), LengthBytes(|msg|);
    UpdatedSplit(T, Context(0, START, block), msg, pad);
    ContextAfter(T, block, msg + pad);
    FeedLast(T, block, msg + pad, len8);
    LengthIsCount(Updated(T, c, pad).block, |msg|);
  }

  lemma PaddingFill(n: nat)
    ensures Padding(n % 64) == Padding(n)
  {
  }

  // ---------------------------------------------------------------- the context as the program keeps it

  class MD5_CTX {
    var i0: Word
    var i1: Word
    var buf: Quad
    const block: array<byte>
    var digest: seq<byte>

    ghost predicate Valid()
      reads this, block
    {
      block.Length == 64
    }

    ghost function Value(): (c: Context)
      requires Valid()
      reads this, block
      ensures |c.block| == 64 && c.bits < TWO64
    {
      Context(i0 + TWO32 * i1, buf, block[..])
    }

    /** MD5Init; the block buffer holds whatever was there. */
    constructor (garbage: seq<byte>)
      requires |garbage| == 64
      ensures Valid() && fresh(block) && Value() == Context(0, START, garbage)
    {
      i0, i1, buf, digest := 0, 0, START, [];
      block := new byte[64](i requires 0 <= i < 64 => garbage[i]);
      new;
      assert block[..] == garbage;
    }

    /** The block buffer as little-endian words, up to word n. */
    method Words(n: nat) returns (in_: seq<Word>)
      requires Valid() && n <= 16
      ensures in_ == Decode(block[..])[..n]
    {
      in_ := [];
      for i := 0 to n
        invariant in_ == Decode(block[..])[..i]
      {
        var ii := 4 * i;
        in_ := in_ + [block[ii + 3] as int * 0x100_0000 + block[ii + 2] as int * 0x1_0000 + block[ii + 1] as int * 0x100 + block[ii] as int];
      }
    }

    /** The bit count: a low and a high word with a carry between them. */
    method AddCount(n: nat)
      requires n < TWO32
      modifies this`i0, this`i1
      ensures i0 + TWO32 * i1 == (old(i0) + TWO32 * old(i1) + 8 * n) % TWO64
    {
      CountCarry(i0, i1, n);
      var add := 8 * n % TWO32;
      if (i0 + add) % TWO32 < i0 {
        i1 := (i1 + 1) % TWO32;
      }
      i0 := (i0 + add) % TWO32;
      i1 := (i1 + n / 0x2000_0000) % TWO32;
    }

    /** MD5Update: the count is brought up to date first. */
    method Update(T: Transform, inBuf: seq<byte>)
      requires Valid() && |inBuf| < TWO32
      modifies this, block
      ensures Valid() && Value() == Updated(T, old(Value()), inBuf)
    {
      var mdi := i0 / 8 % 64;
      FillOfWord(i0, i1);
      AddCount(|inBuf|);
      ghost var bits := i0 + TWO32 * i1;
      var k := 0;
      while k < |inBuf|
        invariant k <= |inBuf| && 0 <= mdi < 64 && i0 + TWO32 * i1 == bits
        invariant Feed(T, buf, block[..], mdi, inBuf[k..]) == Feed(T, old(buf), old(block[..]), Fill(old(Value()).bits), inBuf)
      {
        ghost var rest := inBuf[k..];
        ghost var was := block[..];
        block[mdi] := inBuf[k];
        mdi := mdi + 1;
        assert block[..] == was[mdi - 1 := rest[0]] && rest[1..] == inBuf[k + 1..];
        if mdi == 64 {
          var in_ := Words(16);
          assert in_ == Decode(block[..]);
          buf := T(buf, in_);
          mdi := 0;
        }
        k := k + 1;
      }
    }

    /** MD5Final */
    method Final(T: Transform)
      requires Valid()
      modifies this, block
      ensures digest == Finished(T, old(Value()))
    {
      var low, high := i0, i1;
      var mdi := i0 / 8 % 64;
      FillOfWord(i0, i1);
      var padLen := if mdi < 56 then 56 - mdi else 120 - mdi;
      assert PADDING[..padLen] == Padding(mdi);
      Update(T, PADDING[..padLen]);
      var in_ := Words(14);
      in_ := in_ + [low, high];
      CountWords(low, high);
      buf := T(buf, in_);
      digest := Digest(buf);
    }
  }

  const PADDING: seq<byte> := [0x80] + seq(63, _ => 0)

  lemma FillOfWord(i0: Word, i1: Word)
    ensures i0 / 8 % 64 == Fill(i0 + TWO32 * i1)
  {
    assert (i0 + TWO32 * i1) / 8 == i0 / 8 + 0x2000_0000 * i1;
  }

  lemma CountWords(i0: Word, i1: Word)
    ensures (i0 + TWO32 * i1) % TWO32 == i0 && (i0 + TWO32 * i1) / TWO32 == i1
  {
  }

  /** Adding to the low word, with the carry taken when the sum came out smaller, and then to the high word,
      counts modulo 2^64. */
  lemma CountCarry(i0: Word, i1: Word, n: nat)
    requires n < TWO32
    ensures var low := (i0 + 8 * n % TWO32) % TWO32;
            var high := (if low < i0 then (i1 + 1) % TWO32 else i1 as int);
            low + TWO32 * ((high + n / 0x2000_0000) % TWO32) == (i0 + TWO32 * i1 + 8 * n) % TWO64
  {
    var a, h := 8 * n % TWO32, n / 0x2000_0000;
    assert 8 * n == a + TWO32 * h;
    var c := if i0 + a >= TWO32 then 1 else 0;
    var low := (i0 + a) % TWO32;
    CarryBit(i0, a);
    ModHigh(low, i1 + c + h);
    WrapTwice(i1 + c, h);
    assert low + TWO32 * (i1 + c + h) == i0 + TWO32 * i1 + 8 * n;
  }

  lemma CarryBit(i0: Word, a: Word)
    ensures (i0 + a) % TWO32 == (if i0 + a >= TWO32 then i0 + a - TWO32 else i0 + a)
    ensures (i0 + a) % TWO32 < i0 <==> i0 + a >= TWO32
  {
  }

  lemma WrapTwice(x: nat, h: nat)
    ensures (x % TWO32 + h) % TWO32 == (x + h) % TWO32
  {
    assert x == TWO32 * (x / TWO32) + x % TWO32;
  }

  lemma ModHigh(low: Word, t: nat)
    ensures (low + TWO32 * t) % TWO64 == low + TWO32 * (t % TWO32)
  {
    assert t == TWO32 * (t / TWO32) + t % TWO32;
    assert low + TWO32 * t == TWO64 * (t / TWO32) + (low + TWO32 * (t % TWO32));
  }

  // ---------------------------------------------------------------- digests of files and of strings

  const DIGITS := "0123456789abcdef"

  function Hex(b: seq<byte>): string {
    if b == [] then "" else [DIGITS[b[0] / 16], DIGITS[b[0] % 16]] + Hex(b[1..])
  }

  /** Two digits a byte, in lower case, high digit first. */
  lemma HexExample()
    ensures Hex([0x1a, 0xf0, 0x07, 0xb6]) == "1af007b6"
  {
    assert Hex([0x07, 0xb6]) == "07b6" && Hex([0xf0, 0x07, 0xb6]) == "f007b6";
  }

  /** The loop of sprintf("%02x") over the digest. */
  method HexDigest(digest: seq<byte>) returns (s: string)
    ensures s == Hex(digest)
  {
    s := "";
    for i := 0 to |digest|
      invariant s + Hex(digest[i..]) == Hex(digest)
    {
      assert digest[i..][1..] == digest[i + 1..];
      s := s + [DIGITS[digest[i] / 16], DIGITS[digest[i] % 16]];
    }
  }

  /** get_md5: the file is read in pieces of at most BUFSIZ bytes; None for a file that does not open. */
  method GetMd5(T: Transform, file: Option<seq<byte>>, BUFSIZ: nat, garbage: seq<byte>) returns (s: Option<string>)
    requires 0 < BUFSIZ < TWO32 && |garbage| == 64
    ensures s == if file.None? then None else Some(Hex(Reference(T, file.value)))
  {
    if file.None? {
      return None;
    }
    hide Updated, Finished, Reference;
    var data := file.value;
    var ctx := new MD5_CTX(garbage);
    ghost var c0 := ctx.Value();
    UpdatedNone(T, c0);
    var pos := 0;
    while pos < |data|
      invariant pos <= |data| && ctx.Valid() && fresh(ctx) && fresh(ctx.block)
      invariant ctx.Value() == Updated(T, c0, data[..pos])
    {
      var bytes := if |data| - pos < BUFSIZ then |data| - pos else BUFSIZ;
      UpdatedSplit(T, c0, data[..pos], data[pos..pos + bytes]);
      assert data[..pos] + data[pos..pos + bytes] == data[..pos + bytes];
      ctx.Update(T, data[pos..pos + bytes]);
      pos := pos + bytes;
    }
    assert data[..pos] == data;
    DigestIsReference(T, garbage, data);
    ctx.Final(T);
    var text := HexDigest(ctx.digest);
    return Some(text);
  }

  lemma UpdatedNone(T: Transform, c: Context)
    requires |c.block| == 64 && c.bits < TWO64
    ensures Updated(T, c, []) == c
  {
  }

  /** get_md5_string */
  method GetMd5String(T: Transform, data: seq<byte>, garbage: seq<byte>) returns (s: string)
    requires |data| < 0x8000_0000 && |garbage| == 64
    ensures s == Hex(Reference(T, data))
  {
    hide Updated, Finished, Reference;
    var ctx := new MD5_CTX(garbage);
    DigestIsReference(T, garbage, data);
    ctx.Update(T, data);
    ctx.Final(T);
    s := HexDigest(ctx.digest);
  }
}
