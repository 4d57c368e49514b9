/**
 * What several modules share: bytes, word sizes, the positional character sum that two components hash keys with,
 * and the remainder by repeated subtraction.
 */
module Machine {
  type byte = x: int | 0 <= x < 256

  datatype Option<+T> = None | Some(value: T)

  const TWO32 := 0x1_0000_0000
  const TWO64 := 0x1_0000_0000_0000_0000

  /** A byte read as a signed character. */
  function SignedByte(c: int): int {
    if c < 128 then c else c - 256
  }

  /** Characters times their 1-based positions, summed in an unsigned long. */
  function HashSum(key: string, i: nat, acc: nat): nat
    requires i <= |key|
    decreases |key| - i
  {
    if i == |key| then acc
    else HashSum(key, i + 1, (acc + SignedByte(key[i] as int) * (i + 1)) % TWO64)
  }

  lemma {:induction false} HashSumMore(key: string, c: char, i: nat, acc: nat)
    requires i <= |key|
    ensures HashSum(key + [c], i, acc) == (HashSum(key, i, acc) + SignedByte(c as int) * (|key| + 1)) % TWO64
    decreases |key| - i
  {
    if i < |key| {
      HashSumMore(key, c, i + 1, (acc + SignedByte(key[i] as int) * (i + 1)) % TWO64);
    }
  }

  /** The sum of a key is 0 when it is empty, and one more character adds it, times its position. */
  lemma HashSumIs(key: string, c: char)
    ensures HashSum("", 0, 0) == 0
    ensures HashSum(key + [c], 0, 0) == (HashSum(key, 0, 0) + SignedByte(c as int) * (|key| + 1)) % 0x1_0000_0000_0000_0000
  {
    HashSumMore(key, c, 0, 0);
  }

  /** The remainder by repeated subtraction, so that proofs about hash chains stay clear of division. */
  function Bucket(h: nat, n: nat): (b: nat)
    requires n > 0
    ensures b < n
    decreases h
  {
    if h < n then h else Bucket(h - n, n)
  }

  lemma AtLeastOne(d: int, n: int)
    requires n > 0 && d >= 1
    ensures d * n >= n
  {
    assert d * n == (d - 1) * n + n;
  }

  lemma RemainderUnique(a: int, r: int, b: int, q: int, n: int)
    requires n > 0 && 0 <= r < n && 0 <= q < n && a * n + r == b * n + q
    ensures r == q
  {
    assert (a - b) * n == a * n - b * n;
    assert (b - a) * n == b * n - a * n;
    if a > b { AtLeastOne(a - b, n); }
    if b > a { AtLeastOne(b - a, n); }
  }

  lemma {:induction false} BucketIsMod(h: nat, n: nat)
    requires n > 0
    ensures Bucket(h, n) == h % n
    decreases h
  {
    if h < n {
      assert 0 * n == 0;
      RemainderUnique(h / n, h % n, 0, h, n);
    } else {
      BucketIsMod(h - n, n);
      assert (h - n) / n * n + n == ((h - n) / n + 1) * n;
      RemainderUnique(h / n, h % n, (h - n) / n + 1, (h - n) % n, n);
    }
  }
}
