/**
 * The id source of src/module/CheckpointManager.cpp: milliseconds, spider number and a counter packed into one
 * 64-bit number. The guard lets the counter reach 4096, one more than its twelve bits hold, and that decides
 * exactly when ids stay unique.
 */
module SpiderId {
  import opened Machine

  // ---------------------------------------------------------------- packing

  /** Bitwise or of non-negative numbers. */
  function Or(a: nat, b: nat): nat {
    if a == 0 then b
    else if b == 0 then a
    else (if a % 2 == 1 || b % 2 == 1 then 1 else 0) + 2 * Or(a / 2, b / 2)
  }

  function Pow2(k: nat): (p: nat)
    ensures p >= 1
  {
    if k == 0 then 1 else 2 * Pow2(k - 1)
  }

  const MS_MAX := 0x200_0000_0000      // 2^41
  const SPIDERS := 0x800               // 2^11
  const COUNTERS := 0x1000             // 2^12

  /** millisecond << 23 | pcid << 12, or'ed with the counter. */
  function Id(ms: nat, pcid: nat, c: nat): nat {
    Or(Or(ms * 0x80_0000, pcid * 0x1000), c)
  }

  /** Or with a number below the lowest bit of the other is a sum. */
  lemma {:induction false} OrDisjoint(x: nat, k: nat, b: nat)
    requires b < Pow2(k)
    ensures Or(x * Pow2(k), b) == x * Pow2(k) + b
    decreases k
  {
    if k > 0 && x > 0 && b > 0 {
      var p := Pow2(k - 1);
      assert x * Pow2(k) == 2 * (x * p);
      OrDisjoint(x, k - 1, b / 2);
      assert (x * Pow2(k)) / 2 == x * p && (x * Pow2(k)) % 2 == 0;
    } else if k == 0 || b == 0 {
    } else {
      assert x * Pow2(k) == 0;
    }
  }

  lemma OrDouble(a: nat, b: nat)
    ensures Or(2 * a, 2 * b) == 2 * Or(a, b)
  {
  }

  lemma Doubled(a: nat, k: nat)
    requires k > 0
    ensures a * Pow2(k) == 2 * (a * Pow2(k - 1))
  {
  }

  lemma PowZero()
    ensures Pow2(0) == 1
  {
  }

  lemma {:induction false} OrShift(a: nat, b: nat, k: nat)
    ensures Or(a * Pow2(k), b * Pow2(k)) == Or(a, b) * Pow2(k)
    decreases k
  {
    hide Or, Pow2;
    if k == 0 {
      PowZero();
      assert a * Pow2(0) == a && b * Pow2(0) == b && Or(a, b) * Pow2(0) == Or(a, b);
    } else {
      OrShift(a, b, k - 1);
      Doubled(a, k);
      Doubled(b, k);
      Doubled(Or(a, b), k);
      OrDouble(a * Pow2(k - 1), b * Pow2(k - 1));
    }
  }

  lemma Powers()
    ensures Pow2(11) == 0x800 && Pow2(12) == 0x1000 && Pow2(23) == 0x80_0000
  {
    assert Pow2(4) == 16;
    assert Pow2(8) == 256;
    assert Pow2(11) == 0x800;
    assert Pow2(15) == 0x8000;
    assert Pow2(19) == 0x8_0000;
  }

  /** The spider number that shows in the id: counter 4096 spills into its lowest bit. */
  function Shown(pcid: nat, c: nat): nat {
    if c < COUNTERS then pcid else if pcid % 2 == 1 then pcid else pcid + 1
  }

  function ShownCounter(c: nat): nat {
    if c < COUNTERS then c else 0
  }

  lemma Or23(x: nat, b: nat)
    requires b < 0x80_0000
    ensures Or(x * 0x80_0000, b) == x * 0x80_0000 + b
  {
    hide Or, Pow2;
    Powers();
    OrDisjoint(x, 23, b);
  }

  lemma Or12(x: nat, b: nat)
    requires b < 0x1000
    ensures Or(x * 0x1000, b) == x * 0x1000 + b
  {
    hide Or, Pow2;
    Powers();
    OrDisjoint(x, 12, b);
  }

  /** Counter 4096 is or'ed into the spider number's lowest bit. */
  lemma OrSpill(y: nat)
    ensures Or(y * 0x1000, 0x1000) == (if y % 2 == 1 then y else y + 1) * 0x1000
  {
    OddOr(y);
    hide Or, Pow2;
    Powers();
    OrShift(y, 1, 12);
  }

  /** The or'ed number, below and at the counter's limit. */
  lemma IdLow(ms: nat, pcid: nat, c: nat)
    requires pcid < 0x800 && c < 0x1000
    ensures Id(ms, pcid, c) == (ms * 0x800 + pcid) * 0x1000 + c
  {
    hide Or, Pow2;
    Or23(ms, pcid * 0x1000);
    Or12(ms * 0x800 + pcid, c);
  }

  lemma IdSpilt(ms: nat, pcid: nat)
    requires pcid < 0x800
    ensures Id(ms, pcid, 0x1000) == (ms * 0x800 + if pcid % 2 == 1 then pcid else pcid + 1) * 0x1000
  {
    hide Or, Pow2;
    Or23(ms, pcid * 0x1000);
    OrSpill(ms * 0x800 + pcid);
    assert (ms * 0x800 + pcid) % 2 == pcid % 2;
  }

  lemma IdValue(ms: nat, pcid: nat, c: nat)
    requires pcid < SPIDERS && c <= COUNTERS
    ensures Id(ms, pcid, c) == (ms * SPIDERS + Shown(pcid, c)) * COUNTERS + ShownCounter(c)
  {
    hide Id;
    if c < COUNTERS {
      IdLow(ms, pcid, c);
    } else {
      IdSpilt(ms, pcid);
    }
  }

  lemma OddOr(y: nat)
    ensures Or(y, 1) == if y % 2 == 1 then y else y + 1
  {
    if y > 1 { assert Or(y / 2, 0) == y / 2; }
  }

  lemma LowPart(x: int, b: int, x': int, b': int, n: int)
    requires 0 <= b < n && 0 <= b' < n
    ensures x < x' ==> x * n + b < x' * n + b'
    ensures x * n + b < x' * n + b' <==> x < x' || (x == x' && b < b')
    ensures x * n + b == x' * n + b' <==> x == x' && b == b'
  {
    Apart(x, x', n);
    Apart(x', x, n);
  }

  lemma Apart(x: int, x': int, n: int)
    requires n > 0
    ensures x < x' ==> x * n + n <= x' * n
  {
    if x < x' {
      AtLeastOne(x' - x, n);
      assert (x' - x) * n == x' * n - x * n;
    }
  }

  /** When two ids are equal, for all clocks, spiders and counters the code can reach. */
  lemma SameId(ms: nat, p: nat, c: nat, ms': nat, p': nat, c': nat)
    requires p < SPIDERS && p' < SPIDERS && c <= COUNTERS && c' <= COUNTERS
    ensures Id(ms, p, c) == Id(ms', p', c') <==> ms == ms' && Shown(p, c) == Shown(p', c') && ShownCounter(c) == ShownCounter(c')
    ensures Id(ms, p, c) < Id(ms', p', c') <==>
              ms < ms' || (ms == ms' && (Shown(p, c) < Shown(p', c') || (Shown(p, c) == Shown(p', c') && ShownCounter(c) < ShownCounter(c'))))
  {
    hide Id;
    IdValue(ms, p, c);
    IdValue(ms', p', c');
    LowPart(ms, Shown(p, c), ms', Shown(p', c'), SPIDERS);
    LowPart(ms * SPIDERS + Shown(p, c), ShownCounter(c), ms' * SPIDERS + Shown(p', c'), ShownCounter(c'), COUNTERS);
  }

  /** Within 64 bits nothing is shifted out. */
  lemma IdFits(ms: nat, pcid: nat, c: nat)
    requires ms < MS_MAX && pcid < SPIDERS && c <= COUNTERS
    ensures Id(ms, pcid, c) < 0x1_0000_0000_0000_0000
  {
    hide Id;
    IdValue(ms, pcid, c);
  }

  // ---------------------------------------------------------------- one call

  /** A clock reading: gettimeofday fails, or gives a time after the epoch. */
  datatype Reading = Failed | At(ms: nat)

  /** The static variables: the last millisecond an id was issued in, and the last counter. */
  datatype Stamp = Stamp(ms: nat, c: nat)

  /** Issued, given up because the clock could not be read (the call returns 0), or still polling. */
  datatype Outcome = Issued(id: nat) | ClockFailed | Polling

  /** One look at the clock: None means sleep and look again. */
  function Advance(last: Stamp, ms: nat): (r: seq<Stamp>)
    ensures |r| <= 1
  {
    if ms > last.ms then [Stamp(ms, 0)]
    else if ms == last.ms && last.c < COUNTERS then [Stamp(ms, last.c + 1)]
    else []
  }

  function Poll(last: Stamp, pcid: nat, clock: seq<Reading>): (Outcome, Stamp) {
    if clock == [] then (Polling, last)
    else if clock[0].Failed? then (ClockFailed, last)
    else
      var r := Advance(last, clock[0].ms);
      if r == [] then Poll(last, pcid, clock[1..]) else (Issued(Id(clock[0].ms, pcid, r[0].c)), r[0])
  }

  class IdSource {
    var lastMillisecond: nat
    var lastId: nat

    ghost function Last(): Stamp
      reads this
    {
      Stamp(lastMillisecond, lastId)
    }

    constructor ()
      ensures Last() == Stamp(0, 0)
    {
      lastMillisecond, lastId := 0, 0;
    }

    /** GetMaxID; clock is what gettimeofday says, one reading for each time round. */
    method GetMaxID(pcid: nat, clock: seq<Reading>) returns (r: Outcome)
      modifies this
      ensures (r, Last()) == Poll(old(Last()), pcid, clock)
    {
      var k := 0;
      while k < |clock|
        invariant k <= |clock| && Last() == old(Last())
        invariant Poll(old(Last()), pcid, clock) == Poll(old(Last()), pcid, clock[k..])
      {
        if clock[k].Failed? {
          return ClockFailed;
        }
        var millisecond := clock[k].ms;
        if millisecond > lastMillisecond {
          lastMillisecond := millisecond;
          lastId := 0;
          OrNothing(Or(millisecond * 0x80_0000, pcid * 0x1000));
          return Issued(Or(millisecond * 0x80_0000, pcid * 0x1000));
        } else if millisecond == lastMillisecond {
          if !(lastId > 4095) {
            lastId := lastId + 1;
            return Issued(Or(Or(millisecond * 0x80_0000, pcid * 0x1000), lastId));
          }
        }
        k := k + 1;
      }
      return Polling;
    }
  }

  lemma OrNothing(a: nat)
    ensures Or(a, 0) == a
  {
  }

  // ---------------------------------------------------------------- runs of one spider

  /** The stamps of the ids a run of calls issues; a call still polling keeps the mutex, so the run ends there. */
  function Trace(last: Stamp, clocks: seq<seq<Reading>>): seq<Stamp>
    decreases |clocks|
  {
    if clocks == [] then []
    else
      var (r, next) := Poll(last, 0, clocks[0]);
      match r
      case Issued(_) => [next] + Trace(next, clocks[1..])
      case ClockFailed => Trace(next, clocks[1..])
      case Polling => []
  }

  predicate Follows(a: Stamp, b: Stamp) {
    (b.ms > a.ms && b.c == 0) || (b.ms == a.ms && b.c == a.c + 1 && b.c <= COUNTERS)
  }

  /** A sequence of stamps as the code can issue them, starting from fresh statics. */
  ghost predicate Chain(tr: seq<Stamp>) {
    && (tr != [] ==> tr[0].c == 0)
    && forall i :: 0 <= i < |tr| - 1 ==> Follows(tr[i], tr[i + 1])
  }

  lemma {:induction false} PollFollows(last: Stamp, pcid: nat, clock: seq<Reading>)
    ensures var (r, next) := Poll(last, pcid, clock);
            if r.Issued? then Follows(last, next) && r.id == Id(next.ms, pcid, next.c) else next == last
    decreases |clock|
  {
    hide Id;
    if clock != [] && clock[0].At? && Advance(last, clock[0].ms) == [] {
      PollFollows(last, pcid, clock[1..]);
    }
  }

  lemma {:induction false} TraceFollows(last: Stamp, clocks: seq<seq<Reading>>)
    ensures var tr := Trace(last, clocks);
            && (tr != [] ==> Follows(last, tr[0]))
            && forall i :: 0 <= i < |tr| - 1 ==> Follows(tr[i], tr[i + 1])
    decreases |clocks|
  {
    if clocks != [] {
      hide Follows, Poll;
      var (r, next) := Poll(last, 0, clocks[0]);
      PollFollows(last, 0, clocks[0]);
      if !r.Polling? { TraceFollows(next, clocks[1..]); }
    }
  }

  /** Later stamps are later in the order of milliseconds, then counters. */
  lemma {:induction false} Later(tr: seq<Stamp>, i: nat, j: nat)
    requires Chain(tr) && i < j < |tr|
    ensures tr[i].ms < tr[j].ms || (tr[i].ms == tr[j].ms && tr[i].c + (j - i) == tr[j].c)
    ensures tr[j].c <= COUNTERS
    decreases j
  {
    assert Follows(tr[j - 1], tr[j]);
    if i < j - 1 { Later(tr, i, j - 1); }
  }

  /** A stamp with counter c is preceded by those with the smaller counters of its millisecond. */
  lemma {:induction false} Since(tr: seq<Stamp>, j: nat, c: nat)
    requires Chain(tr) && j < |tr| && c <= tr[j].c
    ensures c <= j && tr[j - c] == Stamp(tr[j].ms, tr[j].c - c)
    decreases c
  {
    if c > 0 {
      Since(tr, j, c - 1);
      assert Follows(tr[j - c], tr[j - c + 1]);
    }
  }

  /** Ids issued in a millisecond. */
  function Count(tr: seq<Stamp>, ms: nat): nat {
    if tr == [] then 0
    else Count(tr[..|tr| - 1], ms) + if tr[|tr| - 1].ms == ms then 1 else 0
  }

  lemma {:induction false} CountIsCounter(tr: seq<Stamp>, ms: nat)
    requires Chain(tr)
    ensures tr == [] ==> Count(tr, ms) == 0
    ensures tr != [] && ms == tr[|tr| - 1].ms ==> Count(tr, ms) == tr[|tr| - 1].c + 1
    ensures tr != [] && ms > tr[|tr| - 1].ms ==> Count(tr, ms) == 0
    decreases |tr|
  {
    if tr != [] {
      var n := |tr| - 1;
      assert forall i :: 0 <= i < n ==> tr[..n][i] == tr[i];
      CountIsCounter(tr[..n], ms);
      if n > 0 { assert Follows(tr[n - 1], tr[n]); }
    }
  }

  lemma {:induction false} CountGrows(tr: seq<Stamp>, n: nat, ms: nat)
    requires n <= |tr|
    ensures Count(tr[..n], ms) <= Count(tr, ms)
    decreases |tr|
  {
    if n == |tr| {
      assert tr[..n] == tr;
    } else {
      CountGrows(tr[..|tr| - 1], n, ms);
      assert tr[..|tr| - 1][..n] == tr[..n];
    }
  }

  /** The last stamp of a millisecond has the count of it. */
  lemma {:induction false} CountReached(tr: seq<Stamp>, ms: nat) returns (j: nat)
    requires Chain(tr) && Count(tr, ms) > 0
    ensures j < |tr| && tr[j].ms == ms && tr[j].c + 1 == Count(tr, ms)
    decreases |tr|
  {
    var n := |tr| - 1;
    if tr[n].ms == ms {
      CountIsCounter(tr, ms);
      j := n;
    } else {
      assert forall i :: 0 <= i < n ==> tr[..n][i] == tr[i];
      j := CountReached(tr[..n], ms);
    }
  }

  ghost predicate Bounded(tr: seq<Stamp>) {
    forall ms: nat :: Count(tr, ms) <= COUNTERS
  }

  /** No more than 4096 ids in any millisecond means that no counter reaches 4096. */
  lemma BoundedMeans(tr: seq<Stamp>)
    requires Chain(tr)
    ensures Bounded(tr) <==> forall i :: 0 <= i < |tr| ==> tr[i].c < COUNTERS
  {
    hide Chain;
    if Bounded(tr) {
      forall i | 0 <= i < |tr| ensures tr[i].c < COUNTERS {
        ChainPrefix(tr, i + 1);
        CountIsCounter(tr[..i + 1], tr[i].ms);
        CountGrows(tr, i + 1, tr[i].ms);
      }
    } else {
      var ms: nat :| Count(tr, ms) > COUNTERS;
      var j := CountReached(tr, ms);
    }
  }

  lemma ChainPrefix(tr: seq<Stamp>, n: nat)
    requires Chain(tr) && n <= |tr|
    ensures Chain(tr[..n])
  {
  }

  function IdOf(s: Stamp, pcid: nat): nat { Id(s.ms, pcid, s.c) }

  ghost predicate Increasing(tr: seq<Stamp>, pcid: nat) {
    forall i, j :: 0 <= i < j < |tr| ==> IdOf(tr[i], pcid) < IdOf(tr[j], pcid)
  }

  /** One spider's ids strictly increase over a whole run exactly when its number is even or no more than 4096
      ids fall into any millisecond; otherwise an id comes up twice. */
  lemma IncreasingIff(clocks: seq<seq<Reading>>, pcid: nat)
    requires pcid < SPIDERS
    requires forall k :: 0 <= k < |clocks| ==> Positive(clocks[k])
    ensures var tr := Trace(Stamp(0, 0), clocks);
            Increasing(tr, pcid) <==> pcid % 2 == 0 || Bounded(tr)
  {
    var tr := Trace(Stamp(0, 0), clocks);
    TraceIsChain(clocks);
    BoundedMeans(tr);
    hide Trace, Bounded, Chain, Id;
    if pcid % 2 == 0 || Bounded(tr) {
      forall i, j | 0 <= i < j < |tr| ensures IdOf(tr[i], pcid) < IdOf(tr[j], pcid) {
        Later(tr, i, j);
        if i > 0 { Later(tr, 0, i); } else { Since(tr, 0, 0); }
        AllReachable(tr, i);
        SameId(tr[i].ms, pcid, tr[i].c, tr[j].ms, pcid, tr[j].c);
      }
    } else {
      var j :| 0 <= j < |tr| && tr[j].c >= COUNTERS;
      AllReachable(tr, j);
      Since(tr, j, COUNTERS);
      SameId(tr[j].ms, pcid, 0, tr[j].ms, pcid, COUNTERS);
    }
  }

  /** Readings of the clock that all show one millisecond, one for each call. */
  function SameClock(ms: nat, n: nat): (c: seq<seq<Reading>>)
    ensures |c| == n && forall k :: 0 <= k < n ==> c[k] == [At(ms)]
  {
    seq(n, _ => [At(ms)])
  }

  lemma {:induction false} TraceSame(ms: nat, c: nat, n: nat)
    requires c + n <= COUNTERS
    ensures var tr := Trace(Stamp(ms, c), SameClock(ms, n));
            |tr| == n && forall i :: 0 <= i < n ==> tr[i] == Stamp(ms, c + 1 + i)
    decreases n
  {
    if n > 0 {
      assert SameClock(ms, n)[1..] == SameClock(ms, n - 1);
      TraceSame(ms, c + 1, n - 1);
    }
  }

  /** A run that leaves the bound: 4097 calls in one millisecond. With an odd number the last id is the first again. */
  lemma Overrun(ms: nat, pcid: nat)
    requires ms > 0 && pcid < SPIDERS
    ensures var tr := Trace(Stamp(0, 0), SameClock(ms, COUNTERS + 1));
            && |tr| == COUNTERS + 1 && !Bounded(tr)
            && (pcid % 2 == 1 ==> !Increasing(tr, pcid) && IdOf(tr[0], pcid) == IdOf(tr[COUNTERS], pcid))
  {
    hide Id, Bounded, Increasing;
    var clocks := SameClock(ms, COUNTERS + 1);
    var tr := Trace(Stamp(0, 0), clocks);
    assert clocks[1..] == SameClock(ms, COUNTERS);
    TraceSame(ms, 0, COUNTERS);
    assert tr[0] == Stamp(ms, 0) && tr[COUNTERS] == Stamp(ms, COUNTERS);
    assert forall k :: 0 <= k < |clocks| ==> Positive(clocks[k]);
    TraceIsChain(clocks);
    BoundedMeans(tr);
    IncreasingIff(clocks, pcid);
    SameId(ms, pcid, 0, ms, pcid, COUNTERS);
  }

  lemma AllReachable(tr: seq<Stamp>, i: nat)
    requires Chain(tr) && i < |tr|
    ensures tr[i].c <= COUNTERS
  {
    if i > 0 { Later(tr, 0, i); }
  }

  /** Readings are after the epoch. */
  predicate Positive(clock: seq<Reading>) {
    forall i :: 0 <= i < |clock| && clock[i].At? ==> clock[i].ms > 0
  }

  lemma {:induction false} PollPositive(last: Stamp, pcid: nat, clock: seq<Reading>)
    requires Positive(clock)
    ensures Poll(last, pcid, clock).0.Issued? ==> Poll(last, pcid, clock).1.ms > 0
    decreases |clock|
  {
    hide Id;
    if clock != [] && clock[0].At? && Advance(last, clock[0].ms) == [] {
      PollPositive(last, pcid, clock[1..]);
    }
  }

  lemma {:induction false} TraceStarts(clocks: seq<seq<Reading>>)
    requires forall k :: 0 <= k < |clocks| ==> Positive(clocks[k])
    ensures Trace(Stamp(0, 0), clocks) != [] ==> Trace(Stamp(0, 0), clocks)[0].ms > 0
    decreases |clocks|
  {
    if clocks != [] {
      hide Poll, Positive;
      PollPositive(Stamp(0, 0), 0, clocks[0]);
      PollFollows(Stamp(0, 0), 0, clocks[0]);
      TraceStarts(clocks[1..]);
    }
  }

  lemma TraceIsChain(clocks: seq<seq<Reading>>)
    requires forall k :: 0 <= k < |clocks| ==> Positive(clocks[k])
    ensures Chain(Trace(Stamp(0, 0), clocks))
  {
    hide Poll;
    TraceFollows(Stamp(0, 0), clocks);
    TraceStarts(clocks);
  }

  // ---------------------------------------------------------------- two spiders

  ghost predicate Share(tr: seq<Stamp>, p: nat, tr': seq<Stamp>, p': nat) {
    exists i, j :: 0 <= i < |tr| && 0 <= j < |tr'| && IdOf(tr[i], p) == IdOf(tr'[j], p')
  }

  ghost predicate Spills(tr: seq<Stamp>, tr': seq<Stamp>) {
    exists ms: nat :: Count(tr, ms) > COUNTERS && Count(tr', ms) > 0
  }

  lemma CountAt(tr: seq<Stamp>, i: nat)
    requires Chain(tr) && i < |tr|
    ensures Count(tr, tr[i].ms) > tr[i].c
  {
    hide Chain;
    ChainPrefix(tr, i + 1);
    CountIsCounter(tr[..i + 1], tr[i].ms);
    CountGrows(tr, i + 1, tr[i].ms);
  }

  /** Two spiders come up with the same id exactly when their numbers are 2k and 2k + 1 and the even one issues
      more than 4096 ids in a millisecond in which the odd one issues any. */
  lemma ShareIff(tr: seq<Stamp>, p: nat, tr': seq<Stamp>, p': nat)
    requires Chain(tr) && Chain(tr') && p < p' < SPIDERS
    ensures Share(tr, p, tr', p') <==> p % 2 == 0 && p' == p + 1 && Spills(tr, tr')
  {
    hide Id, Chain, Count;
    if Share(tr, p, tr', p') {
      var i, j :| 0 <= i < |tr| && 0 <= j < |tr'| && IdOf(tr[i], p) == IdOf(tr'[j], p');
      AllReachable(tr, i);
      AllReachable(tr', j);
      SameId(tr[i].ms, p, tr[i].c, tr'[j].ms, p', tr'[j].c);
      CountAt(tr, i);
      CountAt(tr', j);
      assert Count(tr, tr[i].ms) > COUNTERS && Count(tr', tr[i].ms) > 0;
    }
    if p % 2 == 0 && p' == p + 1 && Spills(tr, tr') {
      var ms: nat :| Count(tr, ms) > COUNTERS && Count(tr', ms) > 0;
      var i := CountReached(tr, ms);
      AllReachable(tr, i);
      var j := CountReached(tr', ms);
      Since(tr', j, tr'[j].c);
      SameId(ms, p, COUNTERS, ms, p', 0);
      assert IdOf(tr[i], p) == IdOf(tr'[j - tr'[j].c], p');
    }
  }
}
