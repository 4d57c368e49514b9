/**
 * The chained hash table of src/tools/hash_table.c: entries linked into buckets, the bucket array doubled
 * when there are more entries than buckets. Chains are heap nodes relinked in place; the map from keys to
 * entry objects is what every operation is specified by.
 */
module HashTable {
  import opened Machine

  type Key = seq<byte>

  // ---------------------------------------------------------------- hashing

  /** h * 33 + k[i] in an unsigned int, characters signed. */
  function HashFrom(key: Key, i: nat, h: nat): (r: nat)
    requires i <= |key|
    decreases |key| - i
  {
    if i == |key| then h else HashFrom(key, i + 1, (h * 33 + SignedByte(key[i])) % TWO32)
  }

  function SlotOf(key: Key, buckets: nat): (b: nat)
    requires buckets > 0
    ensures b < buckets
  {
    Bucket(HashFrom(key, 0, 0), buckets)
  }

  method Hash(key: Key, buckets: nat) returns (b: nat)
    requires buckets > 0
    ensures b == SlotOf(key, buckets)
  {
    var h := 0;
    for i := 0 to |key|
      invariant h >= 0 && HashFrom(key, i, h) == HashFrom(key, 0, 0)
    {
      h := (h * 33 + SignedByte(key[i])) % TWO32;
    }
    BucketIsMod(h, buckets);
    b := h % buckets;
  }

  // ---------------------------------------------------------------- chains

  class HashEntry {
    const key: Key
    var value: int
    var next: HashEntry?

    constructor (key: Key, value: int)
      ensures this.key == key && this.value == value && next == null
    {
      this.key, this.value, next := key, value, null;
    }
  }

  function At(q: seq<HashEntry>, a: nat): HashEntry? {
    if a < |q| then q[a] else null
  }

  /** The nodes q, in order, are what following next from h meets. */
  ghost predicate Links(h: HashEntry?, q: seq<HashEntry>)
    reads q
  {
    && h == At(q, 0)
    && forall a {:trigger q[a].next} :: 0 <= a < |q| ==> q[a].next == At(q, a + 1)
  }

  predicate Distinct(q: seq<HashEntry>) {
    forall a, c :: 0 <= a < c < |q| ==> q[a] != q[c]
  }

  /** Every entry of m is in the chain its key hashes to, and the chains hold nothing else. */
  ghost predicate Filed(chains: seq<seq<HashEntry>>, m: map<Key, HashEntry>, nodes: set<HashEntry>) {
    && |chains| > 0
    && (forall b, e :: 0 <= b < |chains| && e in chains[b] ==>
          e.key in m && m[e.key] == e && e in nodes && SlotOf(e.key, |chains|) == b)
    && (forall k :: k in m ==> m[k].key == k && m[k] in chains[SlotOf(k, |chains|)])
    && (forall b :: 0 <= b < |chains| ==> Distinct(chains[b]))
  }

  lemma FiledPut(chains: seq<seq<HashEntry>>, m: map<Key, HashEntry>, nodes: set<HashEntry>,
                 b: nat, e: HashEntry, q: seq<HashEntry>)
    requires Filed(chains, m, nodes) && e.key !in m && b < |chains| && SlotOf(e.key, |chains|) == b
    requires q == [e] + chains[b] || q == chains[b] + [e]
    ensures Filed(chains[b := q], m[e.key := e], nodes + {e})
  {
    hide SlotOf;
    assert forall x :: x in q <==> x == e || x in chains[b];
  }

  lemma NotChained(chains: seq<seq<HashEntry>>, m: map<Key, HashEntry>, nodes: set<HashEntry>, e: HashEntry)
    requires Filed(chains, m, nodes) && e.key !in m
    ensures forall c, a :: 0 <= c < |chains| && 0 <= a < |chains[c]| ==> chains[c][a] != e
  {
    hide SlotOf, Distinct;
  }

  lemma AtFiled(chains: seq<seq<HashEntry>>, m: map<Key, HashEntry>, nodes: set<HashEntry>, b: nat, a: nat)
    requires Filed(chains, m, nodes) && b < |chains| && a < |chains[b]|
    ensures var e := chains[b][a]; e.key in m && m[e.key] == e
  {
    hide SlotOf, Distinct;
    assert chains[b][a] in chains[b];
  }

  lemma OneChain(chains: seq<seq<HashEntry>>, m: map<Key, HashEntry>, nodes: set<HashEntry>, b: nat, e: HashEntry)
    requires Filed(chains, m, nodes) && b < |chains| && e in chains[b]
    ensures forall c :: 0 <= c < |chains| && c != b ==> e !in chains[c]
  {
    hide Distinct;
    assert SlotOf(e.key, |chains|) == b;
    forall c | 0 <= c < |chains| && e in chains[c] ensures c == b {
      assert SlotOf(e.key, |chains|) == c;
    }
  }

  lemma FiledLess(chains: seq<seq<HashEntry>>, less: seq<seq<HashEntry>>, m: map<Key, HashEntry>, nodes: set<HashEntry>, e: HashEntry)
    requires Filed(chains, m, nodes) && e.key in m && m[e.key] == e && |less| == |chains|
    requires forall c, x :: 0 <= c < |less| ==> (x in less[c] <==> x in chains[c] && x != e)
    requires forall c :: 0 <= c < |less| ==> Distinct(less[c])
    ensures Filed(less, m - {e.key}, nodes)
  {
    hide SlotOf, Distinct;
  }

  lemma FiledRemove(chains: seq<seq<HashEntry>>, m: map<Key, HashEntry>, nodes: set<HashEntry>, b: nat, a: nat)
    requires Filed(chains, m, nodes) && b < |chains| && a < |chains[b]|
    ensures chains[b][a].key in m
    ensures Filed(chains[b := chains[b][..a] + chains[b][a + 1..]], m - {chains[b][a].key}, nodes)
    ensures |m - {chains[b][a].key}| == |m| - 1
  {
    hide SlotOf;
    var e := chains[b][a];
    assert e in chains[b];
    RemoveOne(chains[b], a);
    OneChain(chains, m, nodes, b, e);
    FiledLess(chains, chains[b := chains[b][..a] + chains[b][a + 1..]], m, nodes, e);
    assert m == (m - {e.key})[e.key := e];
  }

  lemma RemoveOne(q: seq<HashEntry>, a: nat)
    requires a < |q| && Distinct(q)
    ensures var r := q[..a] + q[a + 1..];
            Distinct(r) && forall x :: x in r <==> x in q && x != q[a]
  {
    var r := q[..a] + q[a + 1..];
    assert forall c :: 0 <= c < |r| ==> r[c] == q[if c < a then c else c + 1];
    forall x | x in q && x != q[a] ensures x in r {
      var c :| 0 <= c < |q| && q[c] == x;
      assert r[if c < a then c else c - 1] == x;
    }
  }

  // ---------------------------------------------------------------- bucket counts

  /** Bucket counts are 256 doubled k times. */
  function Size(k: nat): (s: nat)
    ensures s >= 256
  {
    if k == 0 then 256 else 2 * Size(k - 1)
  }

  /** Doubling s until it is at least n. */
  function SizeFor(s: nat, n: int): nat
    requires s > 0
    decreases n - s
  {
    if s < n then SizeFor(2 * s, n) else s
  }

  lemma SizeGrows(j: nat, k: nat)
    requires j <= k
    ensures Size(j) <= Size(k) && (j < k ==> Size(j) < Size(k))
    decreases k
  {
    if j < k { SizeGrows(j, k - 1); }
  }

  lemma SizeDoubles(k: nat)
    ensures Size(k + 1) == 2 * Size(k)
  {
  }

  /** A bucket count is its own size: asking for twice the buckets gives exactly twice. */
  lemma {:induction false} SizeForSize(j: nat, k: nat)
    requires j <= k
    ensures SizeFor(Size(j), Size(k)) == Size(k)
    decreases k - j
  {
    SizeGrows(j, k);
    if j < k {
      assert Size(j + 1) == 2 * Size(j);
      SizeForSize(j + 1, k);
    }
  }

  // ---------------------------------------------------------------- the table

  class Table {
    var entries: nat
    var buckets: nat
    var bucket: array<HashEntry?>
    ghost var scale: nat
    ghost var chains: seq<seq<HashEntry>>
    ghost var contents: map<Key, HashEntry>
    ghost var nodes: set<HashEntry>

    ghost predicate Valid()
      reads this, bucket, nodes
    {
      && Linked() && entries <= buckets + 1
    }

    /** Valid without the bound on the load. */
    ghost predicate Linked()
      reads this, bucket, nodes
    {
      && buckets == Size(scale) == bucket.Length == |chains|
      && entries == |contents|
      && Filed(chains, contents, nodes)
      && (forall b :: 0 <= b < buckets ==> Links(bucket[b], chains[b]))
    }

    /** create_hash_table */
    constructor (initSize: int)
      ensures Valid() && fresh(bucket) && contents == map[] && nodes == {}
      ensures initSize <= buckets && (buckets == 256 || buckets < 2 * initSize)
      ensures forall k :: initSize == Size(k) ==> buckets == initSize
    {
      var s: nat := 256;
      ghost var k: nat := 0;
      while s < initSize
        invariant s == Size(k) && SizeFor(s, initSize) == SizeFor(256, initSize)
        invariant s == 256 || s < 2 * initSize
      {
        s := s * 2;
        k := k + 1;
      }
      entries, buckets, scale := 0, s, k;
      bucket := new HashEntry?[s](_ => null);
      chains, contents, nodes := seq(s, _ => []), map[], {};
      new;
      forall j | initSize == Size(j) ensures buckets == initSize {
        SizeForSize(0, j);
      }
    }

    /** Walk the chain of bucket b up to the entry for key; prev is the entry before it. */
    method Walk(b: nat, key: Key) returns (prev: HashEntry?, cur: HashEntry?, ghost a: nat)
      requires Valid() && b == SlotOf(key, buckets)
      ensures b < buckets && a <= |chains[b]| && cur == At(chains[b], a)
      ensures prev == if a == 0 then null else chains[b][a - 1]
      ensures cur == if key in contents then contents[key] else null
      ensures cur != null ==> cur.key == key
    {
      ghost var q := chains[b];
      a := 0;
      prev, cur := null, bucket[b];
      while cur != null && cur.key != key
        invariant a <= |q| && cur == At(q, a)
        invariant prev == if a == 0 then null else q[a - 1]
        invariant forall c :: 0 <= c < a ==> q[c].key != key
        decreases |q| - a
      {
        prev, cur := cur, cur.next;
        a := a + 1;
      }
    }

    /** hash_find */
    method Find(key: Key) returns (r: HashEntry?)
      requires Valid()
      ensures r == if key in contents then contents[key] else null
    {
      var b := Hash(key, buckets);
      var prev, cur;
      ghost var a;
      prev, cur, a := Walk(b, key);
      r := cur;
    }

    /** Link an entry at the head of its chain. */
    method Adopt(b: nat, entry: HashEntry)
      requires Linked() && entry.key !in contents && b == SlotOf(entry.key, buckets)
      modifies this, bucket, entry`next
      ensures Linked() && nodes == old(nodes) + {entry} && contents == old(contents)[entry.key := entry] && entries == old(entries) + 1
      ensures buckets == old(buckets) && bucket == old(bucket)
    {
      hide SlotOf, Size, Filed;
      ghost var q := [entry] + chains[b];
      NotChained(chains, contents, nodes, entry);
      FiledPut(chains, contents, nodes, b, entry, q);
      entry.next := bucket[b];
      bucket[b] := entry;
      entries := entries + 1;
      contents, nodes := contents[entry.key := entry], nodes + {entry};
      chains := chains[b := q];
    }

    /** Entries are being moved out of the chains: those from chain i on are still linked. */
    ghost predicate Draining(i: nat)
      reads this, bucket, nodes
    {
      && buckets == Size(scale) == bucket.Length == |chains|
      && Filed(chains, contents, nodes)
      && (forall b :: i <= b < buckets ==> Links(bucket[b], chains[b]))
    }

    method DrainChain(i: nat, t: Table)
      requires i < buckets && Draining(i) && t.Linked() && t != this && t.bucket != bucket && t.nodes <= nodes
      requires Moved(chains, contents, t.contents, i, 0)
      modifies t, t.bucket, nodes`next
      ensures Draining(i + 1) && t.Linked() && t.nodes <= nodes
      ensures Moved(chains, contents, t.contents, i + 1, 0)
      ensures t.bucket == old(t.bucket) && t.buckets == old(t.buckets)
    {
      hide SlotOf, Size, Filed, Moved;
      var entry := bucket[i];
      ghost var j := 0;
      while entry != null
        invariant j <= |chains[i]| && entry == At(chains[i], j)
        invariant t.Linked() && t.bucket == old(t.bucket) && t.buckets == old(t.buckets) && t.nodes <= nodes
        invariant Moved(chains, contents, t.contents, i, j)
        invariant forall a {:trigger chains[i][a].next} :: j <= a < |chains[i]| ==> chains[i][a].next == At(chains[i], a + 1)
        invariant forall b :: i < b < buckets ==> Links(bucket[b], chains[b])
        decreases |chains[i]| - j
      {
        MovedStep(chains, contents, nodes, t.contents, i, j);
        var next := entry.next;
        var h := Hash(entry.key, t.buckets);
        t.Adopt(h, entry);
        entry := next;
        j := j + 1;
      }
      MovedChain(chains, contents, t.contents, i);
    }

    /** rehash */
    method Rehash()
      requires Linked()
      modifies this, nodes`next
      ensures Linked() && fresh(bucket) && nodes <= old(nodes)
      ensures contents == old(contents) && entries == old(entries) && buckets == 2 * old(buckets)
    {
      hide SlotOf, Filed, Moved, Links, Size;
      SizeDoubles(scale);
      var t := new Table(2 * buckets);
      MovedNone(chains, contents);
      var i := 0;
      ghost var room := t.bucket;
      while i < buckets
        invariant i <= buckets && Draining(i)
        invariant t.Linked() && t.bucket == room && t.buckets == 2 * buckets && t.nodes <= nodes
        invariant Moved(chains, contents, t.contents, i, 0)
        modifies t, t.bucket, nodes`next
      {
        DrainChain(i, t);
        i := i + 1;
      }
      MovedAll(chains, contents, nodes, t.contents);
      assert t.entries == entries;
      Assign(t);
    }

    /** The assignment of one table structure to another. */
    method Assign(t: Table)
      requires t.Linked()
      modifies this
      ensures Linked() && entries == t.entries && buckets == t.buckets && bucket == t.bucket
      ensures nodes == t.nodes && contents == t.contents
    {
      hide Filed, Links, Size;
      entries, buckets, bucket := t.entries, t.buckets, t.bucket;
      chains, contents, nodes, scale := t.chains, t.contents, t.nodes, t.scale;
    }

    // -------------------------------------------------------------- lookup, insertion, removal

    /** Link a new entry after prev, the last one of chain b. */
    method Append(b: nat, prev: HashEntry?, entry: HashEntry)
      requires Linked() && entry.key !in contents && b == SlotOf(entry.key, buckets) && entry.next == null
      requires prev == if chains[b] == [] then null else chains[b][|chains[b]| - 1]
      modifies this, bucket, nodes`next
      ensures Linked() && contents == old(contents)[entry.key := entry] && entries == old(entries) + 1
      ensures buckets == old(buckets) && bucket == old(bucket) && nodes == old(nodes) + {entry}
    {
      hide SlotOf, Size, Filed;
      ghost var q := chains[b] + [entry];
      NotChained(chains, contents, nodes, entry);
      Apart(chains, contents, nodes, b);
      FiledPut(chains, contents, nodes, b, entry, q);
      entries := entries + 1;
      if prev == null {
        bucket[b] := entry;
      } else {
        prev.next := entry;
      }
      contents, nodes := contents[entry.key := entry], nodes + {entry};
      chains := chains[b := q];
    }

    /** hash_lookup: the entry for key, or with add a new one; one doubling at most, and none when the key is there. */
    method Lookup(key: Key, value: int, add: bool) returns (r: HashEntry?, found: bool)
      requires Valid()
      modifies this, bucket, nodes`next
      ensures Valid() && (bucket == old(bucket) || fresh(bucket))
      ensures found <==> key in old(contents)
      ensures found ==> r == old(contents)[key]
      ensures !found && !add ==> r == null
      ensures found || !add ==> unchanged(this) && unchanged(bucket) && unchanged(old(nodes)`next)
      ensures !found && add ==> r != null && fresh(r) && r.key == key && r.value == value
      ensures !found && add ==> contents == old(contents)[key := r] && nodes <= old(nodes) + {r}
      ensures !found && add ==> buckets == if old(entries) > old(buckets) then 2 * old(buckets) else old(buckets)
      decreases if entries > buckets then 1 else 0
    {
      hide SlotOf, Size, Filed, Links;
      var b := Hash(key, buckets);
      var prev, cur;
      ghost var a;
      prev, cur, a := Walk(b, key);
      found := cur != null;
      if cur == null && !add {
        return null, found;
      }
      if cur != null {
        return cur, found;
      }
      if entries > buckets {
        Rehash();
        r, found := Lookup(key, value, add);
        return;
      }
      var new_ := new HashEntry(key, value);
      Append(b, prev, new_);
      r := new_;
    }

    /** hash_find_or_add */
    method FindOrAdd(key: Key, value: int) returns (r: HashEntry, found: bool)
      requires Valid()
      modifies this, bucket, nodes`next
      ensures Valid() && (bucket == old(bucket) || fresh(bucket))
      ensures found <==> key in old(contents)
      ensures found ==> r == old(contents)[key] && contents == old(contents)
      ensures !found ==> fresh(r) && r.key == key && r.value == value && contents == old(contents)[key := r]
      ensures fresh(nodes - old(nodes))
      ensures contents == MapStep(old(contents), Insert(key, r))
    {
      hide Valid;
      r, found := Lookup(key, value, true);
    }

    /** hash_remove */
    method Remove(key: Key)
      requires Valid()
      modifies this, bucket, nodes`next
      ensures Valid() && bucket == old(bucket) && nodes == old(nodes)
      ensures entries == old(entries) - if key in old(contents) then 1 else 0
      ensures contents == MapStep(old(contents), Drop(key))
    {
      hide SlotOf, Size, Filed, Links;
      var b := Hash(key, buckets);
      var prev, cur;
      ghost var a;
      prev, cur, a := Walk(b, key);
      if cur != null {
        AtFiled(chains, contents, nodes, b, a);
        Unlink(b, prev, cur, a);
      } else {
        assert contents - {key} == contents;
      }
    }

    /** Lead the chain past its a-th node. */
    method Bypass(b: nat, prev: HashEntry?, cur: HashEntry, ghost a: nat)
      requires buckets == bucket.Length == |chains| && b < buckets && a < |chains[b]| && cur == chains[b][a]
      requires prev == if a == 0 then null else chains[b][a - 1]
      requires forall c :: 0 <= c < buckets ==> Links(bucket[c], chains[c])
      requires forall c :: 0 <= c < |chains[b]| ==> chains[b][c] in nodes
      requires forall c, d, e :: 0 <= c < |chains[b]| && 0 <= d < |chains| && 0 <= e < |chains[d]| && d != b ==>
                 chains[b][c] != chains[d][e]
      requires Distinct(chains[b])
      modifies `chains, bucket, nodes`next
      ensures chains == old(chains)[b := old(chains)[b][..a] + old(chains)[b][a + 1..]]
      ensures forall c :: 0 <= c < buckets ==> Links(bucket[c], chains[c])
    {
      if prev == null {
        bucket[b] := cur.next;
      } else {
        prev.next := cur.next;
      }
      chains := chains[b := chains[b][..a] + chains[b][a + 1..]];
    }

    method Unlink(b: nat, prev: HashEntry?, cur: HashEntry, ghost a: nat)
      requires Linked() && b < buckets && a < |chains[b]| && cur == chains[b][a]
      requires prev == if a == 0 then null else chains[b][a - 1]
      modifies this, bucket, nodes`next
      ensures Linked() && cur.key in old(contents) && contents == old(contents) - {cur.key} && bucket == old(bucket)
      ensures nodes == old(nodes)
      ensures buckets == old(buckets) && entries == old(entries) - 1
    {
      hide SlotOf, Size, Filed, Distinct, Links;
      Apart(chains, contents, nodes, b);
      FiledRemove(chains, contents, nodes, b, a);
      Bypass(b, prev, cur, a);
      entries := entries - 1;
      contents := contents - {cur.key};
    }

    /** hash_map: what the callback is called with, in order. */
    method Visit() returns (seen: seq<HashEntry>)
      requires Valid()
      ensures Distinct(seen)
      ensures forall e :: e in seen <==> e.key in contents && contents[e.key] == e
    {
      hide SlotOf, Size, Filed;
      seen := [];
      var i := 0;
      while i < buckets
        invariant i <= buckets && seen == Flat(chains, i)
      {
        var entry := bucket[i];
        ghost var j := 0;
        while entry != null
          invariant j <= |chains[i]| && entry == At(chains[i], j) && seen == Flat(chains, i) + chains[i][..j]
          decreases |chains[i]| - j
        {
          seen := seen + [entry];
          entry := entry.next;
          j := j + 1;
        }
        i := i + 1;
      }
      FlatIsTable(chains, contents, nodes);
    }
  }

  lemma Apart(chains: seq<seq<HashEntry>>, m: map<Key, HashEntry>, nodes: set<HashEntry>, b: nat)
    requires Filed(chains, m, nodes) && b < |chains|
    ensures forall a :: 0 <= a < |chains[b]| ==> chains[b][a] in nodes
    ensures forall a, c, d :: 0 <= a < |chains[b]| && 0 <= c < |chains| && 0 <= d < |chains[c]| && c != b ==>
              chains[b][a] != chains[c][d]
    ensures Distinct(chains[b])
  {
    forall a | 0 <= a < |chains[b]| ensures chains[b][a] in nodes && forall c :: 0 <= c < |chains| && c != b ==> chains[b][a] !in chains[c] {
      OneChain(chains, m, nodes, b, chains[b][a]);
    }
  }

  // ---------------------------------------------------------------- visiting every entry

  function Flat(chains: seq<seq<HashEntry>>, i: nat): seq<HashEntry>
    requires i <= |chains|
  {
    if i == 0 then [] else Flat(chains, i - 1) + chains[i - 1]
  }

  ghost predicate InSome(chains: seq<seq<HashEntry>>, i: nat, e: HashEntry) {
    exists b :: 0 <= b < i <= |chains| && e in chains[b]
  }

  lemma InSomeStep(chains: seq<seq<HashEntry>>, i: nat, e: HashEntry)
    requires 0 < i <= |chains|
    ensures InSome(chains, i, e) <==> InSome(chains, i - 1, e) || e in chains[i - 1]
  {
    if InSome(chains, i, e) {
      var b :| 0 <= b < i && e in chains[b];
      assert b < i - 1 || b == i - 1;
    }
  }

  lemma DistinctJoin(p: seq<HashEntry>, q: seq<HashEntry>)
    requires Distinct(p) && Distinct(q) && forall e :: e in q ==> e !in p
    ensures Distinct(p + q)
  {
    assert forall c :: |p| <= c < |p + q| ==> (p + q)[c] in q;
  }

  lemma {:induction false} FlatOnce(chains: seq<seq<HashEntry>>, m: map<Key, HashEntry>, nodes: set<HashEntry>, i: nat)
    requires Filed(chains, m, nodes) && i <= |chains|
    ensures Distinct(Flat(chains, i))
    ensures forall e :: e in Flat(chains, i) <==> InSome(chains, i, e)
  {
    if i > 0 {
      FlatOnce(chains, m, nodes, i - 1);
      var q := chains[i - 1];
      forall e | e in q ensures e !in Flat(chains, i - 1) {
        OneChain(chains, m, nodes, i - 1, e);
      }
      DistinctJoin(Flat(chains, i - 1), q);
      forall e: HashEntry ensures e in Flat(chains, i) <==> InSome(chains, i, e) {
        InSomeStep(chains, i, e);
      }
    }
  }

  lemma InSomeIsFiled(chains: seq<seq<HashEntry>>, m: map<Key, HashEntry>, nodes: set<HashEntry>, e: HashEntry)
    requires Filed(chains, m, nodes)
    ensures InSome(chains, |chains|, e) <==> e.key in m && m[e.key] == e
  {
    if e.key in m && m[e.key] == e {
      assert e in chains[SlotOf(e.key, |chains|)];
    }
  }

  /** Chain after chain, every entry of the table appears, and appears once. */
  lemma FlatIsTable(chains: seq<seq<HashEntry>>, m: map<Key, HashEntry>, nodes: set<HashEntry>)
    requires Filed(chains, m, nodes)
    ensures Distinct(Flat(chains, |chains|))
    ensures forall e :: e in Flat(chains, |chains|) <==> e.key in m && m[e.key] == e
  {
    hide SlotOf, Filed, Flat, Distinct, InSome;
    FlatOnce(chains, m, nodes, |chains|);
    forall e: HashEntry ensures e in Flat(chains, |chains|) <==> e.key in m && m[e.key] == e {
      InSomeIsFiled(chains, m, nodes, e);
    }
  }

  /** n has the entries of the chains before i and of the first j of chain i, and no others. */
  ghost predicate Moved(chains: seq<seq<HashEntry>>, m: map<Key, HashEntry>, n: map<Key, HashEntry>, i: nat, j: nat) {
    && (forall k :: k in n ==> k in m && n[k] == m[k])
    && (forall b, a :: 0 <= b < |chains| && 0 <= a < |chains[b]| ==>
          (chains[b][a].key in n <==> b < i || (b == i && a < j)))
  }

  lemma MovedNone(chains: seq<seq<HashEntry>>, m: map<Key, HashEntry>)
    ensures Moved(chains, m, map[], 0, 0)
  {
  }

  lemma MovedStep(chains: seq<seq<HashEntry>>, m: map<Key, HashEntry>, nodes: set<HashEntry>, n: map<Key, HashEntry>, i: nat, j: nat)
    requires Filed(chains, m, nodes) && i < |chains| && j < |chains[i]| && Moved(chains, m, n, i, j)
    ensures var e := chains[i][j];
            e in nodes && e.key !in n && Moved(chains, m, n[e.key := e], i, j + 1)
    ensures forall b, a :: 0 <= b < |chains| && 0 <= a < |chains[b]| && !(b == i && a == j) ==> chains[b][a] != chains[i][j]
  {
    hide SlotOf;
    forall b, a | 0 <= b < |chains| && 0 <= a < |chains[b]| && !(b == i && a == j)
      ensures chains[b][a].key != chains[i][j].key
    {
      assert chains[b][a] in chains[b] && chains[i][j] in chains[i];
    }
  }

  lemma MovedChain(chains: seq<seq<HashEntry>>, m: map<Key, HashEntry>, n: map<Key, HashEntry>, i: nat)
    requires i < |chains| && Moved(chains, m, n, i, |chains[i]|)
    ensures Moved(chains, m, n, i + 1, 0)
  {
  }

  lemma MovedAll(chains: seq<seq<HashEntry>>, m: map<Key, HashEntry>, nodes: set<HashEntry>, n: map<Key, HashEntry>)
    requires Filed(chains, m, nodes) && Moved(chains, m, n, |chains|, 0)
    ensures n == m
  {
    hide SlotOf;
    forall k | k in m ensures k in n {
      assert m[k] in chains[SlotOf(k, |chains|)];
    }
  }

  // ---------------------------------------------------------------- runs of the map

  datatype Op<V> = Insert(key: Key, value: V) | Drop(key: Key)

  /** Insertion leaves a present key alone. */
  function MapStep<V>(m: map<Key, V>, op: Op<V>): map<Key, V> {
    match op
    case Insert(k, v) => if k in m then m else m[k := v]
    case Drop(k) => m - {k}
  }

  function MapRun<V>(ops: seq<Op<V>>): map<Key, V> {
    if ops == [] then map[] else MapStep(MapRun(ops[..|ops| - 1]), ops[|ops| - 1])
  }

  ghost predicate DropBetween<V>(ops: seq<Op<V>>, j: int, i: int, key: Key) {
    exists d :: 0 <= d < |ops| && j < d < i && ops[d] == Drop(key)
  }

  /** Operation i inserts key, no later one drops it, and every earlier insertion of it was dropped before i. */
  ghost predicate Stands<V>(ops: seq<Op<V>>, i: nat, key: Key) {
    && i < |ops| && ops[i].Insert? && ops[i].key == key
    && !DropBetween(ops, i, |ops|, key)
    && forall j :: 0 <= j < i && ops[j].Insert? && ops[j].key == key ==> DropBetween(ops, j, i, key)
  }

  lemma DropBetweenPrefix<V>(ops: seq<Op<V>>, n: nat, j: int, i: int, key: Key)
    requires i <= n <= |ops|
    ensures DropBetween(ops[..n], j, i, key) <==> DropBetween(ops, j, i, key)
  {
    if DropBetween(ops, j, i, key) {
      var d :| 0 <= d < |ops| && j < d < i && ops[d] == Drop(key);
      assert ops[..n][d] == Drop(key);
    }
  }

  lemma StandsPrefix<V>(ops: seq<Op<V>>, i: nat, key: Key)
    requires |ops| > 0 && i < |ops| - 1
    ensures Stands(ops, i, key) <==> Stands(ops[..|ops| - 1], i, key) && ops[|ops| - 1] != Drop(key)
  {
    var n := |ops| - 1;
    DropBetweenPrefix(ops, n, i, n, key);
    forall j ensures DropBetween(ops[..n], j, i, key) <==> DropBetween(ops, j, i, key) {
      DropBetweenPrefix(ops, n, j, i, key);
    }
    assert DropBetween(ops, i, n + 1, key) <==> DropBetween(ops, i, n, key) || ops[n] == Drop(key);
  }

  lemma Stander<V>(ops: seq<Op<V>>, j: nat, key: Key) returns (i: nat)
    requires j < |ops| && ops[j].Insert? && ops[j].key == key && !DropBetween(ops, j, |ops|, key)
    ensures Stands(ops, i, key)
    decreases j
  {
    if c :| 0 <= c < j && ops[c].Insert? && ops[c].key == key && !DropBetween(ops, c, j, key) {
      i := Stander(ops, c, key);
    } else {
      i := j;
    }
  }

  /** After any run a key has the value of its first insertion since it was last dropped, if there was one. */
  lemma {:induction false} RunLookup<V>(ops: seq<Op<V>>, key: Key)
    ensures key in MapRun(ops) <==> exists i: nat :: Stands(ops, i, key)
    ensures forall i: nat :: Stands(ops, i, key) ==> key in MapRun(ops) && MapRun(ops)[key] == ops[i].value
  {
    if ops != [] {
      var n := |ops| - 1;
      RunLookup(ops[..n], key);
      forall i: nat | i < n ensures Stands(ops, i, key) <==> Stands(ops[..n], i, key) && ops[n] != Drop(key) {
        StandsPrefix(ops, i, key);
      }
      LastStands(ops, key);
      assert forall i: nat :: Stands(ops[..n], i, key) ==> i < n;
      hide Stands, DropBetween;
      if key in MapRun(ops[..n]) && ops[n] != Drop(key) {
        var i: nat :| Stands(ops[..n], i, key);
        assert Stands(ops, i, key);
      }
    }
  }

  /** The last operation stands for a key exactly when it inserts it and nothing before it stands. */
  lemma LastStands<V>(ops: seq<Op<V>>, key: Key)
    requires |ops| > 0
    ensures var n: nat := |ops| - 1;
            Stands(ops, n, key) <==> ops[n].Insert? && ops[n].key == key && forall i: nat :: !Stands(ops[..n], i, key)
    ensures forall i: nat :: Stands(ops, i, key) ==> i < |ops|
  {
    var n := |ops| - 1;
    if ops[n].Insert? && ops[n].key == key {
      if c :| 0 <= c < n && ops[c].Insert? && ops[c].key == key && !DropBetween(ops, c, n, key) {
        DropBetweenPrefix(ops, n, c, n, key);
        var i := Stander(ops[..n], c, key);
      } else {
        forall i: nat ensures !Stands(ops[..n], i, key) {
          if Stands(ops[..n], i, key) { DropBetweenPrefix(ops, n, i, n, key); }
        }
      }
    }
  }

  /** The table has exactly the keys of m, each with its value. */
  ghost predicate Means(t: Table, m: map<Key, int>)
    reads t, t.contents.Values
  {
    && t.contents.Keys == m.Keys
    && forall k :: k in m ==> t.contents[k].value == m[k]
  }

  lemma RunNext<V>(ops: seq<Op<V>>, i: nat)
    requires i < |ops|
    ensures MapRun(ops[..i + 1]) == MapStep(MapRun(ops[..i]), ops[i])
  {
    assert ops[..i + 1][..i] == ops[..i];
  }

  /** Any sequence of insertions and removals on an empty table does to it what it does to the map, and reports each
      key found that the map had. */
  method Replay(t: Table, ops: seq<Op<int>>) returns (found: seq<bool>)
    requires t.Valid() && t.contents == map[]
    modifies t, t.bucket, t.nodes`next
    ensures t.Valid() && Means(t, MapRun(ops)) && |found| == |ops|
    ensures forall i :: 0 <= i < |ops| && ops[i].Insert? ==> (found[i] <==> ops[i].key in MapRun(ops[..i]))
  {
    hide Table.Valid, MapRun;
    found := [];
    assert ops[..0] == [];
    EmptyMap<int>();
    for i := 0 to |ops|
      invariant t.Valid() && Means(t, MapRun(ops[..i])) && |found| == i
      invariant (t.bucket == old(t.bucket) || fresh(t.bucket)) && fresh(t.nodes - old(t.nodes))
      invariant forall j :: 0 <= j < i && ops[j].Insert? ==> (found[j] <==> ops[j].key in MapRun(ops[..j]))
    {
      RunNext(ops, i);
      var was := false;
      match ops[i] {
        case Insert(k, v) =>
          var r;
          r, was := t.FindOrAdd(k, v);
        case Drop(k) =>
          t.Remove(k);
      }
      found := found + [was];
    }
    assert ops[..|ops|] == ops;
  }

  lemma EmptyMap<V>()
    ensures MapRun<V>([]) == map[]
  {
  }
}
