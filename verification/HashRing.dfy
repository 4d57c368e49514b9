/**
 * The hash ring of src/tools/MemCacheClient.cpp: seven entries a server in one sorted vector, and a key served by
 * the first entry at or after its hash, or by the first of all. Adding a server moves keys to that server only,
 * exactly as long as no two servers share a hash.
 */
module HashRing {
  import opened Machine

  /** A server by its listen address, IP:PORT. */
  datatype Server = Server(address: string)

  datatype Entry = Entry(hash: nat, server: Server)

  type Ring = seq<Entry>

  // ---------------------------------------------------------------- searching

  ghost predicate Sorted(r: Ring) {
    forall i, j :: 0 <= i <= j < |r| ==> r[i].hash <= r[j].hash
  }

  /** Index of the first entry whose hash is at least h, as std::lower_bound finds it in a sorted ring. */
  function LowerBound(r: Ring, h: nat): (i: nat)
    ensures i <= |r|
    ensures i < |r| ==> r[i].hash >= h
    ensures forall j :: 0 <= j < i ==> r[j].hash < h
  {
    if r == [] then 0
    else if r[0].hash >= h then 0
    else
      var n := LowerBound(r[1..], h);
      assert forall j :: 1 <= j < n + 1 ==> r[j] == r[1..][j - 1];
      1 + n
  }

  /** The server of a key with hash h. */
  function Owner(r: Ring, h: nat): Server
    requires r != []
  {
    var i := LowerBound(r, h);
    r[if i == |r| then 0 else i].server
  }

  // ---------------------------------------------------------------- stability

  /** r' is r with the entries e added, in some sorted order. */
  ghost predicate Extends(r: Ring, e: Ring, r': Ring) {
    Sorted(r') && multiset(r') == multiset(r) + multiset(e)
  }

  /** Entries with one hash are of one server. */
  ghost predicate TiesAgree(r: Ring) {
    forall i, j :: 0 <= i < |r| && 0 <= j < |r| && r[i].hash == r[j].hash ==> r[i].server == r[j].server
  }

  ghost predicate AllOf(e: Ring, s: Server) {
    forall i :: 0 <= i < |e| ==> e[i].server == s
  }

  lemma Member(r: Ring, e: Ring, r': Ring, x: Entry)
    requires Extends(r, e, r')
    ensures x in r' <==> x in r || x in e
  {
    assert x in r' <==> x in multiset(r');
    assert x in r <==> x in multiset(r);
    assert x in e <==> x in multiset(e);
  }

  /** The owner has the least hash at or after h, or, when there is none, the least of all. */
  lemma OwnerIsLeast(r: Ring, h: nat) returns (x: Entry)
    requires r != [] && Sorted(r)
    ensures x in r && x.server == Owner(r, h)
    ensures if exists y :: y in r && y.hash >= h then x.hash >= h && forall y :: y in r && y.hash >= h ==> x.hash <= y.hash
            else forall y :: y in r ==> x.hash <= y.hash
  {
    var i := LowerBound(r, h);
    x := r[if i == |r| then 0 else i];
    if i < |r| { assert r[i] in r; }
  }

  /** A key's server stays the same or becomes the new server, wherever the ring wraps around. */
  lemma Stable(r: Ring, e: Ring, r': Ring, s: Server, h: nat)
    requires r != [] && Sorted(r) && Extends(r, e, r') && AllOf(e, s) && TiesAgree(r)
    ensures r' != [] && (Owner(r', h) == Owner(r, h) || Owner(r', h) == s)
  {
    Member(r, e, r', r[0]);
    var x := OwnerIsLeast(r, h);
    var x' := OwnerIsLeast(r', h);
    Member(r, e, r', x);
    Member(r, e, r', x');
    hide Owner, Extends, Sorted;
    if x' in r {
      forall y | y in r ensures y in r' { Member(r, e, r', y); }
      assert x.hash == x'.hash;
    }
  }

  // ---------------------------------------------------------------- sorting

  /** x put after the entries whose hash is not greater. */
  function InsertAfter(r: Ring, x: Entry): Ring {
    if r == [] then [x]
    else if r[0].hash <= x.hash then [r[0]] + InsertAfter(r[1..], x)
    else [x] + r
  }

  /** The entries of e put into r one after the other. */
  function SortInto(r: Ring, e: Ring): Ring
    decreases |e|
  {
    if e == [] then r else SortInto(InsertAfter(r, e[0]), e[1..])
  }

  lemma SortedCons(y: Entry, r: Ring)
    requires Sorted(r) && (r != [] ==> y.hash <= r[0].hash)
    ensures Sorted([y] + r)
  {
  }

  lemma InsertHead(r: Ring, y: Entry)
    ensures r != [] ==> r == [r[0]] + r[1..]
    ensures InsertAfter(r, y) == if r == [] || r[0].hash > y.hash then [y] + r else [r[0]] + InsertAfter(r[1..], y)
  {
  }

  lemma SortedTail(r: Ring)
    requires Sorted(r) && r != []
    ensures Sorted(r[1..]) && (r[1..] != [] ==> r[0].hash <= r[1..][0].hash)
  {
  }

  lemma {:induction false} InsertSorts(r: Ring, x: Entry)
    requires Sorted(r)
    ensures Sorted(InsertAfter(r, x)) && multiset(InsertAfter(r, x)) == multiset(r) + multiset{x}
    ensures InsertAfter(r, x) != []
    ensures InsertAfter(r, x)[0].hash == if r != [] && r[0].hash <= x.hash then r[0].hash else x.hash
    decreases |r|
  {
    hide InsertAfter, Sorted;
    InsertHead(r, x);
    if r != [] && r[0].hash <= x.hash {
      SortedTail(r);
      InsertSorts(r[1..], x);
      SortedCons(r[0], InsertAfter(r[1..], x));
    } else {
      SortedCons(x, r);
    }
  }

  lemma {:induction false} SortIntoSorts(r: Ring, e: Ring)
    requires Sorted(r)
    ensures Extends(r, e, SortInto(r, e))
    decreases |e|
  {
    if e != [] {
      InsertSorts(r, e[0]);
      SortIntoSorts(InsertAfter(r, e[0]), e[1..]);
      assert e == [e[0]] + e[1..];
    }
  }

  /** The entry at the lower bound of a hash that occurs stays the same. */
  predicate Hit(r: Ring, h: nat, x: Entry) {
    var i := LowerBound(r, h); i < |r| && r[i] == x && x.hash == h
  }

  lemma HitStep(y: Entry, r: Ring, h: nat, x: Entry)
    ensures y.hash < h ==> (Hit([y] + r, h, x) <==> Hit(r, h, x))
    ensures y.hash >= h ==> (Hit([y] + r, h, x) <==> y == x && y.hash == h)
  {
    assert ([y] + r)[1..] == r;
  }

  lemma {:induction false} InsertKeepsHit(r: Ring, y: Entry, h: nat, x: Entry)
    requires Hit(r, h, x)
    ensures Hit(InsertAfter(r, y), h, x)
    decreases |r|
  {
    assert r != [];
    hide Hit, LowerBound, InsertAfter;
    InsertHead(r, y);
    HitStep(r[0], r[1..], h, x);
    HitStep(r[0], InsertAfter(r[1..], y), h, x);
    HitStep(y, r, h, x);
    if r[0].hash < h {
      InsertKeepsHit(r[1..], y, h, x);
    }
  }

  lemma {:induction false} SortKeepsHit(r: Ring, e: Ring, h: nat, x: Entry)
    requires Hit(r, h, x)
    ensures Hit(SortInto(r, e), h, x)
    decreases |e|
  {
    if e != [] {
      InsertKeepsHit(r, e[0], h, x);
      SortKeepsHit(InsertAfter(r, e[0]), e[1..], h, x);
    }
  }

  // ---------------------------------------------------------------- instability

  ghost predicate Moves(r: Ring, e: Ring, r': Ring, s: Server, h: nat) {
    r != [] && r' != [] && Extends(r, e, r') && Owner(r', h) != Owner(r, h) && Owner(r', h) != s
  }

  function Swapped(r: Ring, a: nat, b: nat): (t: Ring)
    requires a < |r| && b < |r| && r[a].hash == r[b].hash
    ensures |t| == |r| && t[a] == r[b] && multiset(t) == multiset(r)
    ensures forall k :: 0 <= k < |r| ==> t[k].hash == r[k].hash
  {
    r[a := r[b]][b := r[a]]
  }

  lemma LowerBoundOnly(r: Ring, t: Ring, h: nat)
    requires |t| == |r| && forall k :: 0 <= k < |r| ==> t[k].hash == r[k].hash
    ensures LowerBound(t, h) == LowerBound(r, h)
  {
  }

  lemma SwappedSorted(r: Ring, a: nat, b: nat)
    requires Sorted(r) && a < |r| && b < |r| && r[a].hash == r[b].hash
    ensures Sorted(Swapped(r, a, b))
  {
    hide Swapped;
  }

  lemma HitOwns(r: Ring, h: nat, x: Entry)
    requires Hit(r, h, x)
    ensures r != [] && Owner(r, h) == x.server
  {
  }

  /** Entries of one hash and different servers can change places in the sort, and then a key moves from one old
      server to another. */
  lemma Unstable(r: Ring, e: Ring, s: Server, i: nat, j: nat) returns (r': Ring, h: nat)
    requires Sorted(r) && i < |r| && j < |r| && r[i].hash == r[j].hash && r[i].server != r[j].server
    requires forall k :: 0 <= k < |r| ==> r[k].server != s
    ensures Moves(r, e, r', s, h)
  {
    hide Swapped, LowerBound, SortInto, Owner, Sorted;
    h := r[i].hash;
    var a := LowerBound(r, h);
    assert r[a].hash == h by { AtLeast(r, i, a); }
    var b := if r[i].server == r[a].server then j else i;
    var t := Swapped(r, a, b);
    LowerBoundOnly(r, t, h);
    SwappedSorted(r, a, b);
    r' := SortInto(t, e);
    SortIntoSorts(t, e);
    SortKeepsHit(t, e, h, t[a]);
    HitOwns(r', h, t[a]);
    HitOwns(r, h, r[a]);
  }

  lemma AtLeast(r: Ring, i: nat, a: nat)
    requires Sorted(r) && i < |r| && a == LowerBound(r, r[i].hash)
    ensures a <= i && r[a].hash == r[i].hash
  {
  }

  /** Adding a server never moves a key between old servers, however the sort arranges equal hashes, if and only
      if no hash is shared by two old servers. */
  lemma StableIff(r: Ring, e: Ring, s: Server)
    requires r != [] && Sorted(r) && AllOf(e, s) && forall k :: 0 <= k < |r| ==> r[k].server != s
    ensures (forall r', h :: !Moves(r, e, r', s, h)) <==> TiesAgree(r)
  {
    if TiesAgree(r) {
      forall r', h ensures !Moves(r, e, r', s, h) {
        if Extends(r, e, r') { Stable(r, e, r', s, h); }
      }
    } else {
      var i, j :| 0 <= i < |r| && 0 <= j < |r| && r[i].hash == r[j].hash && r[i].server != r[j].server;
      var r', h := Unstable(r, e, s, i, j);
    }
  }

  // ---------------------------------------------------------------- the client

  const SALTS: seq<string> := [
    "{DD4C855D-7548-4804-8F1A-166CDBACEFE7}",
    "{9BF02198-1D29-4aa3-9466-A4AF4372D5B1}",
    "{0F20CD2F-ACF2-44bc-8CE3-54529D7B738D}",
    "{DEA60AAB-CFF9-4a20-A799-4E5E93369656}",
    "{C05167CC-57DA-40f2-9EB8-18F65E56FD21}",
    "{57939537-0966-49e7-B675-ACE63246BFA5}",
    "{F0C8BE5C-A0F1-478f-BC45-28D42AF0CA1E}"]

  function KeyHash(key: string): nat { HashSum(key, 0, 0) }

  /** The first n entries of a server. */
  function Points(s: Server, n: nat): (e: Ring)
    requires n <= |SALTS|
    ensures |e| == n
  {
    seq(n, k requires 0 <= k < n => Entry(KeyHash(s.address + SALTS[k]), s))
  }

  /** Seven entries for each server. */
  function AllPoints(servers: seq<Server>): multiset<Entry> {
    if servers == [] then multiset{}
    else AllPoints(servers[..|servers| - 1]) + multiset(Points(servers[|servers| - 1], 7))
  }

  class MemCacheClient {
    var m_rgpServer: seq<Server>
    var m_rgServerHash: Ring

    /** The ring is sorted and holds seven entries for each server, and the servers are different ones. */
    ghost predicate Valid()
      reads this
    {
      && Sorted(m_rgServerHash)
      && multiset(m_rgServerHash) == AllPoints(m_rgpServer)
      && forall i, j :: 0 <= i < j < |m_rgpServer| ==> m_rgpServer[i] != m_rgpServer[j]
    }

    constructor ()
      ensures Valid() && m_rgpServer == []
    {
      m_rgpServer, m_rgServerHash := [], [];
    }

    /** AddServer; ok says whether the address parses. */
    method AddServer(s: Server, ok: bool) returns (added: bool)
      requires Valid()
      modifies this
      ensures Valid() && added == ok
      ensures m_rgpServer == if ok && s !in old(m_rgpServer) then old(m_rgpServer) + [s] else old(m_rgpServer)
      ensures if ok && s !in old(m_rgpServer) then Extends(old(m_rgServerHash), Points(s, 7), m_rgServerHash)
              else m_rgServerHash == old(m_rgServerHash)
    {
      hide KeyHash;
      if !ok {
        return false;
      }
      for n := 0 to |m_rgpServer|
        invariant s !in m_rgpServer[..n]
      {
        if s == m_rgpServer[n] {
          return true;
        }
      }
      m_rgpServer := m_rgpServer + [s];
      ghost var was := m_rgServerHash;
      for n := 0 to 7
        invariant m_rgServerHash == was + Points(s, n)
        invariant m_rgpServer == old(m_rgpServer) + [s]
      {
        m_rgServerHash := m_rgServerHash + [Entry(KeyHash(s.address + SALTS[n]), s)];
      }
      SortIntoSorts([], m_rgServerHash);
      m_rgServerHash := SortInto([], m_rgServerHash);
      assert m_rgpServer[..|m_rgpServer| - 1] == old(m_rgpServer);
      return true;
    }

    /** FindServer; connects says whether the server found can be reached. */
    method FindServer(key: string, connects: bool) returns (r: seq<Server>)
      requires Valid()
      ensures r == if m_rgServerHash == [] || !connects then [] else [Owner(m_rgServerHash, KeyHash(key))]
    {
      if m_rgServerHash == [] {
        return [];
      }
      var i := LowerBound(m_rgServerHash, KeyHash(key));
      if i == |m_rgServerHash| {
        i := 0;
      }
      if !connects {
        return [];
      }
      return [m_rgServerHash[i].server];
    }
  }

  /** A sorted ring in which every server has its seven entries gives every key a server that was added. */
  lemma {:induction false} OwnerWasAdded(servers: seq<Server>, x: Entry)
    requires x in AllPoints(servers)
    ensures x.server in servers
    decreases |servers|
  {
    var n := |servers| - 1;
    if x in AllPoints(servers[..n]) {
      OwnerWasAdded(servers[..n], x);
    } else {
      assert x in Points(servers[n], 7);
    }
  }

  // ---------------------------------------------------------------- two servers with one hash

  lemma {:induction false} SameTail(a: string, b: string, i: nat, acc: nat)
    requires i <= |a| == |b| && forall j :: i <= j < |a| ==> a[j] == b[j]
    ensures HashSum(a, i, acc) == HashSum(b, i, acc)
    decreases |a| - i
  {
    if i < |a| {
      SameTail(a, b, i + 1, (acc + SignedByte(a[i] as int) * (i + 1)) % TWO64);
    }
  }

  /** "12" and "31" weigh the same at the front: '1' + 2 * '2' == '3' + 2 * '1'. */
  lemma SameHash(t: string)
    ensures KeyHash("12" + t) == KeyHash("31" + t)
  {
    var a, b := "12" + t, "31" + t;
    assert HashSum(a, 2, 149) == HashSum(b, 2, 149) by { SameTail(a, b, 2, 149); }
    assert HashSum(a, 0, 0) == HashSum(a, 1, 49) == HashSum(a, 2, 149);
    assert HashSum(b, 0, 0) == HashSum(b, 1, 51) == HashSum(b, 2, 149);
  }

  lemma TwinsTie(r: Ring, a: Server, b: Server, t: string)
    requires a == Server("12" + t) && b == Server("31" + t) && multiset(r) == AllPoints([a, b])
    ensures !TiesAgree(r)
  {
    hide KeyHash, HashSum;
    SameHash(t + SALTS[0]);
    assert a.address + SALTS[0] == "12" + (t + SALTS[0]) && b.address + SALTS[0] == "31" + (t + SALTS[0]);
    var h := KeyHash(a.address + SALTS[0]);
    assert Points(a, 7)[0] == Entry(h, a) && Points(b, 7)[0] == Entry(h, b);
    assert [a, b][..1] == [a] && [a][..0] == [];
    assert AllPoints([a, b]) == AllPoints([a]) + multiset(Points(b, 7));
    assert AllPoints([a]) == AllPoints([]) + multiset(Points(a, 7));
    assert Entry(h, a) in Points(a, 7) && Entry(h, b) in Points(b, 7);
    assert Entry(h, a) in multiset(r) && Entry(h, b) in multiset(r);
    assert Entry(h, a) in r && Entry(h, b) in r;
    assert a.address[0] == '1' && b.address[0] == '3';
  }

  lemma TwinsMove(r: Ring, a: Server, b: Server, t: string, third: Server)
    requires a == Server("12" + t) && b == Server("31" + t) && Sorted(r) && multiset(r) == AllPoints([a, b])
    requires third != a && third != b
    ensures !TiesAgree(r) && exists r', h :: Moves(r, Points(third, 7), r', third, h)
  {
    TwinsTie(r, a, b, t);
    RingServers(r, [a, b]);
    hide KeyHash, Points, Moves, TiesAgree, Sorted, AllPoints;
    StableIff(r, Points(third, 7), third);
  }

  /** Two AddServer calls whose addresses differ as 12.0.0.1:11211 and 31.0.0.1:11211 do build a ring in which a third
      server can move a key from the one to the other. */
  method Twins(t: string, third: Server) returns (c: MemCacheClient)
    requires third != Server("12" + t) && third != Server("31" + t)
    ensures c.Valid() && c.m_rgpServer == [Server("12" + t), Server("31" + t)] && !TiesAgree(c.m_rgServerHash)
    ensures exists r', h :: Moves(c.m_rgServerHash, Points(third, 7), r', third, h)
  {
    hide KeyHash, Points, Moves, TiesAgree, Sorted, AllPoints, Extends;
    c := new MemCacheClient();
    var a, b := Server("12" + t), Server("31" + t);
    assert a.address[0] == '1' && b.address[0] == '3';
    var added := c.AddServer(a, true);
    added := c.AddServer(b, true);
    assert c.m_rgpServer == [a, b];
    TwinsMove(c.m_rgServerHash, a, b, t, third);
  }

  lemma RingServers(r: Ring, servers: seq<Server>)
    requires multiset(r) == AllPoints(servers) && servers != []
    ensures r != [] && forall k :: 0 <= k < |r| ==> r[k].server in servers
  {
    forall k | 0 <= k < |r| ensures r[k].server in servers {
      assert r[k] in multiset(r);
      OwnerWasAdded(servers, r[k]);
    }
    var n := |servers| - 1;
    var x := Points(servers[n], 7)[0];
    assert x in Points(servers[n], 7) && x in AllPoints(servers) && x in multiset(r);
  }

  /** Over AddServer: a key keeps its server or goes to the one just added. */
  lemma AddMovesToNewOnly(r: Ring, servers: seq<Server>, s: Server, r': Ring, key: string)
    requires r != [] && Sorted(r) && multiset(r) == AllPoints(servers) && s !in servers && TiesAgree(r)
    requires Extends(r, Points(s, 7), r')
    ensures r' != [] && (Owner(r', KeyHash(key)) == Owner(r, KeyHash(key)) || Owner(r', KeyHash(key)) == s)
    ensures Owner(r, KeyHash(key)) in servers
  {
    Stable(r, Points(s, 7), r', s, KeyHash(key));
    var x := OwnerIsLeast(r, KeyHash(key));
    assert x in multiset(r);
    OwnerWasAdded(servers, x);
  }
}
