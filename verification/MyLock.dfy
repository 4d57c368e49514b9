/**
 * The per-id lock of src/tools/mylock.cpp: a map of taken ids under a read-write lock, and 1024 mutexes that
 * serialise the calls for the ids of one stripe. Threads interleave at every pthread call; the state machine
 * has one step for each call a thread makes, together with the code up to its next call.
 */
module MyLock {
  type Id = nat
  type Tid = nat

  const STRIPES := 1024

  function Stripe(id: Id): (h: nat)
    ensures h < STRIPES
  {
    id % STRIPES
  }

  /** Where a thread is: the pthread call it makes next, or Idle outside get and put. */
  datatype Pc =
    | Idle
    | GetLock(id: Id)                        // lock the stripe
    | GetRead(id: Id)                        // take the map for reading, look the id up
    | GetReadDone(id: Id, locked: bool)      // release the map
    | GetWrite(id: Id)                       // take the map for writing, enter the id
    | GetWriteDone(id: Id)                   // release the map
    | GetUnlock(id: Id, locked: bool)        // unlock the stripe; return, or sleep and try again
    | Asleep(id: Id)
    | PutLock(id: Id)                        // lock the stripe
    | PutWrite(id: Id)                       // take the map for writing, erase the id
    | PutWriteDone(id: Id)                   // release the map
    | PutUnlock(id: Id)                      // unlock the stripe and return
  {
    predicate InSection() {
      !Idle? && !GetLock? && !Asleep? && !PutLock?
    }
    predicate Reading() { GetReadDone? }
    predicate Writing() { GetWriteDone? || PutWriteDone? }
  }

  /** held: the ids a thread has got and not yet begun to put back. */
  datatype Thread = Thread(pc: Pc, held: set<Id>)
  {
    predicate Owns(id: Id) {
      || id in held
      || pc == GetWriteDone(id) || pc == GetUnlock(id, false)
      || pc == PutLock(id) || pc == PutWrite(id)
    }

    predicate FoundFree() { pc.GetWrite? || (pc.GetReadDone? && !pc.locked) }
  }

  /** owner is a history variable: whose entry in the map of taken ids it is. */
  datatype State = State(
    threads: seq<Thread>,
    mutex: map<nat, Tid>,
    readers: set<Tid>,
    writers: set<Tid>,
    locks: map<Id, int>,
    owner: map<Id, Tid>)

  /** What happens next: thread t goes on with its call, or, idle, calls get or put. */
  datatype Event = Go(t: Tid) | CallGet(t: Tid, id: Id) | CallPut(t: Tid, id: Id)

  function Moved(s: State, t: Tid, pc: Pc): State
    requires t < |s.threads|
  {
    s.(threads := s.threads[t := s.threads[t].(pc := pc)])
  }

  /** The call thread t makes next does not block. */
  predicate CanGo(s: State, t: Tid) {
    && t < |s.threads|
    && match s.threads[t].pc
       case Idle => false
       case GetLock(id) => Stripe(id) !in s.mutex
       case GetRead(_) => s.writers == {}
       case GetWrite(_) => s.writers == {} && s.readers == {}
       case PutLock(id) => Stripe(id) !in s.mutex
       case PutWrite(_) => s.writers == {} && s.readers == {}
       case _ => true
  }

  /** put is called for an id the thread holds. */
  predicate Possible(s: State, e: Event) {
    match e
    case Go(t) => CanGo(s, t)
    case CallGet(t, _) => t < |s.threads| && s.threads[t].pc.Idle?
    case CallPut(t, id) => t < |s.threads| && s.threads[t].pc.Idle? && id in s.threads[t].held
  }

  function Gone(s: State, t: Tid): State
    requires CanGo(s, t)
  {
    match s.threads[t].pc
    case GetLock(id) => Moved(s, t, GetRead(id)).(mutex := s.mutex[Stripe(id) := t])
    case GetRead(id) =>
      Moved(s, t, GetReadDone(id, id in s.locks && s.locks[id] > 0)).(readers := s.readers + {t})
    case GetReadDone(id, locked) =>
      Moved(s, t, if locked then GetUnlock(id, true) else GetWrite(id)).(readers := s.readers - {t})
    case GetWrite(id) =>
      Moved(s, t, GetWriteDone(id)).(writers := s.writers + {t}, locks := s.locks[id := 1], owner := s.owner[id := t])
    case GetWriteDone(id) => Moved(s, t, GetUnlock(id, false)).(writers := s.writers - {t})
    case GetUnlock(id, locked) =>
      if locked then Moved(s, t, Asleep(id)).(mutex := s.mutex - {Stripe(id)})
      else s.(threads := s.threads[t := Thread(Idle, s.threads[t].held + {id})], mutex := s.mutex - {Stripe(id)})
    case Asleep(id) => Moved(s, t, GetLock(id))
    case PutLock(id) => Moved(s, t, PutWrite(id)).(mutex := s.mutex[Stripe(id) := t])
    case PutWrite(id) =>
      Moved(s, t, PutWriteDone(id)).(writers := s.writers + {t}, locks := s.locks - {id}, owner := s.owner - {id})
    case PutWriteDone(id) => Moved(s, t, PutUnlock(id)).(writers := s.writers - {t})
    case PutUnlock(id) => Moved(s, t, Idle).(mutex := s.mutex - {Stripe(id)})
  }

  function After(s: State, e: Event): State
    requires Possible(s, e)
  {
    match e
    case Go(t) => Gone(s, t)
    case CallGet(t, id) => Moved(s, t, GetLock(id))
    case CallPut(t, id) => s.(threads := s.threads[t := Thread(PutLock(id), s.threads[t].held - {id})])
  }

  // ---------------------------------------------------------------- invariant

  /** A stripe is locked exactly by the thread inside get or put for one of its ids. */
  ghost predicate MutexOk(s: State) {
    && (forall t :: 0 <= t < |s.threads| && s.threads[t].pc.InSection() ==>
          Stripe(s.threads[t].pc.id) in s.mutex && s.mutex[Stripe(s.threads[t].pc.id)] == t)
    && (forall h :: h in s.mutex ==>
          s.mutex[h] < |s.threads| && s.threads[s.mutex[h]].pc.InSection() && Stripe(s.threads[s.mutex[h]].pc.id) == h)
  }

  ghost predicate MapLockOk(s: State) {
    && (forall t :: t in s.readers <==> 0 <= t < |s.threads| && s.threads[t].pc.Reading())
    && (forall t :: t in s.writers <==> 0 <= t < |s.threads| && s.threads[t].pc.Writing())
    && (s.writers != {} ==> s.readers == {})
    && (forall t, u :: t in s.writers && u in s.writers ==> t == u)
  }

  /** The map of taken ids has an entry for exactly the owned ids, each of one thread. */
  ghost predicate OwnersOk(s: State) {
    && s.locks.Keys == s.owner.Keys
    && (forall id :: id in s.locks ==> s.locks[id] == 1)
    && (forall id :: id in s.owner ==> s.owner[id] < |s.threads| && s.threads[s.owner[id]].Owns(id))
    && (forall t, id :: 0 <= t < |s.threads| && s.threads[t].Owns(id) ==> id in s.owner && s.owner[id] == t)
  }

  /** A thread that found its id free still finds it free. */
  ghost predicate FreeOk(s: State) {
    forall t :: 0 <= t < |s.threads| && s.threads[t].FoundFree() ==> s.threads[t].pc.id !in s.locks
  }

  /** An id being put is no longer held by the thread putting it. */
  ghost predicate PuttingOk(s: State) {
    forall t :: 0 <= t < |s.threads| && (s.threads[t].pc.PutLock? || s.threads[t].pc.PutWrite?) ==>
      s.threads[t].pc.id !in s.threads[t].held
  }

  ghost predicate Inv(s: State) {
    MutexOk(s) && MapLockOk(s) && OwnersOk(s) && FreeOk(s) && PuttingOk(s)
  }

  // ---------------------------------------------------------------- one thread changes

  ghost predicate Changed(s: State, s': State, t: Tid, x: Thread) {
    t < |s.threads| && s'.threads == s.threads[t := x]
  }

  lemma MutexSame(s: State, s': State, t: Tid, x: Thread)
    requires MutexOk(s) && Changed(s, s', t, x) && s'.mutex == s.mutex
    requires x.pc.InSection() <==> s.threads[t].pc.InSection()
    requires x.pc.InSection() ==> x.pc.id == s.threads[t].pc.id
    ensures MutexOk(s')
  {
    hide Stripe, Pc.InSection;
  }

  lemma MutexLocked(s: State, s': State, t: Tid, x: Thread)
    requires MutexOk(s) && Changed(s, s', t, x) && !s.threads[t].pc.InSection() && x.pc.InSection()
    requires Stripe(x.pc.id) !in s.mutex && s'.mutex == s.mutex[Stripe(x.pc.id) := t]
    ensures MutexOk(s')
  {
    hide Stripe, Pc.InSection;
  }

  lemma MutexFreed(s: State, s': State, t: Tid, x: Thread)
    requires MutexOk(s) && Changed(s, s', t, x) && s.threads[t].pc.InSection() && !x.pc.InSection()
    requires s'.mutex == s.mutex - {Stripe(s.threads[t].pc.id)}
    ensures MutexOk(s')
  {
    hide Stripe, Pc.InSection;
  }

  lemma MapSame(s: State, s': State, t: Tid, x: Thread)
    requires MapLockOk(s) && Changed(s, s', t, x) && s'.readers == s.readers && s'.writers == s.writers
    requires x.pc.Reading() <==> s.threads[t].pc.Reading()
    requires x.pc.Writing() <==> s.threads[t].pc.Writing()
    ensures MapLockOk(s')
  {
    hide Pc.Reading, Pc.Writing;
  }

  lemma MapTaken(s: State, s': State, t: Tid, x: Thread)
    requires MapLockOk(s) && Changed(s, s', t, x) && s.writers == {}
    requires !s.threads[t].pc.Reading() && !s.threads[t].pc.Writing()
    requires if x.pc.Writing() then !x.pc.Reading() && s.readers == {} && s'.writers == {t} && s'.readers == {}
             else x.pc.Reading() && s'.readers == s.readers + {t} && s'.writers == {}
    ensures MapLockOk(s')
  {
    hide Pc.Reading, Pc.Writing;
  }

  lemma MapReleased(s: State, s': State, t: Tid, x: Thread)
    requires MapLockOk(s) && Changed(s, s', t, x) && !x.pc.Reading() && !x.pc.Writing()
    requires s'.readers == s.readers - {t} && s'.writers == s.writers - {t}
    ensures MapLockOk(s')
  {
    hide Pc.Reading, Pc.Writing;
  }

  lemma OwnersSame(s: State, s': State, t: Tid, x: Thread)
    requires OwnersOk(s) && Changed(s, s', t, x) && s'.locks == s.locks && s'.owner == s.owner
    requires forall id :: x.Owns(id) <==> s.threads[t].Owns(id)
    ensures OwnersOk(s')
  {
    hide Thread.Owns;
  }

  lemma OwnerEntered(s: State, s': State, t: Tid, x: Thread, id: Id)
    requires OwnersOk(s) && Changed(s, s', t, x) && id !in s.locks
    requires s'.locks == s.locks[id := 1] && s'.owner == s.owner[id := t]
    requires forall j :: x.Owns(j) <==> s.threads[t].Owns(j) || j == id
    ensures OwnersOk(s')
  {
    hide Thread.Owns;
  }

  lemma OwnersMean(s: State)
    requires OwnersOk(s)
    ensures s.locks.Keys == s.owner.Keys && forall id :: id in s.locks ==> s.locks[id] == 1
  {
  }

  lemma OwnerAt(s: State, j: Id)
    requires OwnersOk(s) && j in s.owner
    ensures s.owner[j] < |s.threads| && s.threads[s.owner[j]].Owns(j)
  {
  }

  lemma OwnedAt(s: State, u: Tid, j: Id)
    requires OwnersOk(s) && u < |s.threads| && s.threads[u].Owns(j)
    ensures j in s.owner && s.owner[j] == u
  {
  }

  lemma OwnersOkIf(s: State)
    requires s.locks.Keys == s.owner.Keys && forall id :: id in s.locks ==> s.locks[id] == 1
    requires forall id :: id in s.owner ==> s.owner[id] < |s.threads| && s.threads[s.owner[id]].Owns(id)
    requires forall t, id :: 0 <= t < |s.threads| && s.threads[t].Owns(id) ==> id in s.owner && s.owner[id] == t
    ensures OwnersOk(s)
  {
  }

  lemma OwnerErased(s: State, s': State, t: Tid, x: Thread, id: Id)
    requires OwnersOk(s) && Changed(s, s', t, x) && s.threads[t].Owns(id)
    requires s'.locks == s.locks - {id} && s'.owner == s.owner - {id}
    requires forall j :: x.Owns(j) <==> s.threads[t].Owns(j) && j != id
    ensures OwnersOk(s')
  {
    hide Thread.Owns, OwnersOk;
    OwnersMean(s);
    forall j | j in s'.owner ensures s'.owner[j] < |s'.threads| && s'.threads[s'.owner[j]].Owns(j) {
      OwnerAt(s, j);
    }
    forall u, j | 0 <= u < |s'.threads| && s'.threads[u].Owns(j) ensures j in s'.owner && s'.owner[j] == u {
      OwnedAt(s, u, j);
      OwnedAt(s, t, id);
    }
    OwnersOkIf(s');
  }

  lemma FreeSame(s: State, s': State, t: Tid, x: Thread)
    requires FreeOk(s) && Changed(s, s', t, x) && s'.locks.Keys <= s.locks.Keys
    requires x.FoundFree() ==> x.pc.id !in s.locks
    ensures FreeOk(s')
  {
    hide Thread.FoundFree;
  }

  /** Entering an id takes it from no thread that found it free: that thread would be in the same stripe. */
  lemma FreeEntered(s: State, s': State, t: Tid, x: Thread, id: Id)
    requires FreeOk(s) && MutexOk(s) && Changed(s, s', t, x) && s'.locks == s.locks[id := 1]
    requires s.threads[t].pc.InSection() && s.threads[t].pc.id == id && !x.FoundFree()
    ensures FreeOk(s')
  {
    hide Stripe;
    forall u | 0 <= u < |s'.threads| && s'.threads[u].FoundFree() ensures s'.threads[u].pc.id !in s'.locks {
      assert s.threads[u].pc.InSection();
    }
  }

  // ---------------------------------------------------------------- every step keeps the invariant

  /** The thread an event is about. */
  function Actor(e: Event): Tid {
    match e
    case Go(t) => t
    case CallGet(t, _) => t
    case CallPut(t, _) => t
  }

  lemma OneChanges(s: State, e: Event) returns (x: Thread)
    requires Possible(s, e)
    ensures Changed(s, After(s, e), Actor(e), x) && x == After(s, e).threads[Actor(e)]
  {
    hide Stripe;
    x := After(s, e).threads[Actor(e)];
    assert After(s, e).threads == s.threads[Actor(e) := x];
  }

  lemma MutexKept(s: State, e: Event)
    requires Possible(s, e) && MutexOk(s)
    ensures MutexOk(After(s, e))
  {
    hide Stripe, MutexOk, Changed;
    var x := OneChanges(s, e);
    var t, s' := Actor(e), After(s, e);
    var pc := s.threads[t].pc;
    if e.Go? && (pc.GetLock? || pc.PutLock?) {
      MutexLocked(s, s', t, x);
    } else if e.Go? && (pc.GetUnlock? || pc.PutUnlock?) {
      MutexFreed(s, s', t, x);
    } else {
      MutexSame(s, s', t, x);
    }
  }

  lemma MapLockKept(s: State, e: Event)
    requires Possible(s, e) && MapLockOk(s)
    ensures MapLockOk(After(s, e))
  {
    hide Stripe, Changed;
    var x := OneChanges(s, e);
    var t, s' := Actor(e), After(s, e);
    var pc := s.threads[t].pc;
    if e.Go? && (pc.GetRead? || pc.GetWrite? || pc.PutWrite?) {
      MapTaken(s, s', t, x);
    } else if e.Go? && (pc.Reading() || pc.Writing()) {
      assert t in s.writers ==> pc.Writing();
      assert t in s.readers ==> pc.Reading();
      MapReleased(s, s', t, x);
    } else {
      MapSame(s, s', t, x);
    }
  }

  lemma OwnersKept(s: State, e: Event)
    requires Possible(s, e) && OwnersOk(s) && FreeOk(s) && PuttingOk(s)
    ensures OwnersOk(After(s, e))
  {
    hide Stripe, Changed, OwnersOk;
    var x := OneChanges(s, e);
    var t, s' := Actor(e), After(s, e);
    var pc := s.threads[t].pc;
    if e.Go? && pc.GetWrite? {
      OwnerEntered(s, s', t, x, pc.id);
    } else if e.Go? && pc.PutWrite? {
      OwnerErased(s, s', t, x, pc.id);
    } else {
      OwnersSame(s, s', t, x);
    }
  }

  lemma FreeKept(s: State, e: Event)
    requires Possible(s, e) && Inv(s)
    ensures FreeOk(After(s, e))
  {
    hide Stripe, Changed, MutexOk, MapLockOk;
    var x := OneChanges(s, e);
    var t, s' := Actor(e), After(s, e);
    var pc := s.threads[t].pc;
    if e.Go? && pc.GetWrite? {
      FreeEntered(s, s', t, x, pc.id);
    } else {
      FreeSame(s, s', t, x);
    }
  }

  lemma PuttingKept(s: State, e: Event)
    requires Possible(s, e) && PuttingOk(s)
    ensures PuttingOk(After(s, e))
  {
    hide Stripe;
    var x := OneChanges(s, e);
  }

  lemma StepKeepsInv(s: State, e: Event)
    requires Possible(s, e) && Inv(s)
    ensures Inv(After(s, e))
  {
    hide After, Possible, MutexOk, MapLockOk, OwnersOk, FreeOk, PuttingOk;
    MutexKept(s, e);
    MapLockKept(s, e);
    OwnersKept(s, e);
    FreeKept(s, e);
    PuttingKept(s, e);
  }

  // ---------------------------------------------------------------- whole runs

  ghost predicate Init(s: State) {
    && s.mutex == map[] && s.readers == {} && s.writers == {} && s.locks == map[] && s.owner == map[]
    && forall t :: 0 <= t < |s.threads| ==> s.threads[t] == Thread(Idle, {})
  }

  /** s' is reached from s by the events. */
  ghost predicate Runs(s: State, events: seq<Event>, s': State)
    decreases |events|
  {
    if events == [] then s' == s
    else Possible(s, events[0]) && Runs(After(s, events[0]), events[1..], s')
  }

  lemma {:induction false} RunKeepsInv(s: State, events: seq<Event>, s': State)
    requires Inv(s) && Runs(s, events, s')
    ensures Inv(s')
    decreases |events|
  {
    if events != [] {
      StepKeepsInv(s, events[0]);
      hide Inv, After, Possible;
      RunKeepsInv(After(s, events[0]), events[1..], s');
    }
  }

  /** In every interleaving at most one thread is between the return of get(id) and its put(id); and an id is
      in the map exactly while some thread owns it, so nothing is left behind. */
  lemma MutualExclusion(s: State, events: seq<Event>, s': State, id: Id)
    requires Init(s) && Runs(s, events, s')
    ensures forall t, u ::
              (&& 0 <= t < |s'.threads| && 0 <= u < |s'.threads|
               && id in s'.threads[t].held && id in s'.threads[u].held) ==> t == u
    ensures id in s'.locks <==> exists t :: 0 <= t < |s'.threads| && s'.threads[t].Owns(id)
  {
    hide Init, Runs, Inv, MutexOk, MapLockOk, FreeOk, PuttingOk;
    InitOk(s);
    RunKeepsInv(s, events, s');
    InvOwners(s');
    forall t | 0 <= t < |s'.threads| && id in s'.threads[t].held ensures id in s'.owner && s'.owner[id] == t {
      assert s'.threads[t].Owns(id);
    }
  }

  lemma InvOwners(s: State)
    requires Inv(s)
    ensures OwnersOk(s)
  {
  }

  lemma InitOk(s: State)
    requires Init(s)
    ensures Inv(s)
  {
  }

  // ---------------------------------------------------------------- no deadlock

  /** A thread that cannot go on waits for one inside a section, and some thread inside a section can go on. */
  lemma BlockedByProgress(s: State, t: Tid) returns (u: Tid)
    requires Inv(s) && t < |s.threads| && !s.threads[t].pc.Idle? && !CanGo(s, t)
    ensures u < |s.threads| && s.threads[u].pc.InSection() && CanGo(s, u)
  {
    hide Stripe, OwnersOk, FreeOk, PuttingOk;
    if s.writers != {} {
      u :| u in s.writers;
    } else if s.readers != {} {
      u :| u in s.readers;
    } else {
      u := s.mutex[Stripe(s.threads[t].pc.id)];
    }
  }

  /** Calls left before the stripe is unlocked. */
  function Left(pc: Pc): nat {
    match pc
    case GetRead(_) => 5
    case GetReadDone(_, _) => 4
    case GetWrite(_) => 3
    case GetWriteDone(_) => 2
    case GetUnlock(_, _) => 1
    case PutWrite(_) => 3
    case PutWriteDone(_) => 2
    case PutUnlock(_) => 1
    case _ => 0
  }

  lemma GetEnds(s: State, t: Tid)
    requires CanGo(s, t)
    requires s.threads[t].pc.GetRead? || s.threads[t].pc.GetReadDone? || s.threads[t].pc.GetWrite?
    ensures t < |Gone(s, t).threads|
    ensures Left(Gone(s, t).threads[t].pc) < Left(s.threads[t].pc) && Gone(s, t).threads[t].pc.InSection()
  {
    hide Stripe;
  }

  lemma UnlockEnds(s: State, t: Tid)
    requires CanGo(s, t)
    requires s.threads[t].pc.GetWriteDone? || s.threads[t].pc.GetUnlock?
    ensures t < |Gone(s, t).threads|
    ensures Left(Gone(s, t).threads[t].pc) < Left(s.threads[t].pc)
    ensures Gone(s, t).threads[t].pc.InSection() <==> s.threads[t].pc.GetWriteDone?
  {
    hide Stripe;
  }

  lemma PutEnds(s: State, t: Tid)
    requires CanGo(s, t)
    requires s.threads[t].pc.PutWrite? || s.threads[t].pc.PutWriteDone? || s.threads[t].pc.PutUnlock?
    ensures t < |Gone(s, t).threads|
    ensures Left(Gone(s, t).threads[t].pc) < Left(s.threads[t].pc)
    ensures Gone(s, t).threads[t].pc.InSection() <==> !s.threads[t].pc.PutUnlock?
  {
    hide Stripe;
  }

  lemma LeftOutside(pc: Pc)
    ensures Left(pc) == 0 <==> !pc.InSection()
  {
  }

  /** Inside a section each call brings the thread nearer to its end, so every lock taken is given back. */
  lemma SectionsEnd(s: State, t: Tid)
    requires CanGo(s, t) && s.threads[t].pc.InSection()
    ensures Left(Gone(s, t).threads[t].pc) < Left(s.threads[t].pc)
    ensures Left(Gone(s, t).threads[t].pc) == 0 <==> !Gone(s, t).threads[t].pc.InSection()
  {
    hide Stripe, Gone, Left;
    var pc := s.threads[t].pc;
    if pc.GetRead? || pc.GetReadDone? || pc.GetWrite? {
      GetEnds(s, t);
    } else if pc.GetWriteDone? || pc.GetUnlock? {
      UnlockEnds(s, t);
    } else {
      PutEnds(s, t);
    }
    LeftOutside(Gone(s, t).threads[t].pc);
  }

  /** How many calls of its own thread t makes. */
  function Steps(events: seq<Event>, t: Tid): nat {
    if events == [] then 0 else (if events[0] == Go(t) then 1 else 0) + Steps(events[1..], t)
  }

  /** Thread t is inside its section, and stays there through the whole run. */
  ghost predicate Stays(s: State, events: seq<Event>, t: Tid)
    decreases |events|
  {
    && t < |s.threads| && s.threads[t].pc.InSection()
    && (events != [] ==> Possible(s, events[0]) && Stays(After(s, events[0]), events[1..], t))
  }

  lemma OthersPc(s: State, e: Event, t: Tid)
    requires Possible(s, e) && t < |s.threads| && t != Actor(e)
    ensures t < |After(s, e).threads| && After(s, e).threads[t] == s.threads[t]
  {
    hide Stripe, Gone, After, Possible;
    var x := OneChanges(s, e);
  }

  /** In any run in which a thread stays inside its section it makes fewer calls than are left of it: with the fifth
      of its calls at the latest it has left. */
  lemma {:induction false} SectionLeft(s: State, events: seq<Event>, t: Tid)
    requires Stays(s, events, t)
    ensures Steps(events, t) < Left(s.threads[t].pc) <= 5
    decreases |events|
  {
    hide Gone, After, Stripe;
    if events != [] {
      var e := events[0];
      SectionLeft(After(s, e), events[1..], t);
      if Actor(e) == t {
        OnlyGoes(s, e);
        SectionsEnd(s, t);
      } else {
        OthersPc(s, e, t);
      }
    }
  }

  lemma OnlyGoes(s: State, e: Event)
    requires Possible(s, e) && s.threads[Actor(e)].pc.InSection()
    ensures e == Go(Actor(e)) && After(s, e) == Gone(s, Actor(e))
  {
    hide Gone;
  }

  /** In every reachable state, if any thread is inside a call then some thread can make its next call. */
  lemma NoDeadlock(s: State, events: seq<Event>, s': State, t: Tid)
    requires Init(s) && Runs(s, events, s') && t < |s'.threads| && !s'.threads[t].pc.Idle?
    ensures exists u: Tid :: u < |s'.threads| && CanGo(s', u) && (u == t || s'.threads[u].pc.InSection())
  {
    InitOk(s);
    RunKeepsInv(s, events, s');
    hide Init, Runs, Inv, CanGo;
    if !CanGo(s', t) {
      var u := BlockedByProgress(s', t);
    }
  }

  // ---------------------------------------------------------------- what get and put do

  ghost predicate Owned(s: State, id: Id) {
    exists u :: 0 <= u < |s.threads| && s.threads[u].Owns(id)
  }

  /** A run in which thread t is inside its section before every event, and outside it at the end. */
  ghost predicate Leaves(s: State, events: seq<Event>, s': State, t: Tid)
    decreases |events|
  {
    && t < |s.threads|
    && if events == [] then s' == s && !s.threads[t].pc.InSection()
       else && s.threads[t].pc.InSection() && Possible(s, events[0])
            && Leaves(After(s, events[0]), events[1..], s', t)
  }

  /** What a section is on its way to: an id taken, one found taken, or one given back. */
  datatype Way = Taking | Missing | Giving

  /** Where a thread that has read or erased the entry of id can be, the ids it held being h. */
  predicate Onward(x: Thread, id: Id, way: Way, h: set<Id>) {
    x.held == h &&
    match way
    case Taking => x.pc == GetReadDone(id, false) || x.pc == GetWrite(id) || x.pc == GetWriteDone(id) || x.pc == GetUnlock(id, false)
    case Missing => x.pc == GetReadDone(id, true) || x.pc == GetUnlock(id, true)
    case Giving => x.pc == PutWriteDone(id) || x.pc == PutUnlock(id)
  }

  /** Back from get with the id, asleep without it, or back from put. */
  function Outcome(id: Id, way: Way, h: set<Id>): Thread {
    match way
    case Taking => Thread(Idle, h + {id})
    case Missing => Thread(Asleep(id), h)
    case Giving => Thread(Idle, h)
  }

  lemma OnwardStep(s: State, t: Tid, id: Id, way: Way, h: set<Id>)
    requires CanGo(s, t) && Onward(s.threads[t], id, way, h)
    ensures t < |Gone(s, t).threads|
    ensures Onward(Gone(s, t).threads[t], id, way, h) || Gone(s, t).threads[t] == Outcome(id, way, h)
  {
    hide Stripe;
  }

  lemma OnwardInside(x: Thread, id: Id, way: Way, h: set<Id>)
    ensures Onward(x, id, way, h) ==> x.pc.InSection()
    ensures !Outcome(id, way, h).pc.InSection()
  {
  }

  lemma {:induction false} OnwardLeaves(s: State, events: seq<Event>, s': State, t: Tid, id: Id, way: Way, h: set<Id>)
    requires Leaves(s, events, s', t) && Onward(s.threads[t], id, way, h)
    ensures t < |s'.threads| && s'.threads[t] == Outcome(id, way, h)
    decreases |events|
  {
    hide Gone, After, Stripe, Onward, Outcome, Possible;
    OnwardInside(s.threads[t], id, way, h);
    var e := events[0];
    var u := After(s, e);
    if Actor(e) == t {
      OnlyGoes(s, e);
      GoPossible(s, t);
      OnwardStep(s, t, id, way, h);
      if u.threads[t] == Outcome(id, way, h) {
        assert events[1..] == [];
      } else {
        OnwardLeaves(u, events[1..], s', t, id, way, h);
      }
    } else {
      OthersPc(s, e, t);
      OnwardLeaves(u, events[1..], s', t, id, way, h);
    }
  }

  lemma GoPossible(s: State, t: Tid)
    requires Possible(s, Go(t))
    ensures CanGo(s, t)
  {
  }

  /** The look at the map finds the id taken exactly when some thread owns it. */
  lemma LooksUp(s: State, t: Tid, id: Id)
    requires OwnersOk(s) && CanGo(s, t) && s.threads[t].pc == GetRead(id)
    ensures t < |Gone(s, t).threads|
    ensures Onward(Gone(s, t).threads[t], id, if Owned(s, id) then Missing else Taking, s.threads[t].held)
  {
    hide Stripe, Thread.Owns;
    if id in s.locks { EntryOwned(s, id); }
  }

  /** In every interleaving: a thread that reads the map while nobody owns its id comes out of the section back from
      get and with the id; if somebody owns it, it comes out asleep, with what it held before. */
  lemma GetTakesFree(s0: State, before: seq<Event>, s: State, t: Tid, id: Id, after: seq<Event>, s': State)
    requires Init(s0) && Runs(s0, before, s)
    requires t < |s.threads| && s.threads[t].pc == GetRead(id)
    requires Leaves(s, [Go(t)] + after, s', t)
    ensures t < |s'.threads|
    ensures s'.threads[t] == if Owned(s, id) then Thread(Asleep(id), s.threads[t].held) else Thread(Idle, s.threads[t].held + {id})
  {
    hide Init, Runs, Inv, Gone, Stripe, Onward, MutexOk, MapLockOk, OwnersOk, FreeOk, PuttingOk;
    InitOk(s0);
    RunKeepsInv(s0, before, s);
    InvOwners(s);
    var events := [Go(t)] + after;
    assert events[0] == Go(t) && events[1..] == after;
    LooksUp(s, t, id);
    OnwardLeaves(Gone(s, t), after, s', t, id, if Owned(s, id) then Missing else Taking, s.threads[t].held);
  }

  /** The thread that erases the entry was the owner, so that nobody is then. */
  lemma Erases(s: State, t: Tid, id: Id)
    requires CanGo(s, t) && OwnersOk(s) && OwnersOk(Gone(s, t)) && s.threads[t].pc == PutWrite(id)
    ensures t < |Gone(s, t).threads| && Onward(Gone(s, t).threads[t], id, Giving, s.threads[t].held)
    ensures !Owned(Gone(s, t), id)
  {
    hide Stripe, Thread.Owns;
  }

  /** In every interleaving: when a thread has erased the entry of its id nobody owns it, and the thread comes out of
      the section back from put, with the other ids it holds. */
  lemma PutGivesBack(s0: State, before: seq<Event>, s: State, t: Tid, id: Id, after: seq<Event>, s': State)
    requires Init(s0) && Runs(s0, before, s)
    requires t < |s.threads| && s.threads[t].pc == PutWrite(id)
    requires Leaves(s, [Go(t)] + after, s', t)
    ensures Possible(s, Go(t)) && !Owned(After(s, Go(t)), id)
    ensures t < |s'.threads| && s'.threads[t] == Thread(Idle, s.threads[t].held) && id !in s'.threads[t].held
  {
    hide Init, Runs, Gone, Stripe, Onward, MutexOk, MapLockOk, OwnersOk, FreeOk, Owned;
    InitOk(s0);
    RunKeepsInv(s0, before, s);
    var events := [Go(t)] + after;
    assert events[0] == Go(t) && events[1..] == after;
    StepKeepsInv(s, Go(t));
    Erases(s, t, id);
    OnwardLeaves(Gone(s, t), after, s', t, id, Giving, s.threads[t].held);
  }

  /** n calls of thread t in a row. */
  function Calls(t: Tid, n: nat): seq<Event> {
    if n == 0 then [] else [Go(t)] + Calls(t, n - 1)
  }

  lemma StepOn(s: State, t: Tid, n: nat, s': State)
    requires CanGo(s, t) && Runs(Gone(s, t), Calls(t, n), s')
    ensures Runs(s, Calls(t, n + 1), s')
  {
    hide CanGo, Gone;
    assert Calls(t, n + 1)[0] == Go(t) && Calls(t, n + 1)[1..] == Calls(t, n);
    PossibleGo(s, t);
  }

  lemma PossibleGo(s: State, t: Tid)
    requires CanGo(s, t)
    ensures Possible(s, Go(t)) && After(s, Go(t)) == Gone(s, t)
  {
    hide Gone;
  }

  /** Nothing is locked for id, and the map has no entry for it. */
  predicate Clear(s: State, id: Id) {
    Stripe(id) !in s.mutex && s.readers == {} && s.writers == {} && id !in s.locks
  }

  /** The first three calls: to the lock of the stripe, the look at the map, and its release. */
  lemma FirstHalf(s: State, t: Tid, id: Id) returns (u: State)
    requires t < |s.threads| && s.threads[t].pc == GetLock(id) && Clear(s, id)
    ensures forall s' :: Runs(u, Calls(t, 3), s') ==> Runs(s, Calls(t, 6), s')
    ensures t < |u.threads| && u.threads[t] == s.threads[t].(pc := GetWrite(id)) && u.readers == {} && u.writers == {}
  {
    hide Stripe, Runs, Calls;
    var a := Gone(s, t);
    var b := Gone(a, t);
    u := Gone(b, t);
    assert b.readers == {t} && u.readers == {};
    forall s' | Runs(u, Calls(t, 3), s') ensures Runs(s, Calls(t, 6), s') {
      StepOn(b, t, 3, s');
      StepOn(a, t, 4, s');
      StepOn(s, t, 5, s');
    }
  }

  /** The other three: the entry, the map's release, and the stripe's. */
  lemma SecondHalf(s: State, t: Tid, id: Id) returns (u: State)
    requires t < |s.threads| && s.threads[t].pc == GetWrite(id) && s.readers == {} && s.writers == {}
    ensures Runs(s, Calls(t, 3), u)
    ensures t < |u.threads| && u.threads[t] == Thread(Idle, s.threads[t].held + {id})
  {
    hide Stripe, Runs, Calls;
    var a := Gone(s, t);
    var b := Gone(a, t);
    u := Gone(b, t);
    NoCalls(u, t);
    StepOn(b, t, 0, u);
    StepOn(a, t, 1, u);
    StepOn(s, t, 2, u);
  }

  lemma NoCalls(s: State, t: Tid)
    ensures Runs(s, Calls(t, 0), s)
  {
  }

  lemma {:induction false} OneRun(s: State, events: seq<Event>, u: State, s': State)
    requires Runs(s, events, u) && Runs(s, events, s')
    ensures u == s'
    decreases |events|
  {
    hide After, Possible;
    if events != [] { OneRun(After(s, events[0]), events[1..], u, s'); }
  }

  lemma EntryOwned(s: State, id: Id)
    requires OwnersOk(s) && id in s.locks
    ensures Owned(s, id)
  {
    hide Thread.Owns;
    assert s.threads[s.owner[id]].Owns(id);
  }

  lemma ClearOf(s: State, id: Id)
    requires OwnersOk(s) && !Owned(s, id) && Stripe(id) !in s.mutex && s.readers == {} && s.writers == {}
    ensures Clear(s, id)
  {
    hide Stripe, OwnersOk, Owned;
    if id in s.locks { EntryOwned(s, id); }
  }

  lemma CallsGet(s: State, t: Tid, id: Id)
    requires t < |s.threads| && s.threads[t].pc == Idle
    ensures Possible(s, CallGet(t, id))
    ensures var a := After(s, CallGet(t, id));
            t < |a.threads| && a.threads[t] == s.threads[t].(pc := GetLock(id)) && (Clear(s, id) ==> Clear(a, id))
  {
    hide Stripe;
  }

  /** In any state reached, a thread that calls get for an id nobody owns, while the id's stripe and the map are not
      locked, and then runs alone, can make its six calls, and then is back with the id. */
  lemma GetAlone(s0: State, before: seq<Event>, s: State, t: Tid, id: Id) returns (s': State)
    requires Init(s0) && Runs(s0, before, s)
    requires t < |s.threads| && s.threads[t].pc == Idle && !Owned(s, id)
    requires Stripe(id) !in s.mutex && s.readers == {} && s.writers == {}
    ensures Runs(s, [CallGet(t, id)] + Calls(t, 6), s')
    ensures forall u :: Runs(s, [CallGet(t, id)] + Calls(t, 6), u) ==> u == s'
    ensures t < |s'.threads| && s'.threads[t] == Thread(Idle, s.threads[t].held + {id})
  {
    hide Init, Inv, Gone, Stripe, MutexOk, MapLockOk, OwnersOk, FreeOk, PuttingOk, Clear, Owned, After, Possible;
    InitOk(s0);
    RunKeepsInv(s0, before, s);
    InvOwners(s);
    ClearOf(s, id);
    CallsGet(s, t, id);
    var events := [CallGet(t, id)] + Calls(t, 6);
    assert events[0] == CallGet(t, id) && events[1..] == Calls(t, 6);
    var a := After(s, CallGet(t, id));
    var b := FirstHalf(a, t, id);
    s' := SecondHalf(b, t, id);
    forall u | Runs(s, events, u) ensures u == s' {
      OneRun(s, events, u, s');
    }
  }
}
