/**
 * The host scheduler of src/module/UrlAnalyseManager.cpp: a vector of host slots, a priority queue of the slots in
 * use ordered by the time of their next turn, and a map from host names to slots. A slot's turn gives it out once
 * for each local address, and then it waits for its interval.
 */
module HostSchedule {
  /** A slot of the vector; an available one belongs to no host. */
  datatype Slot = Slot(host: string, nexttime: nat, emptytimes: nat, available: bool, interval: nat, retnum: nat)

  /** When a slot got its host, or ended its last turn. */
  datatype Mark = Got(at: nat) | Ended(at: nat)

  /** given, marks and clock are history: when each slot was given out since it got its host, what it waits from, and
      the last time read. */
  datatype State = State(slots: seq<Slot>, queue: multiset<nat>, hosts: map<string, nat>, given: seq<seq<nat>>,
                         marks: seq<Mark>, clock: nat)

  const EMPTY_TIMES := 100

  // ---------------------------------------------------------------- steps

  /** Slot i is one the priority queue may have at its top. */
  ghost predicate Least(s: State, i: nat) {
    && i in s.queue && i < |s.slots| == |s.given| == |s.marks|
    && forall j :: j in s.queue && j < |s.slots| ==> s.slots[i].nexttime <= s.slots[j].nexttime
  }

  function Cleared(x: Slot): Slot { Slot("", 0, 0, true, x.interval, 0) }

  /** The slot after its turn: it is due again an interval after now. */
  function Waiting(x: Slot, now: nat, empty: bool): Slot {
    x.(retnum := 0, nexttime := now + x.interval, emptytimes := if empty then x.emptytimes + 1 else 0)
  }

  /** What a call of getNextHost finds the top slot to be. */
  datatype Turn = NotDue | Give | Wait | Clear

  function TurnOf(x: Slot, localipnum: nat, now1: nat, empty: bool): Turn {
    if x.nexttime > now1 then NotDue
    else if x.retnum + 1 <= localipnum then Give
    else if (if empty then x.emptytimes + 1 else 0) > EMPTY_TIMES then Clear
    else Wait
  }

  /** getNextHost with slot i at the top; now1 and now2 are its readings of the clock, empty says that the host has
      no URL waiting. The result is the slot given out, with its address number. */
  function NextStep(s: State, localipnum: nat, i: nat, now1: nat, now2: nat, empty: bool): (State, seq<(nat, nat)>)
    requires i < |s.slots| == |s.given| == |s.marks|
  {
    var x := s.slots[i];
    match TurnOf(x, localipnum, now1, empty)
    case NotDue => (s.(clock := now1), [])
    case Give =>
      (s.(slots := s.slots[i := x.(retnum := x.retnum + 1)], given := s.given[i := s.given[i] + [now1]], clock := now1),
       [(i, x.retnum + 1)])
    case Clear =>
      (s.(slots := s.slots[i := Cleared(x)], queue := s.queue - multiset{i}, hosts := s.hosts - {x.host}, clock := now2), [])
    case Wait =>
      var t := s.(slots := s.slots[i := Waiting(x, now2, empty)], marks := s.marks[i := Ended(now2)], clock := now2);
      if localipnum == 0 then (t.(given := s.given[i := s.given[i] + [now2]]), [(i, 0)]) else (t, [])
  }

  /** findEmptyVector */
  function FirstAvailable(slots: seq<Slot>): (i: nat)
    ensures i <= |slots| && (i < |slots| ==> slots[i].available)
    ensures forall j :: 0 <= j < i ==> !slots[j].available
  {
    if slots == [] then 0 else if slots[0].available then 0 else 1 + FirstAvailable(slots[1..])
  }

  const INTERVAL := 500
  const LEAD := 2000

  /** The slot part of insertUrl: a new host takes the first available slot, or a new one; interval is what the kind
      of source asks for, if anything. */
  function InsertStep(s: State, host: string, interval: seq<nat>, now: nat): State
    requires |s.slots| == |s.given| == |s.marks|
  {
    if host in s.hosts then s
    else
      var i := FirstAvailable(s.slots);
      var kept := if i < |s.slots| then s.slots[i].interval else INTERVAL;
      var x := Slot(host, now + LEAD, 0, false, if interval != [] then interval[0] else kept, 0);
      var t := s.(queue := s.queue + multiset{i}, hosts := s.hosts[host := i], clock := now);
      if i < |s.slots| then t.(slots := s.slots[i := x], given := s.given[i := []], marks := s.marks[i := Got(now)])
      else t.(slots := s.slots + [x], given := s.given + [[]], marks := s.marks + [Got(now)])
  }

  // ---------------------------------------------------------------- invariant

  /** Every slot is available or in the queue exactly once. */
  ghost predicate QueueOk(slots: seq<Slot>, queue: multiset<nat>) {
    && (forall i :: i in queue ==> i < |slots|)
    && (forall i: nat :: i < |slots| ==> queue[i] == if slots[i].available then 0 else 1)
  }

  /** The map leads from the hosts of the slots in use to these slots. */
  ghost predicate HostsOk(slots: seq<Slot>, hosts: map<string, nat>) {
    && (forall h :: h in hosts ==> hosts[h] < |slots| && !slots[hosts[h]].available && slots[hosts[h]].host == h)
    && (forall i :: 0 <= i < |slots| && !slots[i].available ==> slots[i].host in hosts && hosts[slots[i].host] == i)
  }

  ghost predicate Filed(s: State) {
    |s.slots| == |s.given| == |s.marks| && QueueOk(s.slots, s.queue) && HostsOk(s.slots, s.hosts)
  }

  function Window(localipnum: nat): (w: nat)
    ensures w >= 1
  {
    if localipnum == 0 then 1 else localipnum
  }

  /** Any Window + 1 consecutive times span the interval. */
  predicate Spaced(times: seq<nat>, w: nat, interval: nat) {
    forall a :: 0 <= a && a + w < |times| ==> times[a] + interval <= times[a + w]
  }

  /** The slot's times are in the past and spaced, and all but those of the running turn are an interval before the
      next turn. */
  predicate Polite(x: Slot, times: seq<nat>, localipnum: nat, clock: nat) {
    && x.retnum <= localipnum && x.retnum <= |times|
    && (forall a :: 0 <= a < |times| ==> times[a] <= clock)
    && (forall a :: 0 <= a < |times| - x.retnum ==> times[a] + x.interval <= x.nexttime)
    && Spaced(times, Window(localipnum), x.interval)
  }

  /** Available slots are as clear() leaves them. */
  ghost predicate ClearOk(slots: seq<Slot>) {
    forall i :: 0 <= i < |slots| && slots[i].available ==> slots[i] == Cleared(slots[i])
  }

  /** When a slot in use is due: two seconds after it got its host, and then an interval after the end of its turn. */
  function DueAt(x: Slot, m: Mark): nat {
    match m
    case Got(at) => at + 2000
    case Ended(at) => at + x.interval
  }

  ghost predicate DueOk(slots: seq<Slot>, marks: seq<Mark>) {
    && |marks| == |slots|
    && forall i :: 0 <= i < |slots| && !slots[i].available ==> slots[i].nexttime == DueAt(slots[i], marks[i])
  }

  ghost predicate Inv(s: State, localipnum: nat) {
    && Filed(s) && ClearOk(s.slots) && DueOk(s.slots, s.marks)
    && forall i :: 0 <= i < |s.slots| && !s.slots[i].available ==> Polite(s.slots[i], s.given[i], localipnum, s.clock)
  }

  lemma PoliteLater(x: Slot, times: seq<nat>, localipnum: nat, clock: nat, clock': nat)
    requires Polite(x, times, localipnum, clock) && clock <= clock'
    ensures Polite(x, times, localipnum, clock')
  {
  }

  /** A slot that is due is given out within its turn. */
  lemma PoliteGiven(x: Slot, times: seq<nat>, localipnum: nat, clock: nat, now: nat)
    requires Polite(x, times, localipnum, clock) && clock <= now && x.nexttime <= now && x.retnum < localipnum
    ensures Polite(x.(retnum := x.retnum + 1), times + [now], localipnum, now)
  {
  }

  /** A slot at the end of its turn waits for its interval. */
  lemma PoliteWaits(x: Slot, times: seq<nat>, localipnum: nat, clock: nat, now: nat, empty: bool)
    requires Polite(x, times, localipnum, clock) && clock <= now
    ensures Polite(Waiting(x, now, empty), times, localipnum, now)
  {
  }

  /** Without local addresses the turn is the one time the slot is given out. */
  lemma PoliteOnce(x: Slot, times: seq<nat>, clock: nat, now1: nat, now2: nat, empty: bool)
    requires Polite(x, times, 0, clock) && clock <= now1 <= now2 && x.nexttime <= now1
    ensures Polite(Waiting(x, now2, empty), times + [now2], 0, now2)
  {
  }

  lemma FiledLengths(s: State)
    requires Filed(s)
    ensures |s.slots| == |s.given| == |s.marks|
  {
  }

  lemma NextClear(s: State, localipnum: nat, i: nat, now1: nat, now2: nat, empty: bool)
    requires Filed(s) && Least(s, i) && ClearOk(s.slots)
    ensures ClearOk(NextStep(s, localipnum, i, now1, now2, empty).0.slots)
  {
    hide QueueOk, HostsOk;
    InUse(s, i);
  }

  lemma NextDue(s: State, localipnum: nat, i: nat, now1: nat, now2: nat, empty: bool)
    requires i < |s.slots| == |s.given| == |s.marks| && DueOk(s.slots, s.marks)
    requires !s.slots[i].available
    ensures var t := NextStep(s, localipnum, i, now1, now2, empty).0; DueOk(t.slots, t.marks)
  {
  }

  lemma InsertDue(s: State, host: string, interval: seq<nat>, now: nat)
    requires |s.slots| == |s.given| == |s.marks| && DueOk(s.slots, s.marks)
    ensures var t := InsertStep(s, host, interval, now); DueOk(t.slots, t.marks)
  {
  }

  lemma InsertClear(s: State, host: string, interval: seq<nat>, now: nat)
    requires |s.slots| == |s.given| == |s.marks| && ClearOk(s.slots)
    ensures ClearOk(InsertStep(s, host, interval, now).slots)
  {
  }

  lemma NextKeeps(s: State, localipnum: nat, i: nat, now1: nat, now2: nat, empty: bool)
    requires Inv(s, localipnum) && Least(s, i) && s.clock <= now1 <= now2
    ensures Inv(NextStep(s, localipnum, i, now1, now2, empty).0, localipnum)
  {
    hide Spaced, ClearOk, Filed, Waiting, DueOk;
    NextClear(s, localipnum, i, now1, now2, empty);
    InUse(s, i);
    NextDue(s, localipnum, i, now1, now2, empty);
    var t := NextStep(s, localipnum, i, now1, now2, empty).0;
    NextFiled(s, localipnum, i, now1, now2, empty);
    FiledLengths(t);
    forall k | 0 <= k < |t.slots| && !t.slots[k].available ensures Polite(t.slots[k], t.given[k], localipnum, t.clock) {
      if k != i {
        PoliteLater(s.slots[k], s.given[k], localipnum, s.clock, t.clock);
      } else {
        var x := s.slots[i];
        match TurnOf(x, localipnum, now1, empty)
        case NotDue => PoliteLater(x, s.given[i], localipnum, s.clock, now1);
        case Give => PoliteGiven(x, s.given[i], localipnum, s.clock, now1);
        case Clear =>
        case Wait =>
          if localipnum == 0 {
            PoliteOnce(x, s.given[i], s.clock, now1, now2, empty);
          } else {
            PoliteWaits(x, s.given[i], localipnum, s.clock, now2, empty);
          }
      }
    }
  }

  lemma SameFiled(slots: seq<Slot>, queue: multiset<nat>, hosts: map<string, nat>, i: nat, x: Slot)
    requires QueueOk(slots, queue) && HostsOk(slots, hosts) && i < |slots|
    requires x.available == slots[i].available && x.host == slots[i].host
    ensures QueueOk(slots[i := x], queue) && HostsOk(slots[i := x], hosts)
  {
  }

  lemma ClearedFiled(slots: seq<Slot>, queue: multiset<nat>, hosts: map<string, nat>, i: nat, x: Slot)
    requires QueueOk(slots, queue) && HostsOk(slots, hosts) && i < |slots| && !slots[i].available && x.available
    ensures QueueOk(slots[i := x], queue - multiset{i}) && HostsOk(slots[i := x], hosts - {slots[i].host})
  {
  }

  lemma TakenFiled(slots: seq<Slot>, queue: multiset<nat>, hosts: map<string, nat>, i: nat, x: Slot)
    requires QueueOk(slots, queue) && HostsOk(slots, hosts) && i < |slots| && slots[i].available
    requires !x.available && x.host !in hosts
    ensures QueueOk(slots[i := x], queue + multiset{i}) && HostsOk(slots[i := x], hosts[x.host := i])
  {
  }

  lemma GrownFiled(slots: seq<Slot>, queue: multiset<nat>, hosts: map<string, nat>, x: Slot)
    requires QueueOk(slots, queue) && HostsOk(slots, hosts) && !x.available && x.host !in hosts
    ensures QueueOk(slots + [x], queue + multiset{|slots|}) && HostsOk(slots + [x], hosts[x.host := |slots|])
  {
  }

  lemma NextFiled(s: State, localipnum: nat, i: nat, now1: nat, now2: nat, empty: bool)
    requires Filed(s) && Least(s, i)
    ensures Filed(NextStep(s, localipnum, i, now1, now2, empty).0)
  {
    hide QueueOk, HostsOk, TurnOf;
    InUse(s, i);
    var x := s.slots[i];
    match TurnOf(x, localipnum, now1, empty)
    case NotDue =>
    case Give => SameFiled(s.slots, s.queue, s.hosts, i, x.(retnum := x.retnum + 1));
    case Clear => ClearedFiled(s.slots, s.queue, s.hosts, i, Cleared(x));
    case Wait => SameFiled(s.slots, s.queue, s.hosts, i, Waiting(x, now2, empty));
  }

  lemma InUse(s: State, i: nat)
    requires Filed(s) && i in s.queue
    ensures i < |s.slots| && !s.slots[i].available
  {
  }

  lemma InsertFiled(s: State, host: string, interval: seq<nat>, now: nat)
    requires Filed(s)
    ensures Filed(InsertStep(s, host, interval, now))
  {
    hide QueueOk, HostsOk, FirstAvailable;
    if host !in s.hosts {
      var i := FirstAvailable(s.slots);
      var t := InsertStep(s, host, interval, now);
      if i < |s.slots| {
        TakenFiled(s.slots, s.queue, s.hosts, i, t.slots[i]);
      } else {
        GrownFiled(s.slots, s.queue, s.hosts, t.slots[|s.slots|]);
      }
    }
  }

  lemma InsertKeeps(s: State, localipnum: nat, host: string, interval: seq<nat>, now: nat)
    requires Inv(s, localipnum) && s.clock <= now
    ensures Inv(InsertStep(s, host, interval, now), localipnum)
  {
    hide Spaced, ClearOk, Filed, DueOk;
    FiledLengths(s);
    InsertClear(s, host, interval, now);
    InsertDue(s, host, interval, now);
    var t := InsertStep(s, host, interval, now);
    InsertFiled(s, host, interval, now);
    forall k | 0 <= k < |t.slots| && !t.slots[k].available ensures Polite(t.slots[k], t.given[k], localipnum, t.clock) {
      if k < |s.slots| && !s.slots[k].available {
        PoliteLater(s.slots[k], s.given[k], localipnum, s.clock, t.clock);
      } else {
        PoliteNew(t.slots[k], localipnum, t.clock);
      }
    }
  }

  lemma PoliteNew(x: Slot, localipnum: nat, clock: nat)
    requires x.retnum == 0
    ensures Polite(x, [], localipnum, clock)
  {
  }

  // ---------------------------------------------------------------- whole runs

  datatype Event =
    | Next(top: nat, now1: nat, now2: nat, empty: bool)
    | Insert(host: string, interval: seq<nat>, now: nat)

  /** The clock does not go back, and the top slot is one with the least time. */
  ghost predicate Possible(s: State, e: Event) {
    match e
    case Next(i, now1, now2, _) => Least(s, i) && s.clock <= now1 <= now2
    case Insert(_, _, now) => |s.slots| == |s.given| == |s.marks| && s.clock <= now
  }

  ghost function After(s: State, localipnum: nat, e: Event): State
    requires Possible(s, e)
  {
    match e
    case Next(i, now1, now2, empty) => NextStep(s, localipnum, i, now1, now2, empty).0
    case Insert(host, interval, now) => InsertStep(s, host, interval, now)
  }

  ghost predicate Runs(s: State, localipnum: nat, events: seq<Event>, s': State)
    decreases |events|
  {
    if events == [] then s' == s
    else Possible(s, events[0]) && Runs(After(s, localipnum, events[0]), localipnum, events[1..], s')
  }

  const EMPTY := State([], multiset{}, map[], [], [], 0)

  lemma {:induction false} RunKeepsInv(s: State, localipnum: nat, events: seq<Event>, s': State)
    requires Inv(s, localipnum) && Runs(s, localipnum, events, s')
    ensures Inv(s', localipnum)
    decreases |events|
  {
    if events != [] {
      var t := After(s, localipnum, events[0]);
      match events[0] {
        case Next(i, now1, now2, empty) => NextKeeps(s, localipnum, i, now1, now2, empty);
        case Insert(host, interval, now) => InsertKeeps(s, localipnum, host, interval, now);
      }
      hide Inv, NextStep, InsertStep, Possible;
      RunKeepsInv(t, localipnum, events[1..], s');
    }
  }

  /** In every run, any max(1, localipnum) + 1 consecutive times a slot is given out, since it got its host, span the
      slot's interval; and every slot is available or in the queue exactly once. */
  lemma Politeness(localipnum: nat, events: seq<Event>, s: State, i: nat, a: nat)
    requires Runs(EMPTY, localipnum, events, s) && i < |s.slots|
    ensures i < |s.given| && s.queue[i] == if s.slots[i].available then 0 else 1
    ensures !s.slots[i].available && a + Window(localipnum) < |s.given[i]| ==>
              s.given[i][a] + s.slots[i].interval <= s.given[i][a + Window(localipnum)]
  {
    hide NextStep, InsertStep, After, Possible, Runs;
    RunKeepsInv(EMPTY, localipnum, events, s);
  }

  // ---------------------------------------------------------------- nobody starves

  /** What an event hands out: a slot and the number of the local address. */
  ghost function Reply(s: State, localipnum: nat, e: Event): seq<(nat, nat)>
    requires Possible(s, e)
  {
    match e
    case Next(i, now1, now2, empty) => NextStep(s, localipnum, i, now1, now2, empty).1
    case Insert(_, _, _) => []
  }

  /** No slot in the queue is due. */
  ghost predicate AllEarly(s: State, now: nat) {
    forall j: nat :: j in s.queue && j < |s.slots| == |s.marks| ==> now < DueAt(s.slots[j], s.marks[j])
  }

  lemma EarlyStep(s: State, localipnum: nat, top: nat, now1: nat, now2: nat, empty: bool)
    requires Inv(s, localipnum) && Least(s, top)
    ensures var (t, out) := NextStep(s, localipnum, top, now1, now2, empty);
            out == [] && t.slots == s.slots <==> AllEarly(s, now1)
  {
    hide HostsOk, Spaced, ClearOk;
    var x := s.slots[top];
    assert x.nexttime == DueAt(x, s.marks[top]);
    var t := NextStep(s, localipnum, top, now1, now2, empty).0;
    if x.nexttime <= now1 {
      assert t.slots[top] != s.slots[top] || NextStep(s, localipnum, top, now1, now2, empty).1 != [];
    } else {
      forall j: nat | j in s.queue && j < |s.slots| ensures now1 < DueAt(s.slots[j], s.marks[j]) {
        assert s.queue[j] == 1 && !s.slots[j].available;
      }
    }
  }

  /** In every run, a call gives nothing and leaves every slot as it is if and only if no slot in the queue is due: each
      ended its last turn less than its interval ago, or got its host less than two seconds ago. */
  lemma NothingOnlyEarly(localipnum: nat, events: seq<Event>, s: State, top: nat, now1: nat, now2: nat, empty: bool)
    requires Runs(EMPTY, localipnum, events, s) && Possible(s, Next(top, now1, now2, empty))
    ensures var e := Next(top, now1, now2, empty);
            Reply(s, localipnum, e) == [] && After(s, localipnum, e).slots == s.slots <==> AllEarly(s, now1)
  {
    RunKeepsInv(EMPTY, localipnum, events, s);
    hide Inv, NextStep, AllEarly, Runs;
    EarlyStep(s, localipnum, top, now1, now2, empty);
  }

  lemma DueStep(s: State, localipnum: nat, top: nat, now1: nat, now2: nat, empty: bool)
    requires Inv(s, localipnum) && Least(s, top) && DueAt(s.slots[top], s.marks[top]) <= now1
    ensures NextStep(s, localipnum, top, now1, now2, empty).1 ==
              if s.slots[top].retnum < localipnum then [(top, s.slots[top].retnum + 1)]
              else if localipnum == 0 && !(empty && s.slots[top].emptytimes >= 100) then [(top, 0)]
              else []
  {
    hide HostsOk, Spaced, ClearOk;
    assert s.queue[top] == 1;
  }

  /** In every run, the top slot that is due is given out with its next address as long as there is one; with no
      local addresses it is given out once, unless its host was empty for too long. */
  lemma GivenWhenDue(localipnum: nat, events: seq<Event>, s: State, top: nat, now1: nat, now2: nat, empty: bool)
    requires Runs(EMPTY, localipnum, events, s) && Possible(s, Next(top, now1, now2, empty))
    requires DueAt(s.slots[top], s.marks[top]) <= now1
    ensures Reply(s, localipnum, Next(top, now1, now2, empty)) ==
              if s.slots[top].retnum < localipnum then [(top, s.slots[top].retnum + 1)]
              else if localipnum == 0 && !(empty && s.slots[top].emptytimes >= 100) then [(top, 0)]
              else []
  {
    RunKeepsInv(EMPTY, localipnum, events, s);
    hide Inv, NextStep, Runs;
    DueStep(s, localipnum, top, now1, now2, empty);
  }

  /** A host that is alone is given out by the first call at or after the end of its last turn plus its interval. */
  lemma AloneIsGiven(localipnum: nat, events: seq<Event>, s: State, i: nat, now1: nat, now2: nat)
    requires Runs(EMPTY, localipnum, events, s) && i < |s.slots| && s.queue == multiset{i}
    requires s.slots[i].retnum == 0 && s.clock <= now1 <= now2
    ensures i < |s.marks| && (DueAt(s.slots[i], s.marks[i]) <= now1 ==>
              && Possible(s, Next(i, now1, now2, false))
              && Reply(s, localipnum, Next(i, now1, now2, false)) == [(i, if localipnum > 0 then 1 else 0)])
  {
    RunKeepsInv(EMPTY, localipnum, events, s);
    hide Inv, NextStep, Runs;
    SameLengths(s, localipnum);
    if DueAt(s.slots[i], s.marks[i]) <= now1 {
      GivenWhenDue(localipnum, events, s, i, now1, now2, false);
    }
  }

  // ---------------------------------------------------------------- which hosts are dropped

  /** Slot i is due with no address left: a call ends its turn. */
  predicate TurnEnds(s: State, localipnum: nat, i: nat, now: nat) {
    i < |s.slots| == |s.marks| && DueAt(s.slots[i], s.marks[i]) <= now && s.slots[i].retnum >= localipnum
  }

  /** How many turns of slot i in a row ended with no URL waiting, when n did before the event. */
  ghost function Count(s: State, localipnum: nat, e: Event, i: nat, n: nat): nat {
    if i !in s.queue then 0
    else match e
      case Next(top, now1, _, empty) => if top == i && TurnEnds(s, localipnum, i, now1) then (if empty then n + 1 else 0) else n
      case Insert(_, _, _) => n
  }

  ghost function Streak(s: State, localipnum: nat, events: seq<Event>, i: nat, n: nat): nat
    decreases |events|
  {
    if events == [] || !Possible(s, events[0]) then n
    else Streak(After(s, localipnum, events[0]), localipnum, events[1..], i, Count(s, localipnum, events[0], i, n))
  }

  /** The slot's own count is n. */
  predicate Counted(s: State, i: nat, n: nat) {
    i in s.queue ==> i < |s.slots| && s.slots[i].emptytimes == n
  }

  lemma NextCounted(s: State, localipnum: nat, top: nat, now1: nat, now2: nat, empty: bool, i: nat, n: nat)
    requires Inv(s, localipnum) && Least(s, top) && Counted(s, i, n)
    ensures Counted(NextStep(s, localipnum, top, now1, now2, empty).0, i, Count(s, localipnum, Next(top, now1, now2, empty), i, n))
  {
    hide HostsOk, Spaced, ClearOk;
    assert s.queue[top] == 1 && s.slots[top].retnum <= localipnum;
  }

  lemma InsertCounted(s: State, localipnum: nat, host: string, interval: seq<nat>, now: nat, i: nat, n: nat)
    requires Inv(s, localipnum) && Counted(s, i, n)
    ensures Counted(InsertStep(s, host, interval, now), i, Count(s, localipnum, Insert(host, interval, now), i, n))
  {
    hide HostsOk, Polite;
    var k := FirstAvailable(s.slots);
    assert k < |s.slots| ==> s.queue[k] == 0;
  }

  lemma {:induction false} RunCounted(s: State, localipnum: nat, events: seq<Event>, s': State, i: nat, n: nat)
    requires Inv(s, localipnum) && Runs(s, localipnum, events, s') && Counted(s, i, n)
    ensures Counted(s', i, Streak(s, localipnum, events, i, n))
    decreases |events|
  {
    hide Inv, NextStep, InsertStep, Counted, Count, Least;
    if events != [] {
      match events[0] {
        case Next(top, now1, now2, empty) =>
          NextKeeps(s, localipnum, top, now1, now2, empty);
          NextCounted(s, localipnum, top, now1, now2, empty, i, n);
        case Insert(host, interval, now) =>
          InsertKeeps(s, localipnum, host, interval, now);
          InsertCounted(s, localipnum, host, interval, now, i, n);
      }
      RunCounted(After(s, localipnum, events[0]), localipnum, events[1..], s', i, Count(s, localipnum, events[0], i, n));
    }
  }

  lemma Drops(s: State, localipnum: nat, top: nat, now1: nat, now2: nat, empty: bool)
    requires Inv(s, localipnum) && Least(s, top)
    ensures var t := NextStep(s, localipnum, top, now1, now2, empty).0;
            && (top !in t.queue <==> TurnEnds(s, localipnum, top, now1) && empty && s.slots[top].emptytimes >= 100)
            && (forall j :: j in s.queue && j != top ==> j in t.queue)
            && t.hosts == if top in t.queue then s.hosts else s.hosts - {s.slots[top].host}
  {
    hide HostsOk, Spaced, ClearOk;
    assert s.queue[top] == 1 && s.slots[top].retnum <= localipnum;
  }

  /** In every run, a call drops the host it looks at, and no other, if and only if its turn ends with no URL waiting
      for it as a hundred of its turns before have, one after the other since it got its slot. */
  lemma DroppedIff(localipnum: nat, events: seq<Event>, s: State, top: nat, now1: nat, now2: nat, empty: bool)
    requires Runs(EMPTY, localipnum, events, s) && Possible(s, Next(top, now1, now2, empty))
    ensures var t := After(s, localipnum, Next(top, now1, now2, empty));
            && (top !in t.queue <==>
                  TurnEnds(s, localipnum, top, now1) && empty && Streak(EMPTY, localipnum, events, top, 0) >= 100)
            && (forall j :: j in s.queue && j != top ==> j in t.queue)
            && t.hosts == if top in t.queue then s.hosts else s.hosts - {s.slots[top].host}
  {
    RunKeepsInv(EMPTY, localipnum, events, s);
    hide Inv, NextStep, Runs, TurnEnds, Streak;
    RunCounted(EMPTY, localipnum, events, s, top, 0);
    Drops(s, localipnum, top, now1, now2, empty);
  }

  /** A new host is due two seconds from now, with the interval asked for, or that of the slot it got: half a second
      for a slot that had no host before. */
  lemma NewHost(localipnum: nat, events: seq<Event>, s: State, host: string, interval: seq<nat>, now: nat)
    requires Runs(EMPTY, localipnum, events, s) && s.clock <= now && host !in s.hosts
    ensures |s.slots| == |s.given| == |s.marks|
    ensures var t := After(s, localipnum, Insert(host, interval, now));
            && host in t.hosts && t.hosts[host] < |t.slots| && t.hosts[host] in t.queue && t.hosts[host] !in s.queue
            && t.slots[t.hosts[host]] == Slot(host, now + 2000, 0, false,
                 if interval != [] then interval[0] else if t.hosts[host] < |s.slots| then s.slots[t.hosts[host]].interval else 500, 0)
  {
    RunKeepsInv(EMPTY, localipnum, events, s);
    hide Runs, HostsOk, Polite;
    var k := FirstAvailable(s.slots);
    assert k < |s.slots| ==> s.queue[k] == 0;
  }

  // ---------------------------------------------------------------- the order of the addresses

  /** The addresses with which a run gives out slot i. */
  ghost function Addresses(s: State, localipnum: nat, events: seq<Event>, i: nat): seq<nat>
    decreases |events|
  {
    if events == [] || !Possible(s, events[0]) then []
    else
      var out := Reply(s, localipnum, events[0]);
      (if out != [] && out[0].0 == i then [out[0].1] else []) + Addresses(After(s, localipnum, events[0]), localipnum, events[1..], i)
  }

  /** Each is the one after the last, r at first, and 1 comes after n. */
  predicate InOrder(r: nat, n: nat, a: seq<nat>)
    decreases |a|
  {
    a == [] || (a[0] == (if r == n then 1 else r + 1) && InOrder(a[0], n, a[1..]))
  }

  lemma OrderTurns(n: nat, a: seq<nat>)
    requires n > 0 && InOrder(0, n, a)
    ensures InOrder(n, n, a)
  {
  }

  function LastAddress(s: State, i: nat): nat {
    if i < |s.slots| then s.slots[i].retnum else 0
  }

  lemma NextOrder(s: State, localipnum: nat, top: nat, now1: nat, now2: nat, empty: bool, i: nat)
    requires localipnum > 0 && Inv(s, localipnum) && Least(s, top)
    ensures var (t, out) := NextStep(s, localipnum, top, now1, now2, empty);
            var r, r' := LastAddress(s, i), LastAddress(t, i);
            if out != [] && out[0].0 == i then out == [(i, r + 1)] && r < localipnum && r' == r + 1
            else r' == r || (r == localipnum && r' == 0)
  {
    hide HostsOk, Spaced, ClearOk;
    assert s.queue[top] == 1;
  }

  lemma InsertOrder(s: State, localipnum: nat, host: string, interval: seq<nat>, now: nat, i: nat)
    requires Inv(s, localipnum)
    ensures LastAddress(InsertStep(s, host, interval, now), i) == LastAddress(s, i)
  {
    hide HostsOk, QueueOk, Spaced, Polite;
  }

  lemma {:induction false} RunInOrder(s: State, localipnum: nat, events: seq<Event>, s': State, i: nat)
    requires localipnum > 0 && Inv(s, localipnum) && Runs(s, localipnum, events, s')
    ensures InOrder(LastAddress(s, i), localipnum, Addresses(s, localipnum, events, i))
    decreases |events|
  {
    hide Inv, NextStep, InsertStep, LastAddress, Least;
    if events != [] {
      var t := After(s, localipnum, events[0]);
      match events[0] {
        case Next(top, now1, now2, empty) =>
          NextKeeps(s, localipnum, top, now1, now2, empty);
          NextOrder(s, localipnum, top, now1, now2, empty, i);
        case Insert(host, interval, now) =>
          InsertKeeps(s, localipnum, host, interval, now);
          InsertOrder(s, localipnum, host, interval, now, i);
      }
      RunInOrder(t, localipnum, events[1..], s', i);
      var a := Addresses(t, localipnum, events[1..], i);
      var out := Reply(s, localipnum, events[0]);
      if out != [] && out[0].0 == i {
        assert ([out[0].1] + a)[1..] == a;
      } else {
        assert [] + a == a;
        if LastAddress(t, i) != LastAddress(s, i) { OrderTurns(localipnum, a); }
      }
    }
  }

  /** In every run, the addresses with which a slot is given out are 1, 2, ..., localipnum, and then 1 again. */
  lemma AddressesInOrder(localipnum: nat, events: seq<Event>, s: State, i: nat)
    requires localipnum > 0 && Runs(EMPTY, localipnum, events, s)
    ensures InOrder(0, localipnum, Addresses(EMPTY, localipnum, events, i))
  {
    hide Runs, Addresses, InOrder;
    RunInOrder(EMPTY, localipnum, events, s, i);
  }

  // ---------------------------------------------------------------- the manager

  class HostNode {
    var host: string
    var nexttime: nat
    var emptytimes: nat
    var available: bool
    var interval: nat
    var retnum: nat

    ghost function AsSlot(): Slot
      reads this
    {
      Slot(host, nexttime, emptytimes, available, interval, retnum)
    }

    constructor ()
      ensures AsSlot() == Slot("", 0, 0, false, INTERVAL, 0)
    {
      host, nexttime, emptytimes, available, interval, retnum := "", 0, 0, false, INTERVAL, 0;
    }

    method Clear()
      modifies this
      ensures AsSlot() == Cleared(old(AsSlot()))
    {
      available, host, nexttime, emptytimes, retnum := true, "", 0, 0, 0;
    }

    /** Wait, and clear the slot when it has been empty for too long; was is the host it had. */
    method Turn(now: nat, empty: bool) returns (gone: bool, was: string)
      modifies this
      ensures var w := Waiting(old(AsSlot()), now, empty);
              gone == (w.emptytimes > EMPTY_TIMES) && was == w.host == old(AsSlot()).host && AsSlot() == if gone then Cleared(old(AsSlot())) else w
    {
      ClearedWaiting(AsSlot(), now, empty);
      Wait(now, empty);
      gone, was := emptytimes > EMPTY_TIMES, host;
      if gone {
        Clear();
      }
    }

    /** The slot's own part of the end of its turn. */
    method Wait(now: nat, empty: bool)
      modifies this
      ensures AsSlot() == Waiting(old(AsSlot()), now, empty)
    {
      retnum := 0;
      nexttime := now + interval;
      if empty {
        emptytimes := emptytimes + 1;
      } else {
        emptytimes := 0;
      }
    }
  }

  /** What the end of a turn does to slot, queue and map. */
  lemma EndsTurn(s: State, localipnum: nat, i: nat, now1: nat, now2: nat, empty: bool)
    requires i < |s.slots| == |s.given| == |s.marks| && s.slots[i].nexttime <= now1 && s.slots[i].retnum + 1 > localipnum
    ensures var x := s.slots[i];
            var w := Waiting(x, now2, empty);
            NextStep(s, localipnum, i, now1, now2, empty) ==
              if w.emptytimes > EMPTY_TIMES then
                (s.(slots := s.slots[i := Cleared(x)], queue := s.queue - multiset{i}, hosts := s.hosts - {x.host}, clock := now2), [])
              else if localipnum == 0 then
                (s.(slots := s.slots[i := w], clock := now2, marks := s.marks[i := Ended(now2)],
                    given := s.given[i := s.given[i] + [now2]]), [(i, 0)])
              else (s.(slots := s.slots[i := w], marks := s.marks[i := Ended(now2)], clock := now2), [])
  {
  }

  class UrlAnalyseManager {
    const localipnum: nat
    var hostsVector: seq<HostNode>
    var hosts: seq<nat>
    var hostToFifoqueue: map<string, nat>
    ghost var slots: seq<Slot>
    ghost var given: seq<seq<nat>>
    ghost var marks: seq<Mark>
    ghost var clock: nat

    ghost function Value(): State
      reads this
    {
      State(slots, multiset(hosts), hostToFifoqueue, given, marks, clock)
    }

    ghost predicate Mirrors()
      reads `slots, `hostsVector, hostsVector
    {
      && |slots| == |hostsVector|
      && (forall i :: 0 <= i < |slots| ==> slots[i] == hostsVector[i].AsSlot())
      && (forall i, j :: 0 <= i < j < |hostsVector| ==> hostsVector[i] != hostsVector[j])
    }

    ghost predicate Valid()
      reads this, hostsVector
    {
      Mirrors() && Inv(Value(), localipnum)
    }

    constructor (localipnum: nat)
      ensures Valid() && Value() == EMPTY && this.localipnum == localipnum
    {
      this.localipnum := localipnum;
      hostsVector, hosts, hostToFifoqueue := [], [], map[];
      slots, given, marks, clock := [], [], [], 0;
    }

    /** The priority queue's top, as a place in it: one with the least time. */
    method Top() returns (k: nat)
      requires Mirrors() && hosts != [] && |slots| == |given| == |marks| && forall m :: 0 <= m < |hosts| ==> hosts[m] < |slots|
      ensures k < |hosts| && Least(Value(), hosts[k])
    {
      k := 0;
      for n := 1 to |hosts|
        invariant k < |hosts| && forall m :: 0 <= m < n ==> slots[hosts[k]].nexttime <= slots[hosts[m]].nexttime
      {
        if hostsVector[hosts[n]].nexttime < hostsVector[hosts[k]].nexttime {
          k := n;
        }
      }
      assert forall j :: j in multiset(hosts) ==> j in hosts;
      assert hosts[k] in multiset(hosts);
    }

    /** getNextHost; i is the slot that was at the top. */
    method GetNextHost(now1: nat, now2: nat, empty: bool) returns (out: seq<(nat, nat)>, ghost i: nat)
      requires Valid() && clock <= now1 <= now2
      modifies this, hostsVector
      ensures Valid()
      ensures old(hosts) == [] ==> out == [] && Value() == old(Value())
      ensures old(hosts) != [] ==> Least(old(Value()), i) && (Value(), out) == NextStep(old(Value()), localipnum, i, now1, now2, empty)
      ensures out == [] && slots == old(slots) <==> AllEarly(old(Value()), now1)
    {
      hide Inv, NextStep, HostsOk, QueueOk, Least, AllEarly;
      out, i := [], 0;
      if |hosts| == 0 {
        NoneEarly(Value(), now1);
        return;
      }
      QueueInside(Value(), localipnum);
      assert forall m :: 0 <= m < |hosts| ==> hosts[m] in multiset(hosts);
      var k := Top();
      var id := hosts[k];
      i := id;
      NextKeeps(Value(), localipnum, i, now1, now2, empty);
      EarlyStep(Value(), localipnum, i, now1, now2, empty);
      LeastInside(Value(), i);
      out := Turn(id, k, now1, now2, empty);
    }

    /** The turn of the top slot. */
    method Turn(id: nat, k: nat, now1: nat, now2: nat, empty: bool) returns (out: seq<(nat, nat)>)
      requires Mirrors() && |slots| == |given| == |marks| && k < |hosts| && hosts[k] == id < |slots|
      modifies this, hostsVector
      ensures Mirrors() && (Value(), out) == NextStep(old(Value()), localipnum, id, now1, now2, empty)
    {
      var node := hostsVector[id];
      out := [];
      clock := now1;
      if node.nexttime <= now1 {
        if node.retnum + 1 <= localipnum {
          node.retnum := node.retnum + 1;
          out := [(id, node.retnum)];
          given := given[id := given[id] + [now1]];
          slots := slots[id := node.AsSlot()];
        } else {
          out := EndTurn(id, k, now1, now2, empty);
        }
      }
    }

    /** pop, of the node at place k */
    method Pop(k: nat)
      requires k < |hosts|
      modifies `hosts
      ensures multiset(hosts) == multiset(old(hosts)) - multiset{old(hosts)[k]}
      ensures multiset(hosts) + multiset{old(hosts)[k]} == multiset(old(hosts))
    {
      Taken(hosts, k);
      hosts := hosts[..k] + hosts[k + 1..];
    }

    method Push(id: nat)
      modifies `hosts
      ensures multiset(hosts) == multiset(old(hosts)) + multiset{id}
    {
      hosts := hosts + [id];
    }

    method TurnNode(id: nat, now: nat, empty: bool) returns (gone: bool, host: string)
      requires Mirrors() && id < |slots|
      modifies `slots, hostsVector
      ensures Mirrors() && host == old(slots)[id].host
      ensures var w := Waiting(old(slots)[id], now, empty);
              && gone == (w.emptytimes > EMPTY_TIMES)
              && slots == old(slots)[id := if gone then Cleared(old(slots)[id]) else w]
    {
      hide Waiting, Cleared, HostNode.AsSlot;
      gone, host := hostsVector[id].Turn(now, empty);
      slots := slots[id := hostsVector[id].AsSlot()];
    }

    /** The end of a turn: the slot leaves the queue, and comes back to it unless its host was empty too often. */
    method EndTurn(id: nat, k: nat, ghost now1: nat, now2: nat, empty: bool) returns (out: seq<(nat, nat)>)
      requires Mirrors() && |slots| == |given| == |marks| && k < |hosts| && hosts[k] == id < |slots|
      requires slots[id].nexttime <= now1 && slots[id].retnum + 1 > localipnum
      modifies this, hostsVector
      ensures Mirrors() && Value().clock == now2
      ensures (Value(), out) == NextStep(old(Value()), localipnum, id, now1, now2, empty)
    {
      hide NextStep, Waiting, Cleared, UrlAnalyseManager.Mirrors;
      EndsTurn(Value(), localipnum, id, now1, now2, empty);
      var gone, host := TurnNode(id, now2, empty);
      out := Requeue(id, k, now2, gone, host);
    }

    /** The queue and what is recorded of the turn. */
    method Requeue(id: nat, k: nat, ghost now2: nat, gone: bool, host: string) returns (out: seq<(nat, nat)>)
      requires |given| == |marks| && k < |hosts| && hosts[k] == id < |given|
      modifies `hosts, `hostToFifoqueue, `given, `marks, `clock
      ensures clock == now2
      ensures multiset(hosts) == if gone then multiset(old(hosts)) - multiset{id} else multiset(old(hosts))
      ensures hostToFifoqueue == if gone then old(hostToFifoqueue) - {host} else old(hostToFifoqueue)
      ensures marks == if gone then old(marks) else old(marks)[id := Ended(now2)]
      ensures out == if gone || localipnum != 0 then [] else [(id, 0)]
      ensures given == if gone || localipnum != 0 then old(given) else old(given)[id := old(given)[id] + [now2]]
    {
      hide *;
      Rotate(id, k, gone, host);
      clock := now2;
      if !gone { marks := marks[id := Ended(now2)]; }
      out := [];
      if !gone && localipnum == 0 {
        out := [(id, 0)];
        given := given[id := given[id] + [now2]];
      }
    }

    /** pop, and push again or forget the host. */
    method Rotate(id: nat, k: nat, gone: bool, host: string)
      requires k < |hosts| && hosts[k] == id
      modifies `hosts, `hostToFifoqueue
      ensures multiset(hosts) == if gone then multiset(old(hosts)) - multiset{id} else multiset(old(hosts))
      ensures hostToFifoqueue == if gone then old(hostToFifoqueue) - {host} else old(hostToFifoqueue)
    {
      hide *;
      Pop(k);
      if gone {
        hostToFifoqueue := hostToFifoqueue - {host};
      } else {
        Push(id);
      }
    }

    /** findEmptyVector; the slot found is taken at once. */
    method FindEmptyVector() returns (hostid: int)
      requires Mirrors()
      modifies hostsVector
      ensures var i := FirstAvailable(slots);
              hostid == (if i < |slots| then i else -1)
      ensures hostid >= 0 ==> hostsVector[hostid].AsSlot() == slots[hostid].(available := false)
      ensures forall j :: 0 <= j < |slots| && j != hostid ==> hostsVector[j].AsSlot() == slots[j]
    {
      for i := 0 to |hostsVector|
        invariant forall j :: 0 <= j < i ==> !slots[j].available
      {
        if hostsVector[i].available {
          hostsVector[i].available := false;
          FirstIs(slots, i);
          return i;
        }
      }
      FirstIs(slots, |slots|);
      return -1;
    }

    /** The part of insertUrl that finds a slot for a host. */
    method InsertHost(host: string, interval: seq<nat>, now: nat)
      requires Valid() && clock <= now
      modifies this, hostsVector
      ensures Valid() && Value() == InsertStep(old(Value()), host, interval, now)
    {
      hide Inv, HostsOk, QueueOk, FirstAvailable;
      InsertKeeps(Value(), localipnum, host, interval, now);
      if host in hostToFifoqueue {
        return;
      }
      SameLengths(Value(), localipnum);
      ghost var free := FirstAvailable(slots);
      if free < |slots| { AvailableIsClear(Value(), localipnum, free); }
      var hostid := FindEmptyVector();
      clock := now;
      if hostid != -1 {
        TakeSlot(hostid, host, interval, now);
      } else {
        NewSlot(host, interval, now);
      }
    }

    method TakeSlot(hostid: nat, host: string, interval: seq<nat>, now: nat)
      requires |slots| == |hostsVector| == |given| == |marks| && hostid < |slots| && slots[hostid] == Cleared(slots[hostid])
      requires hostsVector[hostid].AsSlot() == slots[hostid].(available := false)
      requires forall j :: 0 <= j < |slots| && j != hostid ==> hostsVector[j].AsSlot() == slots[j]
      requires forall i, j :: 0 <= i < j < |hostsVector| ==> hostsVector[i] != hostsVector[j]
      modifies this, hostsVector
      ensures Mirrors() && hostsVector == old(hostsVector)
      ensures var x := Slot(host, now + LEAD, 0, false, if interval != [] then interval[0] else old(slots[hostid].interval), 0);
              Value() == State(old(slots)[hostid := x], multiset(old(hosts)) + multiset{hostid},
                               old(hostToFifoqueue)[host := hostid], old(given)[hostid := []],
                               old(marks)[hostid := Got(now)], old(clock))
    {
      var hostnode := hostsVector[hostid];
      if interval != [] {
        hostnode.interval := interval[0];
      }
      hostnode.nexttime := now + LEAD;
      hostnode.host := host;
      hostToFifoqueue := hostToFifoqueue[host := hostid];
      hosts := hosts + [hostid];
      slots := slots[hostid := hostnode.AsSlot()];
      given := given[hostid := []];
      marks := marks[hostid := Got(now)];
    }

    /** A node for the host at the end of the vector. */
    method AddNode(host: string, interval: seq<nat>, now: nat)
      requires Mirrors()
      modifies `hostsVector, `slots
      ensures Mirrors()
      ensures slots == old(slots) + [Slot(host, now + LEAD, 0, false, if interval != [] then interval[0] else INTERVAL, 0)]
    {
      var hostnode := new HostNode();
      if interval != [] {
        hostnode.interval := interval[0];
      }
      hostnode.nexttime := now + LEAD;
      hostnode.host := host;
      hostsVector := hostsVector + [hostnode];
      slots := slots + [hostnode.AsSlot()];
    }

    method NewSlot(host: string, interval: seq<nat>, now: nat)
      requires Mirrors() && |slots| == |given| == |marks|
      modifies this
      ensures Mirrors()
      ensures var x := Slot(host, now + LEAD, 0, false, if interval != [] then interval[0] else INTERVAL, 0);
              Value() == State(old(slots) + [x], multiset(old(hosts)) + multiset{|old(slots)| as nat},
                               old(hostToFifoqueue)[host := |old(slots)|], old(given) + [[]],
                               old(marks) + [Got(now)], old(clock))
    {
      var id := |hostsVector|;
      AddNode(host, interval, now);
      hide UrlAnalyseManager.Mirrors;
      hostToFifoqueue := hostToFifoqueue[host := id];
      hosts := hosts + [id];
      given := given + [[]];
      marks := marks + [Got(now)];
    }
  }

  lemma ClearedWaiting(x: Slot, now: nat, empty: bool)
    ensures Cleared(Waiting(x, now, empty)) == Cleared(x) && Waiting(x, now, empty).host == x.host
  {
  }

  lemma Taken(q: seq<nat>, k: nat)
    requires k < |q|
    ensures multiset(q[..k] + q[k + 1..]) == multiset(q) - multiset{q[k]}
    ensures multiset(q[..k] + q[k + 1..]) + multiset{q[k]} == multiset(q)
  {
    assert q == q[..k] + [q[k]] + q[k + 1..];
  }

  lemma NoneEarly(s: State, now: nat)
    requires s.queue == multiset{}
    ensures AllEarly(s, now)
  {
  }

  lemma FirstIs(slots: seq<Slot>, i: nat)
    requires i <= |slots| && (i < |slots| ==> slots[i].available) && forall j :: 0 <= j < i ==> !slots[j].available
    ensures FirstAvailable(slots) == i
  {
  }

  lemma QueueInside(s: State, localipnum: nat)
    requires Inv(s, localipnum)
    ensures |s.slots| == |s.given| == |s.marks| && forall i :: i in s.queue ==> i < |s.slots|
  {
  }

  lemma AvailableIsClear(s: State, localipnum: nat, i: nat)
    requires Inv(s, localipnum) && i < |s.slots| && s.slots[i].available
    ensures s.slots[i] == Cleared(s.slots[i])
  {
  }

  lemma SameLengths(s: State, localipnum: nat)
    requires Inv(s, localipnum)
    ensures |s.slots| == |s.given| == |s.marks|
  {
  }

  lemma LeastInside(s: State, i: nat)
    requires Least(s, i)
    ensures i < |s.slots| == |s.given| == |s.marks|
  {
  }
}
