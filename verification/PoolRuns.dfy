/**
 A pool under any interleaving of starts, leases, operations, reports, passes of
 the reaper and explicit stops. Workers are told apart by key; what the history
 fields record is only there to speak about whole runs.
 */
module PoolRuns {
  import opened Options
  import opened WorkerPool

  /** A pass of the reaper: when, and which workers it found at rest. */
  datatype Pass = Pass(at: int, resting: set<nat>)

  /**
   `reserved` are the places taken by starts in flight, `leases` and `busy` the
   leases and operations not yet ended, on whichever worker.
   */
  datatype State = State(pool: Pool<nat>, keys: nat, reserved: set<nat>, leases: multiset<nat>, busy: set<nat>,
                         passes: seq<Pass>, now: int)

  datatype Action =
    | Reserve(ticket: nat, victim: Option<string>, ok: bool)
    | FinishStart(ticket: nat)
    | Bind(ticket: nat, id: string)
    | Install(ticket: nat, id: string)
    | Fail(id: string, key: nat)
    | On(id: string, key: nat, change: Change)
    | Report(id: string, pinned: bool, running: bool, goal: bool)
    | Add(id: string, leased: bool, victim: Option<string>, ok: bool)
    | NoSpawn(id: string, victim: Option<string>)
    | Reap(after: int)
    | Stop(id: string)
    | Tick(more: nat)

  ghost function Without(slots: map<string, Slot<nat>>, victim: Option<string>): map<string, Slot<nat>>
  {
    if victim.Some? then slots - {victim.value} else slots
  }

  /**
   A start ends once; only a worker that is ready is leased or operated, once at
   a time; what was leased is returned once. A new thread's id is new.
   */
  ghost predicate Enabled(s: State, max: nat, a: Action)
  {
    match a
    case Reserve(ticket, victim, ok) =>
      ticket !in s.reserved && MadeRoom(s.pool, max, Without(s.pool.slots, victim), victim, ok)
    case FinishStart(ticket) => ticket in s.reserved
    case Bind(ticket, id) => ticket in s.reserved && id !in s.pool.slots
    case Install(ticket, id) => ticket in s.reserved
    case Fail(id, key) => InSlot(s.pool, id, key) && s.pool.slots[id].rec.starting
    case On(id, key, c) => Home(s, id, key) && Allowed(s, id, key, c)
    case Report(id, _, _, _) => id in s.pool.slots
    case Add(id, _, victim, ok) =>
      s.reserved == {} && id !in s.pool.slots && MadeRoom(s.pool, max, Without(s.pool.slots, victim), victim, ok)
    case NoSpawn(id, victim) =>
      s.reserved == {} && id !in s.pool.slots && MadeRoom(s.pool, max, Without(s.pool.slots, victim), victim, true)
    case Reap(after) => after > 0
    case Stop(id) => true
    case Tick(_) => true
  }

  ghost predicate Allowed(s: State, id: string, key: nat, c: Change)
  {
    match c
    case Started => InSlot(s.pool, id, key) ==> s.pool.slots[id].rec.starting
    case Leased(now) => now == s.now && InSlot(s.pool, id, key) && !s.pool.slots[id].rec.starting
    case Returned(now) => now == s.now && key in s.leases
    case Began(now) => now == s.now && key !in s.busy && key in s.leases
    case Ended(now) => now == s.now && key in s.busy
    case Aborted => key in s.busy
    case Touched(now) => now == s.now
  }

  /** A worker's own id: where its slot is, if it has one. */
  ghost predicate Home(s: State, id: string, key: nat)
  {
    forall other :: InSlot(s.pool, other, key) ==> other == id
  }

  ghost function Into(s: State, id: string, rec: Record): State
  {
    s.(pool := s.pool.(slots := s.pool.slots[id := Slot(s.keys, rec)]), keys := s.keys + 1)
  }

  ghost function FreeTicket(s: State, ticket: nat): State
  {
    s.(pool := s.pool.(starting := if s.pool.starting > 0 then s.pool.starting - 1 else 0), reserved := s.reserved - {ticket})
  }

  ghost function Leases(s: State, key: nat, c: Change): multiset<nat>
  {
    match c
    case Leased(_) => s.leases + multiset{key}
    case Returned(_) => s.leases - multiset{key}
    case _ => s.leases
  }

  ghost function Busy(s: State, key: nat, c: Change): set<nat>
  {
    match c
    case Began(_) => s.busy + {key}
    case Ended(_) => s.busy - {key}
    case Aborted => s.busy - {key}
    case _ => s.busy
  }

  ghost function Resters(slots: map<string, Slot<nat>>): set<nat>
  {
    set id | id in slots && Resting(slots[id].rec) :: slots[id].key
  }

  ghost function Do(s: State, max: nat, a: Action): State
    requires Enabled(s, max, a)
  {
    match a
    case Reserve(ticket, victim, ok) =>
      if ok then s.(pool := Pool(Without(s.pool.slots, victim), s.pool.starting + 1), reserved := s.reserved + {ticket}) else s
    case FinishStart(ticket) => FreeTicket(s, ticket)
    case Bind(ticket, id) => Into(FreeTicket(s, ticket), id, FRESH.(lastUsed := s.now))
    case Install(ticket, id) =>
      if id in s.pool.slots then FreeTicket(s, ticket)
      else Into(FreeTicket(s, ticket), id, FRESH.(starting := true, lastUsed := s.now))
    case Fail(id, key) => s.(pool := s.pool.(slots := s.pool.slots - {id}))
    case On(id, key, c) => s.(pool := Update(s.pool, id, key, c), leases := Leases(s, key, c), busy := Busy(s, key, c))
    case Report(id, pinned, running, goal) =>
      var slot := s.pool.slots[id];
      s.(pool := s.pool.(slots := s.pool.slots[id := slot.(rec := slot.rec.(pinned := pinned, running := running, goal := goal))]))
    case Add(id, leased, victim, ok) =>
      if !ok then s
      else Into(s.(pool := s.pool.(slots := Without(s.pool.slots, victim)), leases := if leased then s.leases + multiset{s.keys} else s.leases),
                id, FRESH.(leases := if leased then 1 else 0, lastUsed := s.now))
    case NoSpawn(id, victim) => s.(pool := s.pool.(slots := Without(s.pool.slots, victim)))
    case Reap(after) =>
      s.(pool := s.pool.(slots := Reaped(s.pool.slots, s.now, after)), passes := s.passes + [Pass(s.now, Resters(s.pool.slots))])
    case Stop(id) => s.(pool := s.pool.(slots := s.pool.slots - {id}))
    case Tick(n) => s.(now := s.now + n)
  }

  // ------------------------------------------------------------- what holds

  /** Never more than `max` workers and starts, and each start counted is one in flight. */
  ghost predicate SizeOk(s: State, max: nat)
  {
    |s.pool.slots| + s.pool.starting <= max && s.pool.starting == |s.reserved|
  }

  ghost predicate KeysOk(s: State)
  {
    && (forall id :: id in s.pool.slots ==> s.pool.slots[id].key < s.keys)
    && (forall id, other :: id in s.pool.slots && other in s.pool.slots && s.pool.slots[id].key == s.pool.slots[other].key ==> id == other)
    && (forall k :: k in s.leases || k in s.busy ==> k < s.keys)
  }

  /** A worker's books show the leases and operations there are, none of them on one that is still starting. */
  ghost predicate BooksOk(s: State)
  {
    forall id :: id in s.pool.slots ==> Booked(s, s.pool.slots[id])
  }

  ghost predicate Booked(s: State, slot: Slot<nat>)
  {
    && slot.rec.leases == s.leases[slot.key] && (slot.rec.busy <==> slot.key in s.busy)
    && (slot.rec.starting ==> slot.rec.leases == 0 && !slot.rec.busy)
  }

  /** At pass k and every one after it the worker was at rest. */
  ghost predicate RestedFrom(passes: seq<Pass>, k: nat, key: nat)
  {
    forall j :: k <= j < |passes| ==> key in passes[j].resting
  }

  ghost predicate RestingSince(passes: seq<Pass>, t: int, key: nat)
  {
    exists k: nat :: k < |passes| && passes[k].at == t && RestedFrom(passes, k, key)
  }

  ghost predicate IdleOk(s: State)
  {
    forall id :: id in s.pool.slots && s.pool.slots[id].rec.idleSince.Some? ==>
      RestingSince(s.passes, s.pool.slots[id].rec.idleSince.value, s.pool.slots[id].key)
  }

  ghost predicate Starts(a: Action)
  {
    a.Reserve? || a.FinishStart? || a.Bind? || a.Install? || a.Add?
  }

  lemma StartSize(s: State, max: nat, a: Action)
    requires SizeOk(s, max) && Enabled(s, max, a) && Starts(a)
    ensures SizeOk(Do(s, max, a), max)
  {
    if a.Add? {
      AddSize(s, max, a);
    } else if a.Reserve? {
      ReserveSize(s, max, a);
    } else {
      hide MadeRoom;
      if a.Bind? || a.Install? {
        IntoSize(FreeTicket(s, a.ticket), a.id, FRESH.(starting := a.Install?, lastUsed := s.now));
      }
    }
  }

  lemma ReserveSize(s: State, max: nat, a: Action)
    requires SizeOk(s, max) && Enabled(s, max, a) && a.Reserve?
    ensures SizeOk(Do(s, max, a), max)
  {
    hide IsVictim, AllHeld;
    if a.victim.Some? { VictimLeaves(s.pool.slots, a.victim.value); }
  }

  lemma AddSize(s: State, max: nat, a: Action)
    requires SizeOk(s, max) && Enabled(s, max, a) && a.Add?
    ensures SizeOk(Do(s, max, a), max)
  {
    hide IsVictim, AllHeld;
    var slots := s.pool.slots;
    if a.ok {
      if a.victim.Some? { VictimLeaves(slots, a.victim.value); }
      AddedSize(Without(slots, a.victim), a.id, Slot(s.keys, FRESH.(leases := if a.leased then 1 else 0, lastUsed := s.now)));
    }
  }

  lemma IntoSize(s: State, id: string, rec: WorkerPool.Record)
    ensures |Into(s, id, rec).pool.slots| == |s.pool.slots| + (if id in s.pool.slots then 0 else 1)
  {
    AddedSize(s.pool.slots, id, Slot(s.keys, rec));
  }

  lemma StepSize(s: State, max: nat, a: Action)
    requires SizeOk(s, max) && Enabled(s, max, a)
    ensures SizeOk(Do(s, max, a), max)
  {
    hide Changed, IsVictim, AllHeld, Resters, Holds, Home, Reaped, Allowed, Leases, Busy, Into, FreeTicket;
    if Starts(a) {
      StartSize(s, max, a);
    } else {
      hide Starts, Without;
      KeptSize(s, max, a);
    }
  }

  lemma KeptSize(s: State, max: nat, a: Action)
    requires Enabled(s, max, a) && !Starts(a)
    ensures var t := Do(s, max, a); |t.pool.slots| <= |s.pool.slots| && t.pool.starting == s.pool.starting && t.reserved == s.reserved
  {
    hide Changed, Resters, Home, Reaped, Allowed, Leases, Busy;
    var slots := s.pool.slots;
    match a {
      case Fail(id, _) => RemovedSize(slots, id);
      case On(id, key, c) => UpdatedSize(s.pool, id, key, c);
      case Report(id, p, r, g) => AddedSize(slots, id, slots[id].(rec := slots[id].rec.(pinned := p, running := r, goal := g)));
      case Reap(after) => ReapedKeys(slots, s.now, after); FewerKeys(Reaped(slots, s.now, after), slots);
      case NoSpawn(_, victim) => FewerKeys(Without(slots, victim), slots);
      case Stop(id) => FewerKeys(slots - {id}, slots);
      case Tick(_) =>
    }
  }

  lemma VictimLeaves(slots: map<string, Slot<nat>>, id: string)
    requires IsVictim(slots, id)
    ensures id in slots && |slots - {id}| == |slots| - 1
  {
    RemovedSize(slots, id);
  }

  lemma UpdatedSize(p: Pool<nat>, id: string, key: nat, c: Change)
    ensures |Update(p, id, key, c).slots| == |p.slots| && Update(p, id, key, c).starting == p.starting
  {
    if InSlot(p, id, key) { AddedSize(p.slots, id, Slot(key, Changed(p.slots[id].rec, c))); }
  }

  lemma ReapedKeys(slots: map<string, Slot<nat>>, now: int, after: int)
    ensures Reaped(slots, now, after).Keys <= slots.Keys
  {}

  lemma FewerKeys<K, V>(m: map<K, V>, n: map<K, V>)
    requires m.Keys <= n.Keys
    ensures |m| <= |n|
  {
    var rest := n.Keys - m.Keys;
    assert n.Keys == m.Keys + rest && m.Keys !! rest;
    assert |n.Keys| == |m.Keys| + |rest|;
    assert |m.Keys| == |m| && |n.Keys| == |n|;
  }

  /** Each slot of the new state is an old one, with whatever record, or holds the next new key. */
  ghost predicate Follows(s: State, t: State)
  {
    && s.keys <= t.keys
    && (forall id :: id in t.pool.slots ==>
          || (id in s.pool.slots && t.pool.slots[id].key == s.pool.slots[id].key)
          || (t.pool.slots[id].key == s.keys < t.keys && t.pool.slots[id].rec.idleSince.None?))
    && (forall id, other :: id in t.pool.slots && other in t.pool.slots && t.pool.slots[id].key == s.keys == t.pool.slots[other].key ==> id == other)
  }

  lemma StepFollows(s: State, max: nat, a: Action)
    requires KeysOk(s) && Enabled(s, max, a)
    ensures Follows(s, Do(s, max, a))
  {
    hide Changed, MadeRoom, Resters, Home, Allowed, Noted, Reaps, Leases, Busy;
  }

  lemma StepKeys(s: State, max: nat, a: Action)
    requires KeysOk(s) && Enabled(s, max, a)
    ensures KeysOk(Do(s, max, a))
  {
    StepFollows(s, max, a);
    StepBusyKeys(s, max, a);
    hide Do, Enabled;
  }

  lemma StepBusyKeys(s: State, max: nat, a: Action)
    requires KeysOk(s) && Enabled(s, max, a)
    ensures var t := Do(s, max, a); forall k :: k in t.leases || k in t.busy ==> k < t.keys
  {
    if a.On? {
      OnBusyKeys(s, a.id, a.key, a.change);
    } else {
      hide Changed, MadeRoom, Resters, Home, Noted, Reaps, Reaped, Without, Leases, Busy, Allowed;
    }
  }

  lemma OnBusyKeys(s: State, id: string, key: nat, c: Change)
    requires KeysOk(s) && Allowed(s, id, key, c)
    ensures forall k :: k in Leases(s, key, c) || k in Busy(s, key, c) ==> k < s.keys
  {}

  lemma OnBooks(s: State, id: string, key: nat, c: Change)
    requires KeysOk(s) && BooksOk(s) && Home(s, id, key) && Allowed(s, id, key, c)
    ensures BooksOk(s.(pool := Update(s.pool, id, key, c), leases := Leases(s, key, c), busy := Busy(s, key, c)))
  {
    var t := s.(pool := Update(s.pool, id, key, c), leases := Leases(s, key, c), busy := Busy(s, key, c));
    forall other | other in t.pool.slots ensures Booked(t, t.pool.slots[other]) {
      assert Booked(s, s.pool.slots[other]);
      assert InSlot(s.pool, other, key) ==> other == id;
    }
  }

  lemma StartBooks(s: State, max: nat, a: Action)
    requires KeysOk(s) && BooksOk(s) && Enabled(s, max, a) && Starts(a)
    ensures BooksOk(Do(s, max, a))
  {
    hide MadeRoom, Resters, Reaps, Holds, Home, Reaped;
    var t := Do(s, max, a);
    assert s.keys !in s.leases && s.leases[s.keys] == 0;
    forall id | id in t.pool.slots ensures Booked(t, t.pool.slots[id]) {
      assert id in s.pool.slots ==> Booked(s, s.pool.slots[id]) && s.pool.slots[id].key != s.keys;
    }
  }

  lemma StepBooks(s: State, max: nat, a: Action)
    requires KeysOk(s) && BooksOk(s) && Enabled(s, max, a)
    ensures BooksOk(Do(s, max, a))
  {
    if a.On? {
      OnBooks(s, a.id, a.key, a.change);
    } else if Starts(a) {
      StartBooks(s, max, a);
    } else {
      hide MadeRoom, Resters, Reaps, Holds, Home, Into, FreeTicket;
      var t := Do(s, max, a);
      forall id | id in t.pool.slots ensures Booked(t, t.pool.slots[id]) {
        assert Booked(s, s.pool.slots[id]);
      }
    }
  }

  lemma StepIdle(s: State, max: nat, a: Action)
    requires KeysOk(s) && IdleOk(s) && Enabled(s, max, a)
    ensures IdleOk(Do(s, max, a))
  {
    if a.Reap? {
      ReapIdleOk(s, a.after);
    } else {
      StepFollows(s, max, a);
      SameIdle(s, max, a);
      hide Do, Enabled, RestingSince, KeysOk;
      var t := Do(s, max, a);
      forall id | id in t.pool.slots && t.pool.slots[id].rec.idleSince.Some?
        ensures RestingSince(t.passes, t.pool.slots[id].rec.idleSince.value, t.pool.slots[id].key)
      {
        assert RestingSince(s.passes, s.pool.slots[id].rec.idleSince.value, s.pool.slots[id].key);
      }
    }
  }

  /** Nothing but a pass sets or clears how long a worker has been idle. */
  ghost predicate IdleKept(s: State, t: State)
  {
    && t.passes == s.passes
    && forall id :: id in t.pool.slots && t.pool.slots[id].rec.idleSince.Some? ==>
         id in s.pool.slots && t.pool.slots[id].key == s.pool.slots[id].key && t.pool.slots[id].rec.idleSince == s.pool.slots[id].rec.idleSince
  }

  lemma SameIdle(s: State, max: nat, a: Action)
    requires Enabled(s, max, a) && !a.Reap?
    ensures IdleKept(s, Do(s, max, a))
  {
    if Starts(a) {
      StartIdle(s, max, a);
    } else if a.On? {
      OnIdle(s, a.id, a.key, a.change);
    } else {
      hide Changed, Starts, MadeRoom, Home, Allowed, Leases, Busy, Reaped, Resting, Reaps, Into, FreeTicket, Without, Resters;
    }
  }

  lemma OnIdle(s: State, id: string, key: nat, c: Change)
    ensures IdleKept(s, s.(pool := Update(s.pool, id, key, c), leases := Leases(s, key, c), busy := Busy(s, key, c)))
  {}

  lemma StartIdle(s: State, max: nat, a: Action)
    requires Enabled(s, max, a) && Starts(a)
    ensures IdleKept(s, Do(s, max, a))
  {
    hide MadeRoom, Home, Allowed, Leases, Busy, Reaped, Resting, Reaps, Changed;
  }

  lemma ReapIdleOk(s: State, after: int)
    requires IdleOk(s)
    ensures IdleOk(s.(pool := s.pool.(slots := Reaped(s.pool.slots, s.now, after)), passes := s.passes + [Pass(s.now, Resters(s.pool.slots))]))
  {
    hide Resting, Reaps, RestingSince;
    var slots, passes := s.pool.slots, s.passes + [Pass(s.now, Resters(s.pool.slots))];
    forall id | id in slots && Noted(slots[id].rec, s.now).idleSince.Some?
      ensures RestingSince(passes, Noted(slots[id].rec, s.now).idleSince.value, slots[id].key)
    {
      RestsOn(s.passes, s.now, slots, id);
    }
  }

  /** A worker a pass finds at rest rests since that pass, or since the one it already rested from. */
  lemma RestsOn(passes: seq<Pass>, now: int, slots: map<string, Slot<nat>>, id: string)
    requires id in slots && Noted(slots[id].rec, now).idleSince.Some?
    requires slots[id].rec.idleSince.Some? ==> RestingSince(passes, slots[id].rec.idleSince.value, slots[id].key)
    ensures RestingSince(passes + [Pass(now, Resters(slots))], Noted(slots[id].rec, now).idleSince.value, slots[id].key)
  {
    var all, key := passes + [Pass(now, Resters(slots))], slots[id].key;
    assert key in Resters(slots);
    if slots[id].rec.idleSince.Some? {
      var k: nat :| k < |passes| && passes[k].at == slots[id].rec.idleSince.value && RestedFrom(passes, k, key);
      assert all[k] == passes[k] && RestedFrom(all, k, key);
    } else {
      assert all[|passes|].at == now && RestedFrom(all, |passes|, key);
    }
  }

  // ------------------------------------------------------------- whole runs

  ghost predicate Inv(s: State, max: nat)
  {
    SizeOk(s, max) && KeysOk(s) && BooksOk(s) && IdleOk(s)
  }

  ghost predicate Run(states: seq<State>, actions: seq<Action>, max: nat)
  {
    && |states| == |actions| + 1 && (exists now :: states[0] == Start(now))
    && forall k :: 0 <= k < |actions| ==> Enabled(states[k], max, actions[k]) && states[k + 1] == Do(states[k], max, actions[k])
  }

  ghost function Start(now: int): State
  {
    State(Pool(map[], 0), 0, {}, multiset{}, {}, [], now)
  }

  lemma StepKeeps(s: State, max: nat, a: Action)
    requires Inv(s, max) && Enabled(s, max, a)
    ensures Inv(Do(s, max, a), max)
  {
    hide Do, Enabled, SizeOk, KeysOk, BooksOk, IdleOk;
    StepSize(s, max, a);
    StepKeys(s, max, a);
    StepBooks(s, max, a);
    StepIdle(s, max, a);
  }

  /** In every run, live workers and starts in flight never exceed the limit, and the books are right. */
  lemma {:induction false} RunKeeps(states: seq<State>, actions: seq<Action>, max: nat, k: nat)
    requires Run(states, actions, max) && k < |states|
    ensures Inv(states[k], max)
  {
    hide Do, Enabled;
    if k > 0 {
      RunKeeps(states, actions, max, k - 1);
      StepKeeps(states[k - 1], max, actions[k - 1]);
    }
  }

  /** Leases and operations not yet ended on a worker, or work it reports, or its start not yet over. */
  ghost predicate Held(s: State, id: string, key: nat)
  {
    InSlot(s.pool, id, key) && (key in s.leases || key in s.busy || s.pool.slots[id].rec.pinned || s.pool.slots[id].rec.starting)
  }

  /**
   A leased, busy, pinned or starting worker leaves its slot by an explicit stop or by its
   own failed resume, and by no other step: no eviction, no pass of the reaper, no
   start of another.
   */
  lemma HeldStays(s: State, max: nat, a: Action, id: string, key: nat)
    requires Inv(s, max) && Enabled(s, max, a) && Held(s, id, key)
    ensures InSlot(Do(s, max, a).pool, id, key) <==> a != Stop(id) && a != Fail(id, key)
  {
    hide Inv, MadeRoom, Reaps, Holds, Noted, Reaped, Resters, Home, Allowed, Leases, Busy, Changed;
    var slots := s.pool.slots;
    HeldHolds(s, max, id, key);
    match a {
      case Reserve(_, victim, ok) => RoomKeeps(s.pool, max, victim, ok, id);
      case Add(_, _, victim, ok) => RoomKeeps(s.pool, max, victim, ok, id);
      case NoSpawn(_, victim) => RoomKeeps(s.pool, max, victim, true, id);
      case Reap(after) => ReapKeeps(slots, s.now, after, id);
      case _ =>
    }
  }

  lemma HeldHolds(s: State, max: nat, id: string, key: nat)
    requires Inv(s, max) && Held(s, id, key)
    ensures Holds(s.pool.slots[id].rec)
  {
    assert Booked(s, s.pool.slots[id]);
  }

  lemma RoomKeeps(p: Pool<nat>, max: nat, victim: Option<string>, ok: bool, id: string)
    requires MadeRoom(p, max, Without(p.slots, victim), victim, ok) && id in p.slots && Holds(p.slots[id].rec)
    ensures id in Without(p.slots, victim)
  {
    hide Holds;
  }

  lemma ReapKeeps(slots: map<string, Slot<nat>>, now: int, after: int, id: string)
    requires id in slots && Holds(slots[id].rec)
    ensures id in Reaped(slots, now, after) && Reaped(slots, now, after)[id].key == slots[id].key
  {
    hide Holds, Noted;
  }

  /** A worker held from one state of a run to another, and not stopped in between, is there all along. */
  lemma {:induction false} HeldThroughout(states: seq<State>, actions: seq<Action>, max: nat, i: nat, k: nat, id: string, key: nat)
    requires Run(states, actions, max) && i <= k < |states|
    requires InSlot(states[i].pool, id, key)
    requires forall j :: i <= j < k ==> (key in states[j].leases || key in states[j].busy) && actions[j] != Stop(id)
    ensures InSlot(states[k].pool, id, key)
    decreases k
  {
    hide Do, Enabled, InSlot, Inv;
    if i < k {
      HeldThroughout(states, actions, max, i, k - 1, id, key);
      RunKeeps(states, actions, max, k - 1);
      LeasedNotStarting(states[k - 1], max, actions[k - 1], id, key);
      HeldStays(states[k - 1], max, actions[k - 1], id, key);
    }
  }

  lemma LeasedNotStarting(s: State, max: nat, a: Action, id: string, key: nat)
    requires Inv(s, max) && Enabled(s, max, a) && InSlot(s.pool, id, key) && (key in s.leases || key in s.busy)
    ensures Held(s, id, key) && a != Fail(id, key)
  {
    hide MadeRoom, Home, Allowed;
    assert Booked(s, s.pool.slots[id]);
  }

  /**
   A worker a pass takes was at rest at that pass and at every pass from one at
   least `after` earlier on, and was last used at least `after` ago.
   */
  lemma ReapedWasIdle(s: State, max: nat, after: int, id: string)
    requires Inv(s, max) && after > 0 && id in s.pool.slots && id !in Do(s, max, Reap(after)).pool.slots
    ensures exists k: nat :: k < |s.passes| && s.passes[k].at + after <= s.now && RestedFrom(Do(s, max, Reap(after)).passes, k, s.pool.slots[id].key)
    ensures s.pool.slots[id].rec.lastUsed + after <= s.now && s.pool.slots[id].key !in s.leases && s.pool.slots[id].key !in s.busy
  {
    hide SizeOk, KeysOk;
    var slot := s.pool.slots[id];
    assert Reaps(slot.rec, s.now, after);
    assert Booked(s, slot);
    assert slot.rec.idleSince.Some?;
    var k: nat :| k < |s.passes| && s.passes[k].at == slot.rec.idleSince.value && RestedFrom(s.passes, k, slot.key);
    var t := Do(s, max, Reap(after));
    assert slot.key in Resters(s.pool.slots);
    assert RestedFrom(t.passes, k, slot.key);
  }

  // --------------------------------------------------------- use and rest

  /** A worker that would lose nothing by being stopped. */
  ghost predicate Idle(r: WorkerPool.Record)
  {
    !r.starting && !r.busy && r.leases <= 0 && !r.pinned
  }

  /** The victim is idle; no idle worker is at rest while it is running, and of its kind none was last used before it. */
  lemma VictimIs(slots: map<string, Slot<nat>>, id: string, other: string)
    requires IsVictim(slots, id) && other in slots && Idle(slots[other].rec)
    ensures Idle(slots[id].rec) && (slots[id].rec.running ==> slots[other].rec.running)
    ensures slots[id].rec.running == slots[other].rec.running ==> slots[id].rec.lastUsed <= slots[other].rec.lastUsed
  {}

  /** A pool gets a place by evicting only when it is full; nothing else leaves. */
  lemma EvictedIs(s: State, max: nat, ticket: nat, victim: Option<string>, ok: bool)
    requires Enabled(s, max, Reserve(ticket, victim, ok))
    ensures victim.Some? ==> |s.pool.slots| + s.pool.starting >= max && ok && victim.value in s.pool.slots && Idle(s.pool.slots[victim.value].rec)
    ensures Do(s, max, Reserve(ticket, victim, ok)).pool.slots == if victim.Some? then s.pool.slots - {victim.value} else s.pool.slots
    ensures ok ==> Do(s, max, Reserve(ticket, victim, ok)).pool.starting == s.pool.starting + 1
  {}

  /** A worker in its slot as a start leaves it: no work, last used now. */
  ghost predicate Fresh(s: State, id: string, key: nat, starting: bool, leases: nat)
  {
    InSlot(s.pool, id, key) && s.pool.slots[id].rec == WorkerPool.Record(starting, false, false, leases, false, false, s.now, None)
  }

  /** A start that failed gives its place back. */
  lemma FailedStart(s: State, max: nat, ticket: nat)
    requires SizeOk(s, max) && ticket in s.reserved
    ensures var t := Do(s, max, FinishStart(ticket));
            s.pool.starting > 0 && t.pool == Pool(s.pool.slots, s.pool.starting - 1) && t.reserved == s.reserved - {ticket}
  {
    assert s.pool.starting > 0;
  }

  /**
   How other starts end: a new thread's worker takes its place; a resumed session's
   does, still starting, unless another came first, and else gives the place back.
   */
  lemma StartsIs(s: State, max: nat, ticket: nat, id: string)
    requires SizeOk(s, max) && ticket in s.reserved
    ensures id in s.pool.slots ==> Do(s, max, Install(ticket, id)) == Do(s, max, FinishStart(ticket))
    ensures id !in s.pool.slots ==> TookPlace(s, Do(s, max, Bind(ticket, id)), ticket, id, false)
    ensures id !in s.pool.slots ==> TookPlace(s, Do(s, max, Install(ticket, id)), ticket, id, true)
  {
    hide SizeOk, TookPlace;
    FailedStart(s, max, ticket);
    if id !in s.pool.slots {
      PlaceTaken(s, FreeTicket(s, ticket), ticket, id, false);
      PlaceTaken(s, FreeTicket(s, ticket), ticket, id, true);
    }
  }

  /** A worker fresh in its slot, by the place its start had; all others where they were. */
  ghost predicate TookPlace(s: State, t: State, ticket: nat, id: string, starting: bool)
  {
    && Fresh(t, id, s.keys, starting, 0) && t.pool.slots - {id} == s.pool.slots
    && t.pool.starting == s.pool.starting - 1 && t.reserved == s.reserved - {ticket}
  }

  lemma PlaceTaken(s: State, u: State, ticket: nat, id: string, starting: bool)
    requires id !in s.pool.slots && u.keys == s.keys && u.now == s.now
    requires s.pool.starting > 0 && u.pool == Pool(s.pool.slots, s.pool.starting - 1) && u.reserved == s.reserved - {ticket}
    ensures TookPlace(s, Into(u, id, FRESH.(starting := starting, lastUsed := s.now)), ticket, id, starting)
  {
    var t := Into(u, id, FRESH.(starting := starting, lastUsed := s.now));
    assert t.pool.slots - {id} == s.pool.slots;
  }

  /** How a pool without starts of its own adds a worker: where room was made, leased if asked; a spawn that fails adds none. */
  lemma AddsIs(s: State, max: nat, id: string, leased: bool, victim: Option<string>)
    requires Enabled(s, max, Add(id, leased, victim, true))
    ensures var t := Do(s, max, Add(id, leased, victim, true));
            && Fresh(t, id, s.keys, false, if leased then 1 else 0)
            && (forall other :: other != id ==> (other in t.pool.slots <==> other in s.pool.slots && victim != Some(other)))
            && (forall other :: other != id && other in t.pool.slots ==> t.pool.slots[other] == s.pool.slots[other])
    ensures var u := Do(s, max, NoSpawn(id, victim)); u.pool.slots == if victim.Some? then s.pool.slots - {victim.value} else s.pool.slots
  {
    hide MadeRoom;
  }

  /**
   A pass of the reaper on one worker: one that holds something, or pursues a goal,
   stays with no rest noted; an idle one found so first stays with that noted; one
   noted before is stopped exactly when its rest, and its disuse, are long enough.
   */
  lemma PassIs(s: State, max: nat, after: int, id: string)
    requires after > 0 && id in s.pool.slots && s.pool.slots[id].rec.lastUsed <= s.now
    ensures var t, was := Do(s, max, Reap(after)), s.pool.slots[id];
            && (!Idle(was.rec) || was.rec.goal ==> id in t.pool.slots && t.pool.slots[id] == Slot(was.key, was.rec.(idleSince := None)))
            && (Idle(was.rec) && !was.rec.goal && was.rec.idleSince.None? ==>
                  id in t.pool.slots && t.pool.slots[id] == Slot(was.key, was.rec.(idleSince := Some(s.now))))
            && (Idle(was.rec) && !was.rec.goal && was.rec.idleSince.Some? ==>
                  && (id in t.pool.slots <==> s.now - was.rec.idleSince.value < after || s.now - was.rec.lastUsed < after)
                  && (id in t.pool.slots ==> t.pool.slots[id] == was))
  {
    hide Resters;
  }

  /** A change that counts as use, at its time. */
  ghost predicate Uses(c: Change)
  {
    c.Leased? || c.Returned? || c.Began? || c.Ended? || c.Touched?
  }

  /** No worker was last used in the future, and none was used longer ago than before. */
  ghost predicate UsedOnward(s: State, t: State)
  {
    && s.now <= t.now
    && (forall id :: id in t.pool.slots ==> t.pool.slots[id].rec.lastUsed <= t.now)
    && (forall id :: id in s.pool.slots && id in t.pool.slots && s.pool.slots[id].key == t.pool.slots[id].key ==>
          s.pool.slots[id].rec.lastUsed <= t.pool.slots[id].rec.lastUsed)
  }

  lemma StepUsed(s: State, max: nat, a: Action)
    requires KeysOk(s) && Enabled(s, max, a) && forall id :: id in s.pool.slots ==> s.pool.slots[id].rec.lastUsed <= s.now
    ensures UsedOnward(s, Do(s, max, a))
    ensures a.On? && Uses(a.change) && InSlot(s.pool, a.id, a.key) ==> Do(s, max, a).pool.slots[a.id].rec.lastUsed == s.now
  {
    hide MadeRoom, Resters, Home, Reaps, Leases, Busy, Changed, Noted;
    if a.On? {
      OnUsed(s, a.id, a.key, a.change);
    } else if a.Reap? {
      ReapUsed(s.pool.slots, s.now, a.after);
    }
  }

  lemma OnUsed(s: State, id: string, key: nat, c: Change)
    requires Allowed(s, id, key, c) && forall other :: other in s.pool.slots ==> s.pool.slots[other].rec.lastUsed <= s.now
    ensures var p := Update(s.pool, id, key, c);
            && (forall other :: other in p.slots ==>
                  other in s.pool.slots && s.pool.slots[other].rec.lastUsed <= p.slots[other].rec.lastUsed <= s.now)
            && (Uses(c) && InSlot(s.pool, id, key) ==> p.slots[id].rec.lastUsed == s.now)
  {}

  lemma ReapUsed(slots: map<string, Slot<nat>>, now: int, after: int)
    ensures forall id :: id in Reaped(slots, now, after) ==>
              id in slots && Reaped(slots, now, after)[id].rec.lastUsed == slots[id].rec.lastUsed
  {}

  lemma {:induction false} RunUsed(states: seq<State>, actions: seq<Action>, max: nat, k: nat)
    requires Run(states, actions, max) && k < |states|
    ensures forall id :: id in states[k].pool.slots ==> states[k].pool.slots[id].rec.lastUsed <= states[k].now
  {
    hide Do, Enabled, Inv, KeysOk;
    if k > 0 {
      RunUsed(states, actions, max, k - 1);
      RunKeeps(states, actions, max, k - 1);
      RunKeys(states[k - 1], max);
      StepUsed(states[k - 1], max, actions[k - 1]);
    }
  }

  lemma RunKeys(s: State, max: nat)
    requires Inv(s, max)
    ensures KeysOk(s)
  {}

  /** A worker leased, returned, operated or touched at some step was last used no sooner than then, as long as it is in its slot. */
  lemma {:induction false} UsedSince(states: seq<State>, actions: seq<Action>, max: nat, j: nat, k: nat, id: string, key: nat)
    requires Run(states, actions, max) && j < k < |states|
    requires actions[j].On? && actions[j].id == id && actions[j].key == key && Uses(actions[j].change)
    requires InSlot(states[k].pool, id, key) && forall i :: j <= i <= k ==> InSlot(states[i].pool, id, key)
    ensures states[k].pool.slots[id].rec.lastUsed >= states[j].now
    decreases k
  {
    hide Do, Enabled, Inv, KeysOk, Uses;
    RunUsed(states, actions, max, k - 1);
    RunKeeps(states, actions, max, k - 1);
    RunKeys(states[k - 1], max);
    StepUsed(states[k - 1], max, actions[k - 1]);
    if j < k - 1 {
      UsedSince(states, actions, max, j, k - 1, id, key);
    }
  }

  /** A pass stops no worker that was in use less than `after` ago. */
  lemma ReapedUnused(states: seq<State>, actions: seq<Action>, max: nat, j: nat, k: nat, id: string, key: nat)
    requires Run(states, actions, max) && j < k < |actions| && actions[k].Reap?
    requires actions[j].On? && actions[j].id == id && actions[j].key == key && Uses(actions[j].change)
    requires forall i :: j <= i <= k ==> InSlot(states[i].pool, id, key)
    ensures states[k].now < states[j].now + actions[k].after ==> InSlot(states[k + 1].pool, id, key)
  {
    hide Inv, Uses, Resters, KeysOk, Holds;
    UsedSince(states, actions, max, j, k, id, key);
    RunUsed(states, actions, max, k);
    PassIs(states[k], max, actions[k].after, id);
  }

  lemma {:induction false} SomeVictim(slots: map<string, Slot<nat>>, ids: set<string>) returns (victim: string)
    requires ids <= slots.Keys && exists id :: id in ids && !Holds(slots[id].rec)
    ensures victim in ids && !Holds(slots[victim].rec)
    ensures forall other :: other in ids && !Holds(slots[other].rec) ==> !Before(slots[other].rec, slots[victim].rec)
    decreases |ids|
  {
    hide Holds;
    var id :| id in ids && !Holds(slots[id].rec);
    var rest := ids - {id};
    victim := id;
    if other :| other in rest && !Holds(slots[other].rec) {
      var best := SomeVictim(slots, rest);
      victim := if Before(slots[best].rec, slots[id].rec) then best else id;
    }
  }

  /**
   In every run, a start can always be decided, and is refused if and only if the
   limit's worth of workers and starts are live and every worker holds something;
   otherwise it gets a place.
   */
  lemma RefusedExactly(states: seq<State>, actions: seq<Action>, max: nat, k: nat, ticket: nat)
    requires Run(states, actions, max) && k < |states| && ticket !in states[k].reserved
    ensures var s := states[k];
            var full := |s.pool.slots| + |s.reserved| == max && forall id :: id in s.pool.slots ==> Holds(s.pool.slots[id].rec);
            && ((exists victim :: Enabled(s, max, Reserve(ticket, victim, false))) <==> full)
            && ((exists victim :: Enabled(s, max, Reserve(ticket, victim, true))) <==> !full)
  {
    hide Do, Holds, Before;
    RunKeeps(states, actions, max, k);
    var s := states[k];
    var slots := s.pool.slots;
    assert slots - {} == slots;
    if |slots| + s.pool.starting < max || AllHeld(slots) {
      assert MadeRoom(s.pool, max, Without(slots, None), None, |slots| + s.pool.starting < max);
      assert Enabled(s, max, Reserve(ticket, None, |slots| + s.pool.starting < max));
    } else {
      var victim := SomeVictim(slots, slots.Keys);
      assert IsVictim(slots, victim);
      assert Enabled(s, max, Reserve(ticket, Some(victim), true));
    }
  }
}
