/**
 The pools of live workers, one per backend: how a slot is made for a new
 worker, what keeps a worker in its slot, and when an idle one is stopped. The
 three managers keep the same books; only Codex counts starts apart, and only
 Codex prefers a worker that is not running.
 */
module WorkerPool {
  import opened Options

  /**
   What decides over a worker. Starting: not ready yet. Pinned: what the client
   or process reports of its own (turns, agents, commands, tasks, a loop, a
   schedule). Goal: still pursuing one, which keeps it from being paused but not
   from being evicted.
   */
  datatype Record = Record(starting: bool, busy: bool, pinned: bool, leases: int, running: bool, goal: bool,
                           lastUsed: int, idleSince: Option<int>)

  /** A worker in its slot: which one it is, and its record. */
  datatype Slot<K> = Slot(key: K, rec: Record)

  datatype Pool<K> = Pool(slots: map<string, Slot<K>>, starting: nat)

  /** Stopping it would lose something. */
  predicate Holds(r: Record)
  {
    r.starting || r.busy || r.leases > 0 || r.pinned
  }

  /** A better victim: not running first, then the longest unused. */
  predicate Before(a: Record, b: Record)
  {
    (!a.running && b.running) || (a.running == b.running && a.lastUsed < b.lastUsed)
  }

  ghost predicate IsVictim<K>(slots: map<string, Slot<K>>, id: string)
  {
    && id in slots && !Holds(slots[id].rec)
    && forall other :: other in slots && !Holds(slots[other].rec) ==> !Before(slots[other].rec, slots[id].rec)
  }

  ghost predicate AllHeld<K>(slots: map<string, Slot<K>>)
  {
    forall id :: id in slots ==> Holds(slots[id].rec)
  }

  /** What happens to the slots when a place is needed: nothing while there is room, else one victim goes, if there is any. */
  ghost predicate MadeRoom<K>(p: Pool<K>, max: nat, slots: map<string, Slot<K>>, victim: Option<string>, ok: bool)
  {
    if |p.slots| + p.starting < max then victim == None && slots == p.slots && ok
    else if AllHeld(p.slots) then victim == None && slots == p.slots && !ok
    else victim.Some? && IsVictim(p.slots, victim.value) && slots == p.slots - {victim.value} && ok
  }

  /** What one critical section does to one worker. */
  datatype Change = Started | Leased(now: int) | Returned(now: int) | Began(now: int) | Ended(now: int) | Aborted | Touched(now: int)

  function Changed(r: Record, c: Change): Record
  {
    match c
    case Started => r.(starting := false)
    case Leased(now) => r.(leases := r.leases + 1, lastUsed := now)
    case Returned(now) => r.(leases := r.leases - 1, lastUsed := now)
    case Began(now) => r.(busy := true, lastUsed := now)
    case Ended(now) => r.(busy := false, lastUsed := now)
    case Aborted => r.(busy := false)
    case Touched(now) => r.(lastUsed := now)
  }

  predicate InSlot<K(==)>(p: Pool<K>, id: string, key: K)
  {
    id in p.slots && p.slots[id].key == key
  }

  /** A change counts for the pool only while the worker is in its slot. */
  ghost function Update<K>(p: Pool<K>, id: string, key: K, c: Change): Pool<K>
  {
    if InSlot(p, id, key) then p.(slots := p.slots[id := Slot(key, Changed(p.slots[id].rec, c))]) else p
  }

  /** Unused since the reaper first found it idle, and since it was last used. */
  function IdleFrom(r: Record, now: int): int
  {
    var since := if r.idleSince.Some? then r.idleSince.value else now;
    if r.lastUsed > since then r.lastUsed else since
  }

  predicate Resting(r: Record)
  {
    !Holds(r) && !r.goal
  }

  predicate Reaps(r: Record, now: int, after: int)
  {
    Resting(r) && now - IdleFrom(r, now) >= after
  }

  /** What a pass leaves of a worker it keeps. */
  function Noted(r: Record, now: int): Record
  {
    if !Resting(r) then r.(idleSince := None)
    else if r.idleSince.None? then r.(idleSince := Some(now))
    else r
  }

  ghost function Reaped<K>(slots: map<string, Slot<K>>, now: int, after: int): map<string, Slot<K>>
  {
    map id | id in slots && !Reaps(slots[id].rec, now, after) :: slots[id].(rec := Noted(slots[id].rec, now))
  }

  class Worker {
    const id: string
    var rec: Record

    constructor (id: string, rec: Record)
      ensures this.id == id && this.rec == rec
    {
      this.id, this.rec := id, rec;
    }
  }

  const FRESH := Record(false, false, false, 0, false, false, 0, None)

  class Manager {
    var workers: map<string, Worker>
    var starting: nat
    const maxLive: nat

    /** At most `maxLive` workers, 8 when none is given. */
    constructor (maxLive: int)
      ensures Valid() && View() == Pool(map[], 0) && this.maxLive == if maxLive <= 0 then 8 else maxLive
    {
      workers, starting := map[], 0;
      this.maxLive := if maxLive <= 0 then 8 else maxLive;
    }

    ghost predicate Valid()
      reads this, workers.Values
    {
      && |workers| + starting <= maxLive
      && forall id :: id in workers ==> workers[id].id == id
    }

    ghost function View(): Pool<Worker>
      reads this, workers.Values
    {
      Pool(map id | id in workers :: Slot(workers[id], workers[id].rec), starting)
    }

    lemma Sizes()
      ensures View().slots.Keys == workers.Keys && |View().slots| == |workers|
    {
      assert View().slots.Keys == workers.Keys;
      assert |View().slots.Keys| == |View().slots| && |workers.Keys| == |workers|;
    }

    method Apply(w: Worker, c: Change)
      requires Valid()
      modifies w`rec
      ensures Valid() && w.rec == Changed(old(w.rec), c) && View() == Update(old(View()), w.id, w, c)
    {
      hide Changed;
      ghost var before := View();
      w.rec := Changed(w.rec, c);
      assert View().slots == Update(before, w.id, w, c).slots;
    }

    method Remove(id: string)
      requires Valid() && id in workers
      modifies this`workers
      ensures Valid() && |workers| == old(|workers|) - 1 && workers == old(workers) - {id}
      ensures View() == old(View()).(slots := old(View()).slots - {id})
    {
      ghost var before := View();
      RemovedSize(workers, id);
      workers := workers - {id};
      assert View().slots == before.slots - {id};
    }

    method Insert(w: Worker)
      requires |workers| + starting < maxLive && forall id :: id in workers ==> workers[id].id == id
      modifies this`workers
      ensures Valid() && View() == old(View()).(slots := old(View()).slots[w.id := Slot(w, w.rec)])
    {
      ghost var before := View();
      AddedSize(workers, w.id, w);
      workers := workers[w.id := w];
      assert View().slots == before.slots[w.id := Slot(w, w.rec)];
    }

    /** The eviction scan, over the workers in whatever order they come. */
    method FindVictim() returns (victim: Option<string>)
      ensures victim.None? ==> AllHeld(View().slots)
      ensures victim.Some? ==> IsVictim(View().slots, victim.value) && !AllHeld(View().slots)
    {
      victim := None;
      var rest := workers.Keys;
      while rest != {}
        invariant rest <= workers.Keys
        invariant victim.None? ==> forall id :: id in workers && id !in rest ==> Holds(workers[id].rec)
        invariant victim.Some? ==>
                    && victim.value in workers && !Holds(workers[victim.value].rec)
                    && forall id :: id in workers && id !in rest && !Holds(workers[id].rec) ==>
                         !Before(workers[id].rec, workers[victim.value].rec)
        decreases rest
      {
        var id :| id in rest;
        rest := rest - {id};
        var w := workers[id].rec;
        if Holds(w) {
          continue;
        }
        if victim.Some? {
          var v := workers[victim.value].rec;
          if (w.running && !v.running) || (w.running == v.running && w.lastUsed >= v.lastUsed) {
            continue;
          }
        }
        victim := Some(id);
      }
      assert victim.Some? ==> victim.value in View().slots && !Holds(View().slots[victim.value].rec);
    }

    /** A place for one more, at the cost of one victim when the pool is full. */
    method MakeRoom() returns (ok: bool, victim: Option<string>)
      requires Valid()
      modifies this`workers
      ensures Valid() && starting == old(starting) && workers.Keys <= old(workers.Keys)
      ensures MadeRoom(old(View()), maxLive, View().slots, victim, ok)
      ensures ok ==> |workers| + starting < maxLive
    {
      hide Holds, IsVictim, AllHeld;
      Sizes();
      if |workers| + starting < maxLive {
        return true, None;
      }
      victim := FindVictim();
      if victim.None? {
        return false, None;
      }
      InView(victim.value);
      Remove(victim.value);
      return true, victim;
    }

    lemma InView(id: string)
      requires IsVictim(View().slots, id)
      ensures id in workers
    {}

    /** Codex `reserve`: a place for a worker about to start. */
    method Reserve() returns (ok: bool, victim: Option<string>)
      requires Valid()
      modifies this`workers, this`starting
      ensures Valid()
      ensures MadeRoom(old(View()), maxLive, View().slots, victim, ok)
      ensures starting == old(starting) + (if ok then 1 else 0)
    {
      hide MadeRoom;
      ok, victim := MakeRoom();
      ghost var slots := View().slots;
      if ok {
        starting := starting + 1;
      }
      assert View().slots == slots;
    }

    /** Codex `finishStart` */
    method FinishStart()
      requires Valid() && starting > 0
      modifies this`starting
      ensures Valid() && View() == old(View()).(starting := old(starting) - 1)
    {
      starting := starting - 1;
    }

    /** Codex `StartThread`, once the thread has its id: the reserved place becomes the worker's. */
    method Bind(id: string, now: int) returns (w: Worker)
      requires Valid() && starting > 0
      modifies this
      ensures Valid() && fresh(w) && w.id == id
      ensures View() == Pool(old(View()).slots[id := Slot(w, FRESH.(lastUsed := now))], old(starting) - 1)
    {
      w := new Worker(id, FRESH.(lastUsed := now));
      starting := starting - 1;
      Insert(w);
    }

    /** Codex `getOrResume`, once it has reserved: another start of the same session may have come first. */
    method Install(id: string, now: int) returns (w: Option<Worker>)
      requires Valid() && starting > 0
      modifies this
      ensures Valid() && (w.Some? <==> id !in old(workers)) && (w.Some? ==> fresh(w.value) && w.value.id == id)
      ensures View() == Pool(if w.Some? then old(View()).slots[id := Slot(w.value, FRESH.(starting := true, lastUsed := now))] else old(View()).slots,
                             old(starting) - 1)
    {
      if id in workers {
        starting := starting - 1;
        return None;
      }
      var v := new Worker(id, FRESH.(starting := true, lastUsed := now));
      starting := starting - 1;
      Insert(v);
      return Some(v);
    }

    /** Codex `getOrResume`, once the thread is resumed or not: whether the worker can be used. */
    method Ready(w: Worker, failed: bool) returns (ok: bool)
      requires Valid()
      modifies this`workers, w`rec
      ensures Valid() && starting == old(starting)
      ensures ok == (!failed && w.id in old(workers) && old(workers)[w.id] == w)
      ensures View() == if failed && w.id in old(workers) && old(workers)[w.id] == w
                        then old(View()).(slots := old(View()).slots - {w.id})
                        else Update(old(View()), w.id, w, Started)
      ensures ok ==> w.id in workers && workers[w.id] == w && !w.rec.starting
      ensures failed && w.id in old(workers) && old(workers)[w.id] == w ==> w.id !in workers
    {
      var owned := w.id in workers && workers[w.id] == w;
      ghost var before := View();
      Apply(w, Started);
      if failed && owned {
        Remove(w.id);
        assert View().slots == before.slots - {w.id};
      }
      return !failed && owned;
    }

    /** Codex `leaseWorker` under its lock, and pi `leaseWorkerIfLive`: only a worker still in its slot is leased. */
    method Lease(w: Worker, now: int) returns (ok: bool)
      requires Valid()
      modifies w`rec
      ensures Valid() && (ok <==> w.id in workers && workers[w.id] == w)
      ensures View() == Update(old(View()), w.id, w, Leased(now))
      ensures ok ==> w.rec.leases == old(w.rec.leases) + 1
    {
      if w.id !in workers || workers[w.id] != w {
        return false;
      }
      Apply(w, Leased(now));
      return true;
    }

    /** `releaseWorker` */
    method Release(w: Worker, now: int)
      requires Valid()
      modifies w`rec
      ensures Valid() && w.rec == old(w.rec).(leases := old(w.rec.leases) - 1, lastUsed := now)
      ensures View() == Update(old(View()), w.id, w, Returned(now))
    {
      Apply(w, Returned(now));
    }

    /** Codex `startOperation` on a leased worker; `clientBusy` is what its client reports. */
    method BeginOperation(w: Worker, clientBusy: bool, now: int) returns (ok: bool)
      requires Valid()
      modifies w`rec
      ensures Valid() && ok == !(old(w.rec.busy) || clientBusy)
      ensures w.rec == if ok then old(w.rec).(busy := true, lastUsed := now) else old(w.rec)
      ensures View() == if ok then Update(old(View()), w.id, w, Began(now)) else old(View())
    {
      if w.rec.busy || clientBusy {
        return false;
      }
      Apply(w, Began(now));
      return true;
    }

    /** Codex `startOperation` when the client refuses to start. */
    method AbortOperation(w: Worker)
      requires Valid()
      modifies w`rec
      ensures Valid() && w.rec == old(w.rec).(busy := false) && View() == Update(old(View()), w.id, w, Aborted)
    {
      Apply(w, Aborted);
    }

    /** The end of a Codex operation: only a worker still in its slot is marked idle. */
    method EndOperation(w: Worker, now: int)
      requires Valid()
      modifies w`rec
      ensures Valid() && View() == Update(old(View()), w.id, w, Ended(now))
    {
      if w.id in workers && workers[w.id] == w {
        Apply(w, Ended(now));
      }
    }

    /**
     pi `add`, and the pool part of Claude's `ensureProcess` for a session that
     has no process: one that is live is not added again, and a process that
     cannot be spawned leaves the place made for it empty.
     */
    method Add(id: string, leased: bool, spawned: bool, now: int)
      returns (w: Option<Worker>, victim: Option<string>, ok: bool, ghost room: map<string, Slot<Worker>>)
      requires Valid() && starting == 0
      modifies this
      ensures Valid() && starting == 0 && (w.Some? ==> fresh(w.value) && w.value.id == id)
      ensures id in old(workers) ==> w == None && victim == None && ok && View() == old(View())
      ensures id !in old(workers) ==>
                && MadeRoom(old(View()), maxLive, room, victim, ok) && (w.Some? <==> ok && spawned)
                && View().slots == if w.Some? then room[id := Slot(w.value, FRESH.(leases := if leased then 1 else 0, lastUsed := now))] else room
    {
      hide MadeRoom;
      w, victim, ok, room := None, None, true, View().slots;
      if id in workers {
        return;
      }
      ok, victim := MakeRoom();
      room := View().slots;
      if !ok || !spawned {
        return;
      }
      var v := new Worker(id, FRESH.(leases := if leased then 1 else 0, lastUsed := now));
      Insert(v);
      w := Some(v);
    }

    /**
     The pool part of Claude's `ensureProcess`: a live process is leased or
     touched where it is found. It is `refused` a place only by a full pool whose
     processes are all held; one that cannot be spawned still costs the victim.
     */
    method EnsureProcess(id: string, leased: bool, spawned: bool, now: int)
      returns (w: Option<Worker>, isNew: bool, victim: Option<string>, refused: bool, ghost room: map<string, Slot<Worker>>)
      requires Valid() && starting == 0
      modifies this, workers.Values
      ensures Valid() && starting == 0 && isNew == (w.Some? && id !in old(workers))
      ensures id in old(workers) ==>
                && w == Some(old(workers)[id]) && !refused
                && View() == Update(old(View()), id, w.value, if leased then Leased(now) else Touched(now))
      ensures id !in old(workers) ==>
                && (w.Some? <==> !refused && spawned) && (refused <==> |old(workers)| >= maxLive && AllHeld(old(View()).slots))
                && MadeRoom(old(View()), maxLive, room, victim, !refused)
                && View().slots == if w.Some? then room[id := Slot(w.value, FRESH.(leases := if leased then 1 else 0, lastUsed := now))] else room
    {
      hide Changed, IsVictim, AllHeld;
      Sizes();
      victim, refused, room := None, false, View().slots;
      if id in workers {
        Apply(workers[id], if leased then Leased(now) else Touched(now));
        return Some(workers[id]), false, victim, refused, room;
      }
      var ok;
      w, victim, ok, room := Add(id, leased, spawned, now);
      isNew, refused := w.Some?, !ok;
    }

    /**
     Codex `StartThread`, with nothing in between its critical sections: the place
     it reserved is filled, or given back with whatever it cost.
     */
    method StartThread(id: string, failed: bool, now: int)
      returns (w: Option<Worker>, victim: Option<string>, ok: bool, ghost room: map<string, Slot<Worker>>)
      requires Valid()
      modifies this
      ensures Valid() && starting == old(starting)
      ensures MadeRoom(old(View()), maxLive, room, victim, ok) && (w.Some? <==> ok && !failed)
      ensures View().slots == if w.Some? then room[id := Slot(w.value, FRESH.(lastUsed := now))] else room
    {
      hide MadeRoom;
      w := None;
      ok, victim := Reserve();
      room := View().slots;
      if !ok {
        return;
      }
      if failed {
        FinishStart();
        return;
      }
      var v := Bind(id, now);
      w := Some(v);
    }

    /**
     One round of Codex `getOrResume`, with nothing in between its critical
     sections: `again` when it has to wait for a start that is under way.
     */
    method ResumeOnce(id: string, failed: bool, now: int)
      returns (w: Option<Worker>, again: bool, victim: Option<string>, ok: bool, ghost room: map<string, Slot<Worker>>)
      requires Valid()
      modifies this, workers.Values
      ensures Valid() && starting == old(starting)
      ensures again == (id in old(workers) && old(workers[id].rec.starting)) && (again ==> w == None && View() == old(View()))
      ensures id in old(workers) && !again ==> w == Some(old(workers)[id]) && View() == Update(old(View()), id, w.value, Touched(now))
      ensures id !in old(workers) ==>
                && MadeRoom(old(View()), maxLive, room, victim, ok) && (w.Some? <==> ok && !failed)
                && View().slots == if w.Some? then room[id := Slot(w.value, FRESH.(lastUsed := now))] else room
    {
      hide MadeRoom, Changed;
      w, again, victim, ok, room := None, false, None, true, View().slots;
      if id in workers {
        if workers[id].rec.starting {
          again := true;
          return;
        }
        Apply(workers[id], Touched(now));
        w := Some(workers[id]);
        return;
      }
      Sizes();
      ghost var p := View();
      ok, victim := Reserve();
      room := View().slots;
      if !ok {
        return;
      }
      RoomKeys(p, maxLive, room, victim, ok);
      Sizes();
      w := Install(id, now);
      var usable := Ready(w.value, failed);
      StartedFresh(room, id, w.value, now);
      if !usable {
        w := None;
      }
    }

    /** `reapIdle`'s look at one worker: whether it is to be stopped. */
    method Look(w: Worker, now: int, after: int) returns (stop: bool)
      requires Valid() && w.id in workers && workers[w.id] == w
      modifies w`rec
      ensures Valid() && stop == Reaps(old(w.rec), now, after) && w.rec == Noted(old(w.rec), now)
      ensures View().slots == old(View()).slots[w.id := Slot(w, Noted(old(w.rec), now))]
    {
      if Holds(w.rec) || w.rec.goal {
        Note(w, None);
        return false;
      }
      Note(w, if w.rec.idleSince.None? then Some(now) else w.rec.idleSince);
      var since := w.rec.idleSince.value;
      if w.rec.lastUsed > since {
        since := w.rec.lastUsed;
      }
      return now - since >= after;
    }

    method Note(w: Worker, since: Option<int>)
      requires Valid() && w.id in workers && workers[w.id] == w
      modifies w`rec
      ensures Valid() && w.rec == old(w.rec).(idleSince := since)
      ensures View().slots == old(View()).slots[w.id := Slot(w, w.rec)]
    {
      ghost var before := View().slots;
      w.rec := w.rec.(idleSince := since);
      assert View().slots == before[w.id := Slot(w, w.rec)];
    }

    method ReapOne(w: Worker, now: int, after: int) returns (stop: bool)
      requires Valid() && w.id in workers && workers[w.id] == w
      modifies this`workers, w`rec
      ensures Valid() && stop == Reaps(old(w.rec), now, after)
      ensures workers.Values <= old(workers.Values)
      ensures View().slots == if stop then old(View()).slots - {w.id} else old(View()).slots[w.id := Slot(w, Noted(old(w.rec), now))]
    {
      hide Reaps, Noted;
      ghost var before := View().slots;
      stop := Look(w, now, after);
      if stop {
        Remove(w.id);
        assert View().slots == before - {w.id};
      }
    }

    /** `reapIdle` */
    method ReapIdle(now: int, after: int) returns (stopped: set<string>)
      requires Valid()
      modifies this`workers, workers.Values
      ensures Valid() && starting == old(starting)
      ensures View().slots == Reaped(old(View()).slots, now, after)
      ensures forall id :: id in stopped <==> id in old(View()).slots && Reaps(old(View()).slots[id].rec, now, after)
    {
      hide Partly, Reaps, Noted, Reaped, Holds;
      stopped := {};
      var rest := workers.Keys;
      ghost var before, all := View().slots, workers.Values;
      PartlyEnds(before, now, after);
      Sizes();
      while rest != {}
        invariant Valid() && rest <= before.Keys && workers.Values <= all
        invariant View().slots == Partly(before, rest, now, after)
        invariant forall id :: id in stopped <==> id in before && id !in rest && Reaps(before[id].rec, now, after)
        decreases rest
      {
        var id :| id in rest;
        PartlyNext(before, rest, id, now, after);
        var stop := ReapOne(workers[id], now, after);
        rest := rest - {id};
        if stop {
          stopped := stopped + {id};
        }
      }
    }
  }

  lemma RoomKeys<K>(p: Pool<K>, max: nat, room: map<string, Slot<K>>, victim: Option<string>, ok: bool)
    requires MadeRoom(p, max, room, victim, ok)
    ensures room.Keys <= p.slots.Keys
  {}

  lemma StartedFresh<K>(room: map<string, Slot<K>>, id: string, key: K, now: int)
    ensures Changed(FRESH.(starting := true, lastUsed := now), Started) == FRESH.(lastUsed := now)
    ensures forall r: Record :: id !in room ==> room[id := Slot(key, r)] - {id} == room
    ensures forall r, q: Record :: room[id := Slot(key, r)][id := Slot(key, q)] == room[id := Slot(key, q)]
  {}

  /** A pass that has yet to look at `rest`. */
  ghost function Partly<K>(slots: map<string, Slot<K>>, rest: set<string>, now: int, after: int): map<string, Slot<K>>
  {
    map id | id in slots && (id in rest || !Reaps(slots[id].rec, now, after)) ::
      if id in rest then slots[id] else slots[id].(rec := Noted(slots[id].rec, now))
  }

  lemma PartlyEnds<K>(slots: map<string, Slot<K>>, now: int, after: int)
    ensures Partly(slots, slots.Keys, now, after) == slots && Partly(slots, {}, now, after) == Reaped(slots, now, after)
  {}

  lemma PartlyNext<K>(slots: map<string, Slot<K>>, rest: set<string>, id: string, now: int, after: int)
    requires id in rest && rest <= slots.Keys
    ensures var p := Partly(slots, rest, now, after);
            && id in p && p[id] == slots[id]
            && Partly(slots, rest - {id}, now, after) ==
               if Reaps(slots[id].rec, now, after) then p - {id} else p[id := slots[id].(rec := Noted(slots[id].rec, now))]
  {}

  lemma RemovedSize<K, V>(m: map<K, V>, k: K)
    requires k in m
    ensures |m - {k}| == |m| - 1
  {
    assert (m - {k}).Keys == m.Keys - {k};
    assert |(m - {k}).Keys| == |m - {k}| && |m.Keys| == |m|;
  }

  lemma AddedSize<K, V>(m: map<K, V>, k: K, v: V)
    ensures |m[k := v]| == |m| + (if k in m then 0 else 1)
  {
    assert m[k := v].Keys == m.Keys + {k};
    assert |m[k := v].Keys| == |m[k := v]| && |m.Keys| == |m|;
  }
}
