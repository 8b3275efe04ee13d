/**
 The turn queue of one Claude process: requests in the order Claude drains them,
 finished by lifecycle frames, by the interrupt grace timer, or by the process's
 death. A request's number stands for its identity.
 */
module ClaudeTurns {
  import opened Options

  /** Foreign: Claude's own command, which nothing waits on. */
  datatype Request = Request(n: nat, uuid: string, started: bool, foreign: bool)

  predicate IsTerminal(state: string)
  {
    state == "completed" || state == "cancelled" || state == "discarded" || state == "refused"
  }

  /** The place of the request with a uuid; the length when there is none. */
  function Place(turns: seq<Request>, uuid: string): (i: nat)
    ensures i <= |turns| && (forall j :: 0 <= j < i ==> turns[j].uuid != uuid) && (i < |turns| ==> turns[i].uuid == uuid)
  {
    if turns == [] || turns[0].uuid == uuid then 0 else 1 + Place(turns[1..], uuid)
  }

  /** How many requests at the front have started. */
  function Running(turns: seq<Request>): (k: nat)
    ensures k <= |turns| && (forall j :: 0 <= j < k ==> turns[j].started) && (k < |turns| ==> !turns[k].started)
  {
    if turns == [] || !turns[0].started then 0 else 1 + Running(turns[1..])
  }

  function Without(turns: seq<Request>, i: nat): seq<Request>
    requires i < |turns|
  {
    turns[..i] + turns[i + 1..]
  }

  /** `finishLifecycle` on a frame that says a command started: a uuid of Claude's own goes ahead of all not yet started. */
  function Start(turns: seq<Request>, uuid: string, next: nat): seq<Request>
  {
    var i := Place(turns, uuid);
    if i < |turns| then turns[i := turns[i].(started := true)]
    else
      var at := Running(turns);
      turns[..at] + [Request(next, uuid, true, true)] + turns[at..]
  }

  /** The place a terminal frame ends, if any. */
  function Ends(turns: seq<Request>, uuid: string, state: string): Option<nat>
  {
    var i := Place(turns, uuid);
    if uuid != "" && i < |turns| && state != "started" && IsTerminal(state) then Some(i) else None
  }

  /** Request `i` is the first with its uuid. */
  ghost predicate FirstOf(turns: seq<Request>, i: nat, uuid: string)
  {
    i < |turns| && turns[i].uuid == uuid && forall j :: 0 <= j < i ==> turns[j].uuid != uuid
  }

  /** The requests with other uuids, in order. */
  function Others(turns: seq<Request>, uuid: string): seq<Request>
  {
    if turns == [] then []
    else Others(turns[..|turns| - 1], uuid) + if turns[|turns| - 1].uuid == uuid then [] else [turns[|turns| - 1]]
  }

  lemma {:induction false} OthersConcat(a: seq<Request>, b: seq<Request>, uuid: string)
    ensures Others(a + b, uuid) == Others(a, uuid) + Others(b, uuid)
    decreases |b|
  {
    if b == [] {
      assert a + b == a;
    } else {
      assert (a + b)[..|a + b| - 1] == a + b[..|b| - 1];
      OthersConcat(a, b[..|b| - 1], uuid);
    }
  }

  lemma OneOfUuid(r: Request, uuid: string)
    ensures Others([r], uuid) == if r.uuid == uuid then [] else [r]
  {
    assert [r][..0] == [];
  }

  /** The states that end a request. */
  ghost predicate Over(state: string)
  {
    state in {"completed", "cancelled", "discarded", "refused"}
  }

  /**
   What a frame's end makes of a queue: of those with the frame's uuid the first
   goes, and is finished unless it is Claude's own; every other request stays, in
   order. A frame of any other state, or of no uuid in the queue, ends nothing.
   */
  ghost predicate EndsByUuid(was: seq<Request>, uuid: string, state: string, now: seq<Request>, finished: Option<Request>)
  {
    && (finished.Some? ==> finished.value.uuid == uuid && !finished.value.foreign)
    && Others(now, uuid) == Others(was, uuid)
    && (uuid == "" || !Over(state) || (forall i :: 0 <= i < |was| ==> was[i].uuid != uuid) ==> now == was && finished == None)
    && (uuid != "" && Over(state) ==>
          forall i: nat :: FirstOf(was, i, uuid) ==>
            now == was[..i] + was[i + 1..] && finished == if was[i].foreign then None else Some(was[i]))
  }

  lemma OthersWithout(turns: seq<Request>, i: nat, uuid: string)
    requires i < |turns| && turns[i].uuid == uuid
    ensures Others(turns[..i] + turns[i + 1..], uuid) == Others(turns, uuid)
  {
    hide Others;
    var head, tail := turns[..i], turns[i + 1..];
    assert turns == head + [turns[i]] + tail;
    OthersConcat(head, [turns[i]], uuid);
    OthersConcat(head + [turns[i]], tail, uuid);
    OthersConcat(head, tail, uuid);
    OneOfUuid(turns[i], uuid);
    assert Others(head, uuid) + [] == Others(head, uuid);
  }

  lemma OverIs(state: string)
    ensures Over(state) <==> IsTerminal(state)
  {}

  lemma PlaceFirst(turns: seq<Request>, uuid: string)
    ensures forall j: nat :: FirstOf(turns, j, uuid) <==> j == Place(turns, uuid) < |turns|
    ensures Place(turns, uuid) == |turns| <==> forall j :: 0 <= j < |turns| ==> turns[j].uuid != uuid
  {}

  lemma EndsFirst(was: seq<Request>, uuid: string, state: string)
    requires uuid == "" || state != "started"
    ensures var i := Ends(was, uuid, state);
            EndsByUuid(was, uuid, state, if i.Some? then Without(was, i.value) else was,
                       if i.Some? && !was[i.value].foreign then Some(was[i.value]) else None)
  {
    hide Others, Over, IsTerminal, FirstOf, Place;
    var i := Place(was, uuid);
    OverIs(state);
    PlaceFirst(was, uuid);
    if i < |was| {
      OthersWithout(was, i, uuid);
    }
  }

  /**
   What a frame that says a command started makes of a queue: the first request
   with its uuid is marked; when there is none, one of Claude's own goes behind the
   started ones at the front and ahead of all others. Nothing else changes.
   */
  lemma StartsByUuid(was: seq<Request>, uuid: string, next: nat)
    ensures forall i: nat :: FirstOf(was, i, uuid) ==>
              Start(was, uuid, next) == was[i := Request(was[i].n, uuid, true, was[i].foreign)]
    ensures (forall i :: 0 <= i < |was| ==> was[i].uuid != uuid) ==>
              exists k: nat :: k <= |was| && Start(was, uuid, next) == was[..k] + [Request(next, uuid, true, true)] + was[k..]
                && (forall j :: 0 <= j < k ==> was[j].started) && (k < |was| ==> !was[k].started)
  {
    PlaceFirst(was, uuid);
    var k := Running(was);
    assert Place(was, uuid) == |was| ==> Start(was, uuid, next) == was[..k] + [Request(next, uuid, true, true)] + was[k..];
  }

  class Process {
    var turns: seq<Request>
    /** Each request is a new one. */
    var next: nat

    constructor ()
      ensures turns == [] && next == 0
    {
      turns, next := [], 0;
    }

    /** `Send`, before it writes: how many requests are ahead of it. */
    method BeginSend(uuid: string) returns (n: nat, queuedAhead: nat)
      modifies this
      ensures n == old(next) && next == n + 1 && queuedAhead == |old(turns)|
      ensures turns == old(turns) + [Request(n, uuid, false, false)]
    {
      n, queuedAhead := next, |turns|;
      turns := turns + [Request(n, uuid, false, false)];
      next := next + 1;
    }

    /** `Send`, when the write failed: the last request goes, whichever it is. False where the slice would be out of range. */
    method RollbackSend() returns (ok: bool)
      modifies this`turns
      ensures ok == (old(turns) != []) && turns == if ok then old(turns)[..|old(turns)| - 1] else []
    {
      if turns == [] {
        return false;
      }
      turns := turns[..|turns| - 1];
      return true;
    }

    /** `finishLifecycle`: the request it finishes, if one is waited on. */
    method FinishLifecycle(uuid: string, state: string) returns (finished: Option<Request>)
      modifies this
      ensures uuid == "" ==> turns == old(turns) && next == old(next) && finished == None
      ensures uuid != "" && state == "started" ==> turns == Start(old(turns), uuid, old(next)) && finished == None && next >= old(next)
      ensures uuid != "" && state == "started" ==> next == old(next) + (if Place(old(turns), uuid) < |old(turns)| then 0 else 1)
      ensures uuid != "" && state != "started" ==> next == old(next)
      ensures uuid == "" || state != "started" ==> EndsByUuid(old(turns), uuid, state, turns, finished)
      ensures uuid != "" && state != "started" ==>
                var i := Ends(old(turns), uuid, state);
                && turns == (if i.Some? then Without(old(turns), i.value) else old(turns))
                && finished == (if i.Some? && !old(turns)[i.value].foreign then Some(old(turns)[i.value]) else None)
    {
      hide EndsByUuid, Others;
      finished := None;
      if uuid == "" || state != "started" {
        EndsFirst(turns, uuid, state);
      }
      if uuid == "" {
        return;
      }
      var idx := 0;
      while idx < |turns| && turns[idx].uuid != uuid
        invariant idx <= |turns| && forall j :: 0 <= j < idx ==> turns[j].uuid != uuid
      {
        idx := idx + 1;
      }
      PlaceIs(turns, uuid, idx);
      if state == "started" {
        if idx < |turns| {
          turns := turns[idx := turns[idx].(started := true)];
        } else {
          var at := 0;
          while at < |turns| && turns[at].started
            invariant at <= |turns| && forall j :: 0 <= j < at ==> turns[j].started
          {
            at := at + 1;
          }
          RunningIs(turns, at);
          turns := turns[..at] + [Request(next, uuid, true, true)] + turns[at..];
          next := next + 1;
        }
        return;
      }
      if idx == |turns| || !IsTerminal(state) {
        return;
      }
      var req := turns[idx];
      turns := turns[..idx] + turns[idx + 1..];
      if !req.foreign {
        finished := Some(req);
      }
    }

    /** `cancelUnlessAnswered`, once the grace is over: a request still at the head is dropped, and finished if it is waited on. */
    method GraceOver(head: nat) returns (finished: Option<Request>)
      modifies this`turns
      ensures var hit := old(turns) != [] && old(turns)[0].n == head;
              && turns == (if hit then old(turns)[1..] else old(turns))
              && finished == (if hit && !old(turns)[0].foreign then Some(old(turns)[0]) else None)
    {
      finished := None;
      if turns == [] || turns[0].n != head {
        return;
      }
      var req := turns[0];
      turns := turns[1..];
      if !req.foreign {
        finished := Some(req);
      }
    }

    /** `died`: every request that is waited on is finished, oldest first. */
    method Died() returns (finished: seq<Request>)
      modifies this`turns
      ensures turns == [] && finished == Waited(old(turns))
    {
      var left := turns;
      turns := [];
      finished := [];
      for i := 0 to |left|
        invariant finished == Waited(left[..i])
      {
        assert left[..i + 1][..i] == left[..i];
        if !left[i].foreign {
          finished := finished + [left[i]];
        }
      }
      assert left[..|left|] == left;
    }
  }

  /** The requests something waits on. */
  function Waited(turns: seq<Request>): seq<Request>
  {
    if turns == [] then []
    else Waited(turns[..|turns| - 1]) + (if turns[|turns| - 1].foreign then [] else [turns[|turns| - 1]])
  }

  lemma {:induction false} PlaceIs(turns: seq<Request>, uuid: string, i: nat)
    requires i <= |turns| && (forall j :: 0 <= j < i ==> turns[j].uuid != uuid) && (i < |turns| ==> turns[i].uuid == uuid)
    ensures Place(turns, uuid) == i
    decreases i
  {
    if i > 0 {
      PlaceIs(turns[1..], uuid, i - 1);
    }
  }

  lemma {:induction false} RunningIs(turns: seq<Request>, k: nat)
    requires k <= |turns| && (forall j :: 0 <= j < k ==> turns[j].started) && (k < |turns| ==> !turns[k].started)
    ensures Running(turns) == k
    decreases k
  {
    if k > 0 {
      RunningIs(turns[1..], k - 1);
    }
  }

  // -------------------------------------------------------- started in order

  /** Started requests come before all that have not. */
  ghost predicate StartedFirst(turns: seq<Request>)
  {
    forall i, j :: 0 <= i < j < |turns| && turns[j].started ==> turns[i].started
  }

  /** A start keeps the started requests a prefix exactly when nothing ahead of the one started is still to start; a foreign one always does. */
  lemma StartKeepsPrefix(turns: seq<Request>, uuid: string, next: nat)
    requires StartedFirst(turns)
    ensures StartedFirst(Start(turns, uuid, next)) <==> Place(turns, uuid) == |turns| || Place(turns, uuid) <= Running(turns)
  {
    var i, k := Place(turns, uuid), Running(turns);
    assert forall j :: 0 <= j < |turns| ==> (turns[j].started <==> j < k);
    if i < |turns| {
      var t := turns[i := turns[i].(started := true)];
      assert t[i].started;
      assert k < i ==> !t[k].started;
    } else {
      InsertedPrefix(turns, k, Request(next, uuid, true, true));
    }
  }

  lemma InsertedPrefix(turns: seq<Request>, k: nat, r: Request)
    requires k <= |turns| && r.started && forall j :: 0 <= j < |turns| ==> (turns[j].started <==> j < k)
    ensures StartedFirst(turns[..k] + [r] + turns[k..])
  {
    var t := turns[..k] + [r] + turns[k..];
    assert forall j :: 0 <= j < |t| ==> (t[j].started <==> j <= k);
  }

  /** No other step disturbs it: a new send at the end, an end anywhere, a rollback or the grace timer. */
  lemma EndKeepsPrefix(turns: seq<Request>, i: nat, r: Request)
    requires StartedFirst(turns)
    ensures i < |turns| ==> StartedFirst(Without(turns, i))
    ensures !r.started ==> StartedFirst(turns + [r])
  {
    if i < |turns| {
      var t := Without(turns, i);
      assert forall j :: 0 <= j < |t| ==> t[j] == turns[if j < i then j else j + 1];
    }
  }
}

/** Sends, frames, timers and death in any interleaving, on one process. */
module ClaudeRuns {
  import opened Options
  import opened ClaudeTurns

  /**
   `writing` are the sends between queueing and the outcome of their write,
   `written` those whose write succeeded, `refused` those whose write failed;
   `finished` lists every completion delivered, in order; `taken` are the requests
   that another send's rollback took off the queue.
   */
  datatype State = State(turns: seq<Request>, next: nat, dead: bool, writing: set<nat>, written: set<nat>, refused: set<nat>,
                         finished: seq<nat>, taken: set<nat>)

  const START := State([], 0, false, {}, {}, {}, [], {})

  datatype Action =
    | Queue(uuid: string)
    | Wrote(n: nat)
    | WriteFailed(n: nat)
    | Frame(uuid: string, state: string)
    | Grace(head: nat)
    | Die

  /** A write to a dead process fails; a rollback needs something to take. */
  ghost predicate Enabled(s: State, a: Action)
  {
    match a
    case Wrote(n) => n in s.writing && !s.dead
    case WriteFailed(n) => n in s.writing && s.turns != []
    case Die => !s.dead
    case _ => true
  }

  ghost predicate OwnLast(turns: seq<Request>, n: nat)
  {
    turns != [] && turns[|turns| - 1].n == n
  }

  /** The numbers of the requests something waits on. */
  ghost function Due(turns: seq<Request>): (due: seq<nat>)
    ensures |due| == |Waited(turns)|
  {
    seq(|Waited(turns)|, i requires 0 <= i < |Waited(turns)| => Waited(turns)[i].n)
  }

  lemma DueLast(turns: seq<Request>)
    ensures turns == [] ==> Due(turns) == []
    ensures turns != [] ==>
              var k := |turns| - 1;
              Due(turns) == Due(turns[..k]) + if turns[k].foreign then [] else [turns[k].n]
  {}

  ghost function Finish(s: State, i: nat): State
    requires i < |s.turns|
  {
    s.(turns := Without(s.turns, i), finished := if s.turns[i].foreign then s.finished else s.finished + [s.turns[i].n])
  }

  ghost function Do(s: State, a: Action): State
    requires Enabled(s, a)
  {
    match a
    case Queue(uuid) => s.(turns := s.turns + [Request(s.next, uuid, false, false)], next := s.next + 1, writing := s.writing + {s.next})
    case Wrote(n) => s.(writing := s.writing - {n}, written := s.written + {n})
    case WriteFailed(n) =>
      var k := |s.turns| - 1;
      s.(writing := s.writing - {n}, refused := s.refused + {n}, turns := s.turns[..k],
         taken := if s.turns[k].n == n then s.taken else s.taken + {s.turns[k].n})
    case Frame(uuid, state) =>
      if uuid == "" then s
      else if state == "started" then
        s.(turns := Start(s.turns, uuid, s.next), next := if Place(s.turns, uuid) < |s.turns| then s.next else s.next + 1)
      else if Ends(s.turns, uuid, state).Some? then Finish(s, Ends(s.turns, uuid, state).value) else s
    case Grace(head) => if s.turns != [] && s.turns[0].n == head then Finish(s, 0) else s
    case Die => s.(turns := [], dead := true, finished := s.finished + Due(s.turns))
  }

  // ------------------------------------------------------- finished at most once

  ghost predicate NoTwice(s: seq<nat>)
  {
    forall i, j :: 0 <= i < j < |s| ==> s[i] != s[j]
  }

  ghost predicate Queued(turns: seq<Request>, n: nat)
  {
    exists i :: 0 <= i < |turns| && turns[i].n == n && !turns[i].foreign
  }

  /** Every request is queued once, and none that is queued was finished, or taken; nor was one both. */
  ghost predicate OnceOk(s: State)
  {
    && (forall i, j :: 0 <= i < j < |s.turns| ==> s.turns[i].n != s.turns[j].n)
    && (forall i :: 0 <= i < |s.turns| ==> s.turns[i].n < s.next && s.turns[i].n !in s.finished && s.turns[i].n !in s.taken)
    && (forall n :: n in s.finished ==> n < s.next && n !in s.taken)
    && (forall n :: n in s.writing || n in s.written || n in s.refused || n in s.taken ==> n < s.next)
    && NoTwice(s.finished)
  }

  /** A send that was not refused is queued, was finished, or was taken. */
  ghost predicate AccountedFor(s: State)
  {
    && (forall n :: n in s.writing || n in s.written ==> Queued(s.turns, n) || n in s.finished || n in s.taken)
    && s.written !! s.writing
  }

  lemma FinishOnce(s: State, i: nat)
    requires OnceOk(s) && i < |s.turns|
    ensures OnceOk(Finish(s, i))
  {
    var t := Finish(s, i);
    assert forall j :: 0 <= j < |t.turns| ==> t.turns[j] == s.turns[if j < i then j else j + 1];
  }

  lemma FinishAccounts(s: State, i: nat)
    requires AccountedFor(s) && i < |s.turns|
    ensures AccountedFor(Finish(s, i))
  {
    var t := Finish(s, i);
    forall n | n in t.writing || n in t.written ensures Queued(t.turns, n) || n in t.finished || n in t.taken {
      assert Queued(s.turns, n) || n in s.finished || n in s.taken;
      if n !in s.finished && n !in s.taken {
        var j :| 0 <= j < |s.turns| && s.turns[j].n == n && !s.turns[j].foreign;
        if j == i {
          assert t.finished[|s.finished|] == n;
        } else {
          assert t.turns[if j < i then j else j - 1] == s.turns[j];
        }
      }
    }
  }

  lemma StartedSame(turns: seq<Request>, uuid: string, next: nat)
    ensures forall n :: Queued(turns, n) ==> Queued(Start(turns, uuid, next), n)
  {
    var t, at := Start(turns, uuid, next), Running(turns);
    forall n | Queued(turns, n) ensures Queued(t, n) {
      var j :| 0 <= j < |turns| && turns[j].n == n && !turns[j].foreign;
      if Place(turns, uuid) < |turns| {
        assert t[j].n == n && !t[j].foreign;
      } else {
        assert t[if j < at then j else j + 1] == turns[j];
      }
    }
  }

  lemma StartOnce(s: State, uuid: string)
    requires OnceOk(s)
    ensures OnceOk(Do(s, Frame(uuid, "started")))
  {
    var i := Place(s.turns, uuid);
    if i < |s.turns| {
      var t := Start(s.turns, uuid, s.next);
      assert |t| == |s.turns| && forall j :: 0 <= j < |t| ==> t[j].n == s.turns[j].n;
    } else {
      InsertOnce(s, Running(s.turns), Request(s.next, uuid, true, true));
    }
  }

  lemma InsertOnce(s: State, at: nat, r: Request)
    requires OnceOk(s) && at <= |s.turns| && r.n == s.next
    ensures OnceOk(s.(turns := s.turns[..at] + [r] + s.turns[at..], next := s.next + 1))
  {
    var t := s.turns[..at] + [r] + s.turns[at..];
    assert t[at] == r && forall j :: 0 <= j < |t| && j != at ==> t[j] == s.turns[if j < at then j else j - 1];
  }

  lemma {:induction false} DueAll(turns: seq<Request>)
    ensures forall n :: Queued(turns, n) <==> n in Due(turns)
  {
    DueLast(turns);
    if turns != [] {
      DueAll(turns[..|turns| - 1]);
      forall n ensures Queued(turns, n) <==> n in Due(turns) {
        QueuedLast(turns, n);
      }
    }
  }

  lemma {:induction false} DueOnce(turns: seq<Request>)
    requires forall i, j :: 0 <= i < j < |turns| ==> turns[i].n != turns[j].n
    ensures NoTwice(Due(turns))
  {
    DueLast(turns);
    if turns != [] {
      var k := |turns| - 1;
      DueOnce(turns[..k]);
      DueAll(turns[..k]);
      assert !Queued(turns[..k], turns[k].n);
      Concat(Due(turns[..k]), if turns[k].foreign then [] else [turns[k].n]);
    }
  }

  lemma Concat(s: seq<nat>, t: seq<nat>)
    requires NoTwice(s) && NoTwice(t) && forall n :: n in s ==> n !in t
    ensures NoTwice(s + t)
  {
    forall i, j | 0 <= i < j < |s + t| ensures (s + t)[i] != (s + t)[j] {
      assert j < |s| || (s + t)[j] in t;
      assert i >= |s| || (s + t)[i] in s;
    }
  }

  lemma QueuedLast(turns: seq<Request>, n: nat)
    requires turns != []
    ensures var k := |turns| - 1; Queued(turns, n) <==> Queued(turns[..k], n) || (n == turns[k].n && !turns[k].foreign)
  {
    var k := |turns| - 1;
    if Queued(turns, n) && !(n == turns[k].n && !turns[k].foreign) {
      var i :| 0 <= i < |turns| && turns[i].n == n && !turns[i].foreign;
      assert turns[..k][i].n == n;
    }
    if Queued(turns[..k], n) {
      var i :| 0 <= i < k && turns[..k][i].n == n && !turns[..k][i].foreign;
      assert turns[i].n == n;
    }
  }

  lemma DieOnce(s: State)
    requires OnceOk(s)
    ensures OnceOk(Do(s.(dead := false), Die))
  {
    DueAll(s.turns);
    DueOnce(s.turns);
    Concat(s.finished, Due(s.turns));
  }

  lemma StepOnce(s: State, a: Action)
    requires OnceOk(s) && Enabled(s, a)
    ensures OnceOk(Do(s, a))
  {
    hide OnceOk, Finish;
    match a {
      case Queue(_) => QueueOnce(s, a);
      case Wrote(_) => QueueOnce(s, a);
      case WriteFailed(_) => QueueOnce(s, a);
      case Frame(uuid, state) =>
        if uuid != "" && state == "started" {
          StartOnce(s, uuid);
        } else if Ends(s.turns, uuid, state).Some? {
          FinishOnce(s, Ends(s.turns, uuid, state).value);
        }
      case Grace(_) => if s.turns != [] { FinishOnce(s, 0); }
      case Die => DieOnce(s);
    }
  }

  lemma QueueOnce(s: State, a: Action)
    requires OnceOk(s) && Enabled(s, a) && (a.Queue? || a.Wrote? || a.WriteFailed?)
    ensures OnceOk(Do(s, a))
  {}

  lemma StepAccounts(s: State, a: Action)
    requires OnceOk(s) && AccountedFor(s) && Enabled(s, a)
    ensures AccountedFor(Do(s, a))
  {
    hide OnceOk, Finish, AccountedFor;
    match a {
      case Queue(_) => SendAccounts(s, a);
      case Wrote(_) => SendAccounts(s, a);
      case WriteFailed(_) => SendAccounts(s, a);
      case Frame(uuid, state) =>
        if uuid != "" && state == "started" {
          StartAccounts(s, uuid);
        } else if Ends(s.turns, uuid, state).Some? {
          FinishAccounts(s, Ends(s.turns, uuid, state).value);
        }
      case Grace(_) => if s.turns != [] { FinishAccounts(s, 0); }
      case Die => DieAccounts(s);
    }
  }

  lemma StartAccounts(s: State, uuid: string)
    requires AccountedFor(s)
    ensures AccountedFor(Do(s, Frame(uuid, "started")))
  {
    StartedSame(s.turns, uuid, s.next);
  }

  lemma DieAccounts(s: State)
    requires AccountedFor(s)
    ensures AccountedFor(Do(s.(dead := false), Die))
  {
    DueAll(s.turns);
  }

  lemma SendAccounts(s: State, a: Action)
    requires OnceOk(s) && AccountedFor(s) && Enabled(s, a) && (a.Queue? || a.Wrote? || a.WriteFailed?)
    ensures AccountedFor(Do(s, a))
  {
    var t := Do(s, a);
    forall n | n in t.writing || n in t.written ensures Queued(t.turns, n) || n in t.finished || n in t.taken {
      if a.Queue? {
        if n == s.next {
          assert t.turns[|s.turns|].n == n;
        } else if n !in s.finished {
          QueuedLast(t.turns, n);
          assert t.turns[..|s.turns|] == s.turns;
        }
      } else if a.WriteFailed? && n !in s.finished {
        QueuedLast(s.turns, n);
      }
    }
    assert a.Queue? ==> s.next !in s.written;
  }

  // ------------------------------------------------------------- whole runs

  ghost predicate Run(states: seq<State>, actions: seq<Action>)
  {
    && |states| == |actions| + 1 && states[0] == START
    && forall k :: 0 <= k < |actions| ==> Enabled(states[k], actions[k]) && states[k + 1] == Do(states[k], actions[k])
  }

  /** What every state of a run has: the books of the queue, and a dead process's written sends answered for or taken. */
  ghost predicate Inv(s: State)
  {
    && OnceOk(s) && AccountedFor(s)
    && (s.dead ==> forall n :: n in s.written ==> n in s.finished || n in s.taken)
  }

  lemma StepKeeps(s: State, a: Action)
    requires Inv(s) && Enabled(s, a)
    ensures Inv(Do(s, a))
  {
    hide OnceOk, AccountedFor, Finish;
    StepOnce(s, a);
    EndsStay(s, a);
    StepAccounts(s, a);
    if a.Die? { NothingQueued(Do(s, a)); }
  }

  lemma NothingQueued(s: State)
    requires AccountedFor(s) && s.turns == []
    ensures forall n :: n in s.written ==> n in s.finished || n in s.taken
  {}

  lemma EndsStay(s: State, a: Action)
    requires Enabled(s, a)
    ensures s.finished <= Do(s, a).finished && forall n :: n in s.finished ==> n in Do(s, a).finished
    ensures forall n :: n in Do(s, a).taken <==> n in s.taken || Takes(s, a, n)
    ensures Do(s, a).dead ==> a.Die? || (s.dead && Do(s, a).written == s.written)
  {
    assert Do(s, a).finished[..|s.finished|] == s.finished;
  }

  /** A failed write's rollback takes a request that is not its own. */
  ghost predicate Takes(s: State, a: Action, n: nat)
  {
    a.WriteFailed? && OwnLast(s.turns, n) && a.n != n
  }

  lemma {:induction false} RunKeeps(states: seq<State>, actions: seq<Action>, k: nat)
    requires Run(states, actions) && k < |states|
    ensures Inv(states[k])
  {
    hide Do, Enabled, Inv;
    if k == 0 {
      assert Inv(START) by { StartInv(); }
    } else {
      RunKeeps(states, actions, k - 1);
      StepKeeps(states[k - 1], actions[k - 1]);
    }
  }

  lemma StartInv()
    ensures Inv(START)
  {}

  lemma {:induction false} TakenIs(states: seq<State>, actions: seq<Action>, k: nat, n: nat)
    requires Run(states, actions) && k < |states|
    ensures n in states[k].taken <==> exists j :: 0 <= j < k && Takes(states[j], actions[j], n)
  {
    hide Do, Enabled, Takes;
    if k > 0 {
      TakenIs(states, actions, k - 1, n);
      EndsStay(states[k - 1], actions[k - 1]);
    }
  }

  /**
   No request is ever finished twice. A send whose write has not failed is queued
   or finished if and only if no rollback of another send took it, and is not
   both; so once the process has died, a written one was finished, exactly once,
   if and only if none did.
   */
  lemma ExactlyOnce(states: seq<State>, actions: seq<Action>, k: nat, n: nat)
    requires Run(states, actions) && k < |states|
    ensures NoTwice(states[k].finished) && !(Queued(states[k].turns, n) && n in states[k].finished)
    ensures n in states[k].writing || n in states[k].written ==>
              (Queued(states[k].turns, n) || n in states[k].finished <==>
               !exists j :: 0 <= j < k && Takes(states[j], actions[j], n))
    ensures states[k].dead && n in states[k].written ==>
              (n in states[k].finished <==> !exists j :: 0 <= j < k && Takes(states[j], actions[j], n))
  {
    hide Do, Enabled, Takes;
    RunKeeps(states, actions, k);
    TakenIs(states, actions, k, n);
  }

  lemma StartedIsNoEnd()
    ensures !IsTerminal("started")
  {}

  /** A frame finishes only a request it names: the first with its uuid, not Claude's own, and only when it tells an end. */
  lemma FinishedByName(s: State, uuid: string, state: string)
    requires OnceOk(s)
    ensures var t := Do(s, Frame(uuid, state));
            && s.finished <= t.finished
            && (forall n :: n in t.finished && n !in s.finished ==>
                  uuid != "" && Over(state) && exists i: nat :: FirstOf(s.turns, i, uuid) && s.turns[i].n == n && !s.turns[i].foreign)
            && (forall i: nat :: uuid != "" && Over(state) && FirstOf(s.turns, i, uuid) && !s.turns[i].foreign ==>
                  t.finished == s.finished + [s.turns[i].n] && t.turns == s.turns[..i] + s.turns[i + 1..])
            && (state != "started" ==> Others(t.turns, uuid) == Others(s.turns, uuid))
  {
    hide Others, Start, Over, FirstOf, IsTerminal;
    OverIs(state);
    StartedIsNoEnd();
    if uuid == "" || state != "started" {
      EndsFirst(s.turns, uuid, state);
    }
    PlaceFirst(s.turns, uuid);
  }

  /** An interrupt's grace over, its request is dropped if it is still the head, and finished unless it is Claude's own; else nothing changes. */
  lemma GraceIs(s: State, head: nat)
    ensures var t := Do(s, Grace(head));
            if s.turns != [] && s.turns[0].n == head then
              t.turns == s.turns[1..] && t.finished == s.finished + if s.turns[0].foreign then [] else [head]
            else t == s
  {}

  /** A death empties the queue and finishes all it held but Claude's own, each where it stood, after what was finished before. */
  lemma DeathIs(s: State)
    requires !s.dead
    ensures var t := Do(s, Die);
            && t.dead && t.turns == [] && s.finished <= t.finished
            && (forall n :: n in t.finished[|s.finished|..] <==> Queued(s.turns, n))
            && (forall i :: 0 <= i < |s.turns| && !s.turns[i].foreign ==>
                  t.finished[|s.finished|..] == Due(s.turns[..i]) + [s.turns[i].n] + Due(s.turns[i + 1..]))
  {
    hide Due, Queued;
    assert Do(s, Die).finished[|s.finished|..] == Due(s.turns);
    DueAll(s.turns);
    forall i | 0 <= i < |s.turns| && !s.turns[i].foreign
      ensures Due(s.turns) == Due(s.turns[..i]) + [s.turns[i].n] + Due(s.turns[i + 1..])
    {
      assert s.turns == s.turns[..i] + [s.turns[i]] + s.turns[i + 1..];
      DueSplit(s.turns[..i], s.turns[i], s.turns[i + 1..]);
    }
  }

  lemma {:induction false} DueSplit(a: seq<Request>, r: Request, b: seq<Request>)
    ensures Due(a + [r] + b) == Due(a) + (if r.foreign then [] else [r.n]) + Due(b)
    decreases |b|
  {
    hide Due;
    var all := a + [r] + b;
    DueLast(all);
    DueLast(b);
    if b == [] {
      assert all[..|a|] == a && all[|a|] == r;
    } else {
      assert all[..|all| - 1] == a + [r] + b[..|b| - 1];
      DueSplit(a, r, b[..|b| - 1]);
    }
  }

  /**
   A rollback leaves every other send queued if and only if it takes its own
   request or one of Claude's own; when it does not take its own, the refused
   request stays queued.
   */
  lemma RollbackExact(s: State, n: nat)
    requires OnceOk(s) && Enabled(s, WriteFailed(n))
    ensures var t := Do(s, WriteFailed(n));
            && (OwnLast(s.turns, n) || s.turns[|s.turns| - 1].foreign <==> forall m :: m != n && Queued(s.turns, m) ==> Queued(t.turns, m))
            && (Queued(s.turns, n) ==> (Queued(t.turns, n) <==> !OwnLast(s.turns, n)))
  {
    hide OnceOk, Queued;
    var k := |s.turns| - 1;
    var last := s.turns[k];
    forall m ensures Queued(s.turns, m) <==> Queued(s.turns[..k], m) || (m == last.n && !last.foreign) {
      QueuedLast(s.turns, m);
    }
    LastOnce(s);
  }

  lemma LastOnce(s: State)
    requires OnceOk(s) && s.turns != []
    ensures var k := |s.turns| - 1; !Queued(s.turns[..k], s.turns[k].n)
  {}

  /**
   Two sends at once: the first one's write fails after the second has queued, so
   the rollback takes the second; its write succeeds, and not even the process's
   death finishes it.
   */
  lemma LostReply() returns (states: seq<State>, actions: seq<Action>)
    ensures Run(states, actions) && states[|actions|].dead
    ensures 1 in states[|actions|].written && 1 !in states[|actions|].finished && states[|actions|].turns == []
    ensures forall k :: 0 <= k < |actions| ==> actions[k] in [Queue("a"), Queue("b"), WriteFailed(0), Wrote(1), Die]
  {
    actions := [Queue("a"), Queue("b"), WriteFailed(0), Wrote(1), Die];
    var s1 := Do(START, actions[0]);
    var s2 := Do(s1, actions[1]);
    assert s2.turns == [Request(0, "a", false, false), Request(1, "b", false, false)];
    var s3 := Do(s2, actions[2]);
    assert s3.turns == [Request(0, "a", false, false)];
    var s4 := Do(s3, actions[3]);
    var s5 := Do(s4, actions[4]);
    assert Due(s4.turns[..0]) == [] && Due(s4.turns) == [0];
    states := [START, s1, s2, s3, s4, s5];
  }

  /** A process that dies between a send's queueing and its failed write leaves the rollback nothing to take. */
  lemma RollbackOfNothing()
    ensures var s := Do(Do(START, Queue("a")), Die); 0 in s.writing && s.turns == [] && !Enabled(s, WriteFailed(0))
  {}

  // -------------------------------------------------------- started in order

  /** Claude starts a request only once all ahead of it have started; its own commands it starts when it likes. */
  ghost predicate StartsInOrder(s: State, a: Action)
  {
    a.Frame? && a.uuid != "" && a.state == "started" ==> Place(s.turns, a.uuid) == |s.turns| || Place(s.turns, a.uuid) <= Running(s.turns)
  }

  /** One step keeps the started requests a prefix, a start exactly when it is in order. */
  lemma StepStarted(s: State, a: Action)
    requires Enabled(s, a) && StartedFirst(s.turns)
    ensures StartedFirst(Do(s, a).turns) <==> StartsInOrder(s, a)
  {
    hide StartedFirst, Place, Running, Start;
    NoneStarted();
    match a {
      case Queue(uuid) => EndKeepsPrefix(s.turns, 0, Request(s.next, uuid, false, false));
      case Wrote(_) =>
      case WriteFailed(_) =>
        var k := |s.turns| - 1;
        EndKeepsPrefix(s.turns, k, Request(0, "", false, false));
        assert Without(s.turns, k) == s.turns[..k];
      case Frame(uuid, state) =>
        if state == "started" {
          StartKeepsPrefix(s.turns, uuid, s.next);
        } else if Ends(s.turns, uuid, state).Some? {
          EndKeepsPrefix(s.turns, Ends(s.turns, uuid, state).value, Request(0, "", false, false));
        }
      case Grace(_) => EndKeepsPrefix(s.turns, 0, Request(0, "", false, false));
      case Die =>
    }
  }

  lemma NoneStarted()
    ensures StartedFirst([])
  {}

  /**
   Over every run in which Claude starts requests in queue order, the started ones
   are a prefix of the queue in every state, whatever foreign turns come between;
   the first start out of order breaks it.
   */
  lemma {:induction false} StartedPrefix(states: seq<State>, actions: seq<Action>, k: nat)
    requires Run(states, actions) && k < |states|
    requires forall j :: 0 <= j < k - 1 ==> StartsInOrder(states[j], actions[j])
    ensures k > 0 ==> StartedFirst(states[k - 1].turns)
    ensures StartedFirst(states[k].turns) <==> k == 0 || StartsInOrder(states[k - 1], actions[k - 1])
  {
    hide Do, Enabled, StartedFirst, StartsInOrder;
    if k == 0 {
      NoneStarted();
    } else {
      StartedPrefix(states, actions, k - 1);
      StepStarted(states[k - 1], actions[k - 1]);
    }
  }
}
