/**
 What the router keeps per session to serialize its sends, as a value, and what
 each critical section makes of it. `Router` runs these on its maps; `SendRuns`
 interleaves them.
 */
module SendQueue {
  import opened Options
  import Decimal

  const MAX_QUEUED := 32

  /** A send waiting behind the running turn: its number in the router's sequence, and its text. */
  datatype Pending = Pending(n: nat, text: string, typed: bool)

  /** The running send's token, the sends behind it, and the log size already accounted for. */
  datatype Session = Session(active: Option<nat>, queue: seq<Pending>, base: Option<nat>)

  const IDLE := Session(None, [], None)

  datatype Outcome = Running | Queued | QueueFull

  /** `enqueueSend`: run now on an idle session, else wait in line. */
  function Admit(s: Session): Outcome
  {
    if s.active.None? && s.queue == [] then Running
    else if |s.queue| >= MAX_QUEUED then QueueFull
    else Queued
  }

  function Enqueue(s: Session, p: Pending, tok: nat): Session
  {
    match Admit(s)
    case Running => s.(active := Some(tok))
    case Queued => s.(queue := s.queue + [p])
    case QueueFull => s
  }

  /** `bumpForeignBaseLocked`: the log's size, when it can be told. */
  function Bump(s: Session, size: Option<nat>): Session
  {
    if size.Some? then s.(base := size) else s
  }

  /** `markSendIdle` */
  function MarkIdle(s: Session, tok: nat, size: Option<nat>): Session
  {
    if s.active.Some? && s.active.value != tok then s else Bump(s.(active := None), size)
  }

  /** `releaseSend` before it promotes. */
  function Settle(s: Session, tok: nat, size: Option<nat>): Session
  {
    Bump(if s.active == Some(tok) then s.(active := None) else s, size)
  }

  predicate Promotes(s: Session)
  {
    s.active.None? && s.queue != []
  }

  /** `releaseSend`'s critical section: settle, then promote the oldest queued send. */
  function Release(s: Session, tok: nat, size: Option<nat>, next: nat): Session
  {
    var r := Settle(s, tok, size);
    if Promotes(r) then r.(active := Some(next), queue := r.queue[1..]) else r
  }

  /** The place of a queued send, by the id it was given; the length when it is not queued. */
  function Place(queue: seq<Pending>, qid: string): (i: nat)
    ensures i <= |queue|
    ensures i < |queue| ==> Decimal.Format(queue[i].n) == qid
    ensures forall j :: 0 <= j < i ==> Decimal.Format(queue[j].n) != qid
  {
    if queue == [] || Decimal.Format(queue[0].n) == qid then 0 else 1 + Place(queue[1..], qid)
  }

  /** `RetractSend` */
  function Retract(s: Session, i: nat): Session
    requires i < |s.queue|
  {
    s.(queue := s.queue[..i] + s.queue[i + 1..])
  }

  /** The watcher's first look, at a size it read before: the first sight of a log takes it as told. */
  function Look(s: Session, size: nat): Session
  {
    if s.base.None? then s.(base := Some(size)) else s
  }

  /** Whether a look goes on to read the log. */
  predicate Grew(s: Session, size: nat)
  {
    s.base.Some? && s.active.None? && s.queue == [] && s.base.value < size
  }

  /** Whether the second look still finds what the first one did; a missing baseline reads as 0. */
  predicate Undisturbed(s: Session, base: nat)
  {
    s.active.None? && base == if s.base.Some? then s.base.value else 0
  }

  /** Numbered in order, none past the last number given. */
  ghost predicate Numbered(queue: seq<Pending>, last: nat)
  {
    && (forall i, j :: 0 <= i < j < |queue| ==> queue[i].n < queue[j].n)
    && (forall i :: 0 <= i < |queue| ==> queue[i].n <= last)
  }

  lemma RetractNumbered(queue: seq<Pending>, last: nat, i: nat)
    requires Numbered(queue, last) && i < |queue|
    ensures Numbered(queue[..i] + queue[i + 1..], last) && Numbered(queue[1..], last)
  {
    var r := queue[..i] + queue[i + 1..];
    assert forall j :: 0 <= j < |r| ==> r[j] == queue[if j < i then j else j + 1];
  }

  lemma NumberedGrows(queue: seq<Pending>, last: nat, more: nat, p: Pending)
    requires Numbered(queue, last) && p.n == last + more
    ensures Numbered(queue, last + more) && Numbered([], last) && (more > 0 ==> Numbered(queue + [p], last + more))
  {}

  lemma EmptyNumbered(last: nat)
    ensures Numbered([], last)
  {}

  /** The sends an id does not name, in order. */
  function Unnamed(queue: seq<Pending>, qid: string): seq<Pending>
  {
    if queue == [] then []
    else
      var k := |queue| - 1;
      Unnamed(queue[..k], qid) + if Decimal.Format(queue[k].n) == qid then [] else [queue[k]]
  }

  lemma {:induction false} UnnamedConcat(a: seq<Pending>, b: seq<Pending>, qid: string)
    ensures Unnamed(a + b, qid) == Unnamed(a, qid) + Unnamed(b, qid)
    decreases |b|
  {
    if b == [] {
      assert a + b == a;
    } else {
      assert (a + b)[..|a + b| - 1] == a + b[..|b| - 1];
      UnnamedConcat(a, b[..|b| - 1], qid);
    }
  }

  lemma {:induction false} NoneNamed(queue: seq<Pending>, qid: string)
    requires forall i :: 0 <= i < |queue| ==> Decimal.Format(queue[i].n) != qid
    ensures Unnamed(queue, qid) == queue
  {
    if queue != [] {
      var k := |queue| - 1;
      NoneNamed(queue[..k], qid);
      assert queue[..k] + [queue[k]] == queue;
    }
  }

  lemma OneNamed(p: Pending, qid: string)
    requires Decimal.Format(p.n) == qid
    ensures Unnamed([p], qid) == []
  {
    assert [p][..0] == [];
  }

  /** Retracting by id leaves exactly the sends the id does not name, in order. */
  lemma RetractLeaves(s: Session, qid: string, last: nat)
    requires Numbered(s.queue, last)
    ensures var i := Place(s.queue, qid);
            && (i == |s.queue| ==> Unnamed(s.queue, qid) == s.queue)
            && (i < |s.queue| ==> Retract(s, i) == s.(queue := Unnamed(s.queue, qid)) && Decimal.Format(s.queue[i].n) == qid)
  {
    hide Unnamed, Place;
    var queue, i := s.queue, Place(s.queue, qid);
    if i == |queue| {
      NoneNamed(queue, qid);
    } else {
      var head, tail := queue[..i], queue[i + 1..];
      forall j | i < j < |queue| ensures Decimal.Format(queue[j].n) != qid {
        Decimal.ValueOfFormat(queue[i].n);
        Decimal.ValueOfFormat(queue[j].n);
      }
      NoneNamed(head, qid);
      NoneNamed(tail, qid);
      OneNamed(queue[i], qid);
      UnnamedConcat(head, [queue[i]], qid);
      UnnamedConcat(head + [queue[i]], tail, qid);
      assert queue == head + [queue[i]] + tail && head + [] == head;
    }
  }

  /** Queued sends are numbered in order, so an id names at most one. */
  lemma PlaceUnique(queue: seq<Pending>, i: nat)
    requires i < |queue| && forall j, k :: 0 <= j < k < |queue| ==> queue[j].n < queue[k].n
    ensures Place(queue, Decimal.Format(queue[i].n)) == i
  {
    var j := Place(queue, Decimal.Format(queue[i].n));
    Decimal.ValueOfFormat(queue[i].n);
    Decimal.ValueOfFormat(queue[j].n);
  }
}

/** The router's maps. Each method is one critical section under its lock, or a run of them. */
module Router {
  import opened Options
  import opened SendQueue

  datatype SendError = NoSession | ReadOnly | NotWritable | Full

  class Router {
    var activeSend: map<string, nat>
    var sendQueue: map<string, seq<Pending>>
    var queueSeq: nat
    var foreignBase: map<string, nat>
    /** Tokens are handed out in turn: each send's handle is new. */
    var tokens: nat

    constructor ()
      ensures Valid() && queueSeq == 0 && forall id :: View(id) == IDLE
    {
      activeSend, sendQueue, queueSeq, foreignBase, tokens := map[], map[], 0, map[], 0;
    }

    /** A queue that empties is removed, and a session's id is its key. */
    ghost predicate Valid()
      reads this
    {
      && (forall id :: id in sendQueue ==> sendQueue[id] != [])
      && (forall id :: id in activeSend ==> activeSend[id] < tokens)
      && (forall id :: id in sendQueue ==> Numbered(sendQueue[id], queueSeq))
    }

    ghost function View(id: string): Session
      reads this
    {
      Session(if id in activeSend then Some(activeSend[id]) else None,
              Queue(id),
              if id in foreignBase then Some(foreignBase[id]) else None)
    }

    function Queue(id: string): seq<Pending>
      reads this
    {
      if id in sendQueue then sendQueue[id] else []
    }

    /** Nothing but one session changed. */
    twostate predicate Only(id: string)
      reads this
    {
      forall other :: other != id ==> View(other) == old(View(other))
    }

    method SetQueue(id: string, q: seq<Pending>)
      modifies this`sendQueue
      ensures sendQueue == if q == [] then old(sendQueue) - {id} else old(sendQueue)[id := q]
    {
      sendQueue := if q == [] then sendQueue - {id} else sendQueue[id := q];
    }

    /** `enqueueSend`, with the answer of the checks it makes before it takes the lock. */
    method EnqueueSend(id: string, text: string, typed: bool, refused: Option<SendError>)
      returns (r: Result<Option<nat>>)
      requires Valid()
      modifies this
      ensures Valid() && Only(id)
      ensures refused.Some? ==> r == Refused(refused.value) && View(id) == old(View(id)) && queueSeq == old(queueSeq)
      ensures refused.None? ==>
                var outcome := Admit(old(View(id)));
                && View(id) == Enqueue(old(View(id)), Pending(old(queueSeq) + 1, text, typed), old(tokens))
                && queueSeq == old(queueSeq) + (if outcome == Queued then 1 else 0)
                && r == (match outcome case Running => Accepted(Some(old(tokens))) case Queued => Accepted(None) case QueueFull => Refused(Full))
    {
      hide Numbered;
      EmptyNumbered(queueSeq);
      forall other | other in sendQueue ensures Numbered(sendQueue[other], queueSeq + 1) {
        NumberedGrows(sendQueue[other], queueSeq, 1, Pending(queueSeq + 1, text, typed));
      }
      NumberedGrows(Queue(id), queueSeq, 1, Pending(queueSeq + 1, text, typed));
      if refused.Some? {
        return Refused(refused.value);
      }
      if id in activeSend || |Queue(id)| > 0 {
        if |Queue(id)| >= MAX_QUEUED {
          return Refused(Full);
        }
        queueSeq := queueSeq + 1;
        SetQueue(id, Queue(id) + [Pending(queueSeq, text, typed)]);
        return Accepted(None);
      }
      activeSend := activeSend[id := tokens];
      r := Accepted(Some(tokens));
      tokens := tokens + 1;
    }

    /** `RetractSend`: the text of the send it dropped. */
    method RetractSend(id: string, qid: string) returns (text: Option<string>)
      requires Valid()
      modifies this`sendQueue
      ensures Valid() && Only(id)
      ensures var q := old(Queue(id)); var i := Place(q, qid);
              if i == |q| then text == None && View(id) == old(View(id))
              else text == Some(q[i].text) && View(id) == Retract(old(View(id)), i)
      ensures Queue(id) == Unnamed(old(Queue(id)), qid)
    {
      hide Unnamed, Place, Numbered;
      var q := Queue(id);
      var i := Place(q, qid);
      EmptyNumbered(queueSeq);
      RetractLeaves(View(id), qid, queueSeq);
      if i == |q| {
        return None;
      }
      RetractNumbered(q, queueSeq, i);
      SetQueue(id, q[..i] + q[i + 1..]);
      return Some(q[i].text);
    }

    /** `markSendIdle` */
    method MarkSendIdle(id: string, tok: nat, size: Option<nat>)
      requires Valid()
      modifies this`activeSend, this`foreignBase
      ensures Valid() && Only(id) && View(id) == MarkIdle(old(View(id)), tok, size)
    {
      if id in activeSend && activeSend[id] != tok {
        return;
      }
      activeSend := activeSend - {id};
      BumpForeignBase(id, size);
    }

    method BumpForeignBase(id: string, size: Option<nat>)
      modifies this`foreignBase
      ensures foreignBase == if size.Some? then old(foreignBase)[id := size.value] else old(foreignBase)
    {
      if size.Some? {
        foreignBase := foreignBase[id := size.value];
      }
    }

    /** `flushSendQueue`: the sends it dropped, oldest first. */
    method FlushSendQueue(id: string) returns (dropped: seq<Pending>)
      requires Valid()
      modifies this`sendQueue
      ensures Valid() && Only(id) && dropped == old(Queue(id)) && View(id) == old(View(id)).(queue := [])
    {
      dropped := Queue(id);
      sendQueue := sendQueue - {id};
    }

    /** `CancelSend`; `running` is whether the session's worker is on a turn. */
    method CancelSend(id: string, running: bool) returns (done: Cancelled)
      requires Valid()
      modifies this`sendQueue
      ensures Valid() && Only(id)
      ensures done == if old(View(id)).active.Some? then Stopped(Typed(old(Queue(id)))) else if running then OwnTurn else NoActiveSend
      ensures View(id) == if done.Stopped? then old(View(id)).(queue := []) else old(View(id))
    {
      if id !in activeSend {
        return if running then OwnTurn else NoActiveSend;
      }
      var typed := [];
      var dropped := FlushSendQueue(id);
      for i := 0 to |dropped|
        invariant typed == Typed(dropped[..i])
      {
        assert dropped[..i + 1][..i] == dropped[..i];
        if dropped[i].typed {
          typed := typed + [dropped[i].text];
        }
      }
      assert dropped[..|dropped|] == dropped;
      return Stopped(typed);
    }

    /** `releaseSend`'s critical section up to where it promotes. */
    method SettleSend(id: string, tok: nat, size: Option<nat>)
      requires Valid()
      modifies this`activeSend, this`foreignBase
      ensures Valid() && Only(id) && View(id) == Settle(old(View(id)), tok, size)
    {
      if id in activeSend && activeSend[id] == tok {
        activeSend := activeSend - {id};
      }
      BumpForeignBase(id, size);
    }

    /** `releaseSend`'s critical section: the send it promoted, with its token. */
    method Promote(id: string, tok: nat, size: Option<nat>) returns (next: Option<(Pending, nat)>)
      requires Valid()
      modifies this`activeSend, this`sendQueue, this`foreignBase, this`tokens
      ensures Valid() && Only(id) && View(id) == Release(old(View(id)), tok, size, old(tokens))
      ensures next == if Promotes(Settle(old(View(id)), tok, size)) then Some((old(Queue(id))[0], old(tokens))) else None
    {
      SettleSend(id, tok, size);
      var q := Queue(id);
      if id in activeSend || q == [] {
        return None;
      }
      SetQueue(id, q[1..]);
      activeSend := activeSend[id := tokens];
      next := Some((q[0], tokens));
      tokens := tokens + 1;
    }

    /**
     `releaseSend`, with nothing in between its critical sections: when the
     session is gone by the time a send is promoted, that send is aborted and its
     token released in turn, until the queue is empty.
     */
    method ReleaseSend(id: string, tok: nat, size: Option<nat>, gone: bool) returns (aborted: seq<Pending>, started: Option<Pending>)
      requires Valid()
      modifies this`activeSend, this`sendQueue, this`foreignBase, this`tokens
      ensures Valid() && Only(id)
      ensures !gone ==> View(id) == Release(old(View(id)), tok, size, old(tokens)) && aborted == []
      ensures !gone ==> started == (if Promotes(Settle(old(View(id)), tok, size)) then Some(old(Queue(id))[0]) else None)
      ensures gone ==> started == None && View(id) == Drained(old(View(id)), tok, size)
      ensures gone ==> aborted == (if Promotes(Settle(old(View(id)), tok, size)) then old(Queue(id)) else [])
      decreases |Queue(id)|
    {
      var next := Promote(id, tok, size);
      if next.None? {
        return [], None;
      }
      if gone {
        var rest, none := ReleaseSend(id, next.value.1, size, gone);
        return [next.value.0] + rest, None;
      }
      return [], Some(next.value.0);
    }

    /** What is left of a session that was gone: no queue, unless another send still runs ahead of it. */
    static function Drained(s: Session, tok: nat, size: Option<nat>): Session
    {
      var r := Settle(s, tok, size);
      if Promotes(r) then r.(queue := []) else r
    }

    /** The first critical section of `checkForeignTurn`: the baseline to read from, when there is reason to read. */
    method LookForeign(id: string, size: nat) returns (from: Option<nat>)
      requires Valid()
      modifies this`foreignBase
      ensures Valid() && Only(id) && View(id) == Look(old(View(id)), size)
      ensures from == if Grew(old(View(id)), size) then old(View(id)).base else None
    {
      var busy, queued, seen := id in activeSend, |Queue(id)| > 0, id in foreignBase;
      if !seen {
        foreignBase := foreignBase[id := size];
      }
      if !seen || busy || queued || size <= foreignBase[id] {
        return None;
      }
      return Some(foreignBase[id]);
    }

    /** The second one: commit to relaying, unless something happened meanwhile. */
    method CommitForeign(id: string, base: nat, size: nat) returns (relay: bool)
      requires Valid()
      modifies this`foreignBase
      ensures Valid() && Only(id)
      ensures relay == Undisturbed(old(View(id)), base)
      ensures View(id) == if relay then old(View(id)).(base := Some(size)) else old(View(id))
    {
      if id in activeSend || (if id in foreignBase then foreignBase[id] else 0) != base {
        return false;
      }
      foreignBase := foreignBase[id := size];
      return true;
    }
  }

  /** A cancel with a send running, of a worker on a turn of its own, or of nothing. */
  datatype Cancelled = Stopped(typed: seq<string>) | OwnTurn | NoActiveSend

  datatype Result<T> = Accepted(value: T) | Refused(error: SendError)

  function Typed(sends: seq<Pending>): seq<string>
  {
    if sends == [] then []
    else Typed(sends[..|sends| - 1]) + (if sends[|sends| - 1].typed then [sends[|sends| - 1].text] else [])
  }

  /** The typed ones' texts, each where it stood. */
  lemma {:induction false} TypedSplit(a: seq<Pending>, p: Pending, b: seq<Pending>)
    ensures Typed([]) == [] && Typed(a + [p] + b) == Typed(a) + (if p.typed then [p.text] else []) + Typed(b)
    decreases |b|
  {
    var all := a + [p] + b;
    if b == [] {
      assert all[..|a|] == a && all[|a|] == p;
    } else {
      var k := |b| - 1;
      assert all[..|all| - 1] == a + [p] + b[..k];
      TypedSplit(a, p, b[..k]);
    }
  }
}
