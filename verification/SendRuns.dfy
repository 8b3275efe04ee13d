/**
 What becomes of a session's accepted sends. Send m is the m-th one accepted;
 the line holds those behind the queue's entries, `order` those given a token,
 in that order, and `holds` the send of each token whose turn has not begun.
 */
module SendHistory {

  /** Taken: its token is registered, its turn has not begun. */
  datatype Fate = Waiting | Taken | Started | Dropped

  datatype History = History(fates: seq<Fate>, line: seq<nat>, order: seq<nat>, holds: map<nat, nat>)

  /** A send accepted and registered at once. */
  ghost function Admit(h: History, tok: nat): History
  {
    History(h.fates + [Taken], h.line, h.order + [|h.fates|], h.holds[tok := |h.fates|])
  }

  /** A send accepted into the line. */
  ghost function Join(h: History): History
  {
    h.(fates := h.fates + [Waiting], line := h.line + [|h.fates|])
  }

  ghost function Mark(h: History, m: nat, f: Fate): (r: History)
    ensures r.line == h.line && r.order == h.order && r.holds == h.holds && |r.fates| == |h.fates|
  {
    if m < |h.fates| then h.(fates := h.fates[m := f]) else h
  }

  ghost function DropAt(h: History, i: nat): History
  {
    if i < |h.line| then Mark(h, h.line[i], Dropped).(line := h.line[..i] + h.line[i + 1..]) else h
  }

  ghost function DropLine(h: History): History
  {
    h.(fates := seq(|h.fates|, m requires 0 <= m < |h.fates| => if m in h.line then Dropped else h.fates[m]), line := [])
  }

  /** The head of the line gets a token. */
  ghost function Take(h: History, tok: nat): History
  {
    if h.line == [] then h
    else Mark(h, h.line[0], Taken).(line := h.line[1..], order := h.order + [h.line[0]], holds := h.holds[tok := h.line[0]])
  }

  /** A held token's turn begins, or its send is dropped. */
  ghost function Resolve(h: History, tok: nat, f: Fate): History
    requires tok in h.holds
  {
    Mark(h, h.holds[tok], f).(holds := h.holds - {tok})
  }

  ghost predicate Increasing(s: seq<nat>)
  {
    forall i, j :: 0 <= i < j < |s| ==> s[i] < s[j]
  }

  /** The line is exactly the waiting sends, in order of acceptance. */
  ghost predicate LineOk(h: History)
  {
    && Increasing(h.line)
    && (forall i :: 0 <= i < |h.line| ==> h.line[i] < |h.fates| && h.fates[h.line[i]] == Waiting)
    && (forall m :: 0 <= m < |h.fates| && h.fates[m] == Waiting ==> m in h.line)
  }

  /** Tokens went out in order of acceptance, ahead of all that still waits, and to every send taken or started. */
  ghost predicate OrderOk(h: History)
  {
    && Increasing(h.order)
    && (forall i :: 0 <= i < |h.order| ==> h.order[i] < |h.fates| && h.fates[h.order[i]] != Waiting)
    && (forall m :: 0 <= m < |h.fates| && (h.fates[m] == Taken || h.fates[m] == Started) ==> m in h.order)
    && (forall i, j :: 0 <= i < |h.order| && 0 <= j < |h.line| ==> h.order[i] < h.line[j])
  }

  /** A token still to begin holds the one send it was given, and a taken send is held. */
  ghost predicate HoldsOk(h: History)
  {
    && (forall t :: t in h.holds ==> h.holds[t] < |h.fates| && h.fates[h.holds[t]] == Taken)
    && (forall t, u :: t in h.holds && u in h.holds && h.holds[t] == h.holds[u] ==> t == u)
    && (forall m :: 0 <= m < |h.fates| && h.fates[m] == Taken ==> Held(h, m))
  }

  ghost predicate Held(h: History, m: nat)
  {
    exists t :: t in h.holds && h.holds[t] == m
  }

  ghost predicate Ok(h: History)
  {
    LineOk(h) && OrderOk(h) && HoldsOk(h)
  }

  lemma AdmitKeeps(h: History, tok: nat)
    requires Ok(h) && h.line == [] && tok !in h.holds
    ensures Ok(Admit(h, tok))
  {
    var t, n := Admit(h, tok), |h.fates|;
    assert t.order[|h.order|] == n;
    forall m | 0 <= m < |t.fates| && t.fates[m] == Taken ensures Held(t, m) {
      if m < n {
        assert Held(h, m);
        var u :| u in h.holds && h.holds[u] == m;
        assert u in t.holds && t.holds[u] == m;
      } else {
        assert tok in t.holds && t.holds[tok] == m;
      }
    }
  }

  lemma JoinKeeps(h: History)
    requires Ok(h)
    ensures Ok(Join(h))
  {
    var t := Join(h);
    assert t.line[|h.line|] == |h.fates|;
    assert forall m :: Held(h, m) ==> Held(t, m);
  }

  lemma Removed(s: seq<nat>, i: nat)
    requires Increasing(s) && i < |s|
    ensures var r := s[..i] + s[i + 1..]; Increasing(r) && forall v :: v in r <==> v in s && v != s[i]
  {
    var r := s[..i] + s[i + 1..];
    assert forall j :: 0 <= j < |r| ==> r[j] == s[if j < i then j else j + 1];
    forall v | v in s && v != s[i] ensures v in r {
      var j :| 0 <= j < |s| && s[j] == v;
      assert r[if j < i then j else j - 1] == v;
    }
  }

  lemma DropAtLine(h: History, i: nat)
    requires LineOk(h) && i < |h.line|
    ensures LineOk(DropAt(h, i))
  {
    var t := DropAt(h, i);
    Removed(h.line, i);
    assert forall j :: 0 <= j < |t.line| ==> t.line[j] in t.line;
  }

  lemma DropAtOrder(h: History, i: nat)
    requires LineOk(h) && OrderOk(h) && i < |h.line|
    ensures OrderOk(DropAt(h, i))
  {
    var t := DropAt(h, i);
    Removed(h.line, i);
    assert forall j :: 0 <= j < |t.line| ==> t.line[j] in t.line;
  }

  lemma DropAtKeeps(h: History, i: nat)
    requires Ok(h)
    ensures Ok(DropAt(h, i))
  {
    if i < |h.line| {
      DropAtLine(h, i);
      DropAtOrder(h, i);
      assert forall m :: Held(h, m) ==> Held(DropAt(h, i), m);
    }
  }

  /** Dropping the line drops every waiting send and nothing else. */
  lemma DropLineKeeps(h: History)
    requires Ok(h)
    ensures var t := DropLine(h);
            && Ok(t) && t.line == [] && t.order == h.order && t.holds == h.holds && |t.fates| == |h.fates|
            && forall m :: 0 <= m < |h.fates| ==> t.fates[m] == if h.fates[m] == Waiting then Dropped else h.fates[m]
  {
    var t := DropLine(h);
    forall m | 0 <= m < |h.fates| ensures m in h.line <==> h.fates[m] == Waiting {}
    assert forall m :: Held(h, m) ==> Held(t, m);
  }

  lemma TakeKeeps(h: History, tok: nat)
    requires Ok(h) && h.line != [] && tok !in h.holds
    ensures Ok(Take(h, tok))
  {
    TakeOrder(h, tok);
    TakeHolds(h, tok);
  }

  lemma TakeHolds(h: History, tok: nat)
    requires HoldsOk(h) && h.line != [] && tok !in h.holds && h.line[0] < |h.fates| && h.fates[h.line[0]] == Waiting
    ensures HoldsOk(Take(h, tok))
  {
    var t, head := Take(h, tok), h.line[0];
    forall m | 0 <= m < |t.fates| && t.fates[m] == Taken ensures Held(t, m) {
      if m == head {
        assert tok in t.holds && t.holds[tok] == m;
      } else {
        assert Held(h, m);
        var u :| u in h.holds && h.holds[u] == m;
        assert u in t.holds && t.holds[u] == m;
      }
    }
  }

  lemma TakeOrder(h: History, tok: nat)
    requires LineOk(h) && OrderOk(h) && h.line != []
    ensures LineOk(Take(h, tok)) && OrderOk(Take(h, tok))
  {
    var t := Take(h, tok);
    assert t.order[|h.order|] == h.line[0];
    forall m | 0 <= m < |t.fates| && t.fates[m] == Waiting ensures m in t.line {
      var j :| 0 <= j < |h.line| && h.line[j] == m;
      assert t.line[j - 1] == m;
    }
  }

  lemma ResolveKeeps(h: History, tok: nat, f: Fate)
    requires Ok(h) && tok in h.holds && (f == Started || f == Dropped)
    ensures Ok(Resolve(h, tok, f))
  {
    ResolveHolds(h, tok, f);
    ResolveOrder(h, tok, f);
  }

  lemma ResolveOrder(h: History, tok: nat, f: Fate)
    requires LineOk(h) && OrderOk(h) && HoldsOk(h) && tok in h.holds && (f == Started || f == Dropped)
    ensures LineOk(Resolve(h, tok, f)) && OrderOk(Resolve(h, tok, f))
  {}

  lemma ResolveHolds(h: History, tok: nat, f: Fate)
    requires HoldsOk(h) && tok in h.holds && (f == Started || f == Dropped)
    ensures HoldsOk(Resolve(h, tok, f))
  {
    var t := Resolve(h, tok, f);
    forall m | 0 <= m < |t.fates| && t.fates[m] == Taken ensures Held(t, m) {
      assert Held(h, m);
      var u :| u in h.holds && h.holds[u] == m;
      assert u in t.holds && t.holds[u] == m;
    }
  }
}

/**
 One session's sends, turn ends and watcher polls in any interleaving. An
 action is one critical section, or one step between two; what the history and
 log fields record is only there to speak about whole runs.
 */
module SendRuns {
  import opened Options
  import opened SendQueue
  import opened SendHistory
  import Decimal

  /** What the watcher is in the middle of. */
  datatype Watch = Resting | Stated(size: nat) | Reading(from: nat, size: nat)

  /**
   `live` are the tokens not yet released; `asked[m]` is what send m was, with the
   number it was given if it had to wait; `log[i]` tells whether byte i was written
   while a send was registered; `relayed` are the stretches of log relayed as
   foreign turns.
   */
  datatype State = State(session: Session, seqNo: nat, tokens: nat, known: bool, watch: Watch,
                         live: set<nat>, past: History, asked: seq<Pending>, log: seq<bool>, relayed: seq<(nat, nat)>)

  const START := State(IDLE, 0, 0, false, Resting, {}, History([], [], [], map[]), [], [], [])

  datatype Action =
    | Send(text: string, typed: bool)
    | Retract(qid: string)
    | Flush
    | Idle(tok: nat)
    | Release(tok: nat)
    | Begin(tok: nat)
    | Vanish(tok: nat)
    | Write(bytes: nat)
    | Discover
    | Elsewhere(queued: nat)
    | Stat
    | LookForeign
    | CommitForeign(ended: bool)

  /** A token's turn ends after it began, or was dropped; a watcher's step follows the one before it. */
  ghost predicate Enabled(s: State, a: Action)
  {
    match a
    case Idle(tok) => tok in s.live && tok !in s.past.holds
    case Release(tok) => tok in s.live && tok !in s.past.holds
    case Begin(tok) => tok in s.past.holds
    case Vanish(tok) => tok in s.past.holds
    case Stat => s.known && s.watch.Resting?
    case LookForeign => s.watch.Stated?
    case CommitForeign(_) => s.watch.Reading?
    case _ => true
  }

  /** What `os.Stat` tells once the log's path is known. */
  ghost function Size(s: State): Option<nat>
  {
    if s.known then Some(|s.log|) else None
  }

  ghost function Register(s: State, past: History): State
  {
    s.(tokens := s.tokens + 1, live := s.live + {s.tokens}, past := past)
  }

  ghost function DoSend(s: State, text: string, typed: bool): State
  {
    var t := s.(session := Enqueue(s.session, Pending(s.seqNo + 1, text, typed), s.tokens));
    match SendQueue.Admit(s.session)
    case Running => Register(t, SendHistory.Admit(s.past, s.tokens)).(asked := s.asked + [Pending(0, text, typed)])
    case Queued => t.(seqNo := s.seqNo + 1, past := Join(s.past), asked := s.asked + [Pending(s.seqNo + 1, text, typed)])
    case QueueFull => t
  }

  ghost function DoRetract(s: State, qid: string): State
  {
    var i := Place(s.session.queue, qid);
    if i == |s.session.queue| then s else s.(session := SendQueue.Retract(s.session, i), past := DropAt(s.past, i))
  }

  ghost function DoRelease(s: State, tok: nat): State
  {
    var t := s.(session := SendQueue.Release(s.session, tok, Size(s), s.tokens), live := s.live - {tok});
    if Promotes(Settle(s.session, tok, Size(s))) then Register(t, Take(s.past, s.tokens)) else t
  }

  ghost function DoLook(s: State): State
    requires s.watch.Stated?
  {
    var size := s.watch.size;
    s.(session := Look(s.session, size), watch := if Grew(s.session, size) then Reading(s.session.base.value, size) else Resting)
  }

  ghost function DoCommit(s: State, ended: bool): State
    requires s.watch.Reading?
  {
    var Reading(from, size) := s.watch;
    if ended && Undisturbed(s.session, from) then
      s.(session := s.session.(base := Some(size)), watch := Resting, relayed := s.relayed + [(from, size)])
    else s.(watch := Resting)
  }

  ghost function Do(s: State, a: Action): State
    requires Enabled(s, a)
  {
    match a
    case Send(text, typed) => DoSend(s, text, typed)
    case Retract(qid) => DoRetract(s, qid)
    case Flush => s.(session := s.session.(queue := []), past := DropLine(s.past))
    case Idle(tok) => s.(session := MarkIdle(s.session, tok, Size(s)))
    case Release(tok) => DoRelease(s, tok)
    case Begin(tok) => s.(past := Resolve(s.past, tok, Started))
    case Vanish(tok) => s.(past := Resolve(s.past, tok, Dropped))
    case Write(n) => s.(log := s.log + seq(n, _ => s.session.active.Some?))
    case Discover => s.(known := true)
    case Elsewhere(n) => s.(seqNo := s.seqNo + n)
    case Stat => s.(watch := Stated(|s.log|))
    case LookForeign => DoLook(s)
    case CommitForeign(ended) => DoCommit(s, ended)
  }

  // ------------------------------------------------------------- the queue

  /** Queued sends are at most 32 and numbered in order, one for each send in the line. */
  ghost predicate QueueOk(s: State)
  {
    && |s.session.queue| == |s.past.line| <= MAX_QUEUED
    && Numbered(s.session.queue, s.seqNo)
  }

  /** While sends wait, some token is still to be released; the running one always is. */
  ghost predicate TokensOk(s: State)
  {
    && (s.session.queue != [] ==> exists t :: t in s.live)
    && (s.session.active.Some? ==> s.session.active.value in s.live)
    && (forall t :: t in s.live ==> t < s.tokens)
    && (forall t :: t in s.past.holds ==> t in s.live)
  }

  lemma StepQueue(s: State, a: Action)
    requires QueueOk(s) && Enabled(s, a)
    ensures QueueOk(Do(s, a))
  {
    match a {
      case Send(text, typed) => SendQueueOk(s, text, typed);
      case Retract(qid) => RetractQueueOk(s, qid);
      case Release(tok) => ReleaseQueueOk(s, tok);
      case _ => OtherQueueOk(s, a);
    }
  }

  lemma SendQueueOk(s: State, text: string, typed: bool)
    requires QueueOk(s)
    ensures QueueOk(DoSend(s, text, typed))
  {
    hide Numbered;
    NumberedGrows(s.session.queue, s.seqNo, 1, Pending(s.seqNo + 1, text, typed));
  }

  lemma RetractQueueOk(s: State, qid: string)
    requires QueueOk(s)
    ensures QueueOk(DoRetract(s, qid))
  {
    hide Numbered, Place, Mark;
    var i := Place(s.session.queue, qid);
    if i < |s.session.queue| {
      RetractNumbered(s.session.queue, s.seqNo, i);
    }
  }

  lemma ReleaseQueueOk(s: State, tok: nat)
    requires QueueOk(s)
    ensures QueueOk(DoRelease(s, tok))
  {
    hide Numbered, Mark;
    if s.session.queue != [] {
      RetractNumbered(s.session.queue, s.seqNo, 0);
    }
  }

  lemma OtherQueueOk(s: State, a: Action)
    requires QueueOk(s) && Enabled(s, a) && !a.Send? && !a.Retract? && !a.Release?
    ensures QueueOk(Do(s, a))
  {
    hide Numbered, Mark, Grew, Undisturbed, DropAt, Take;
    EmptyNumbered(s.seqNo);
    if a.Elsewhere? {
      NumberedGrows(s.session.queue, s.seqNo, a.queued, Pending(s.seqNo + a.queued, "", true));
    }
  }

  lemma StepTokens(s: State, a: Action)
    requires QueueOk(s) && TokensOk(s) && Enabled(s, a)
    ensures TokensOk(Do(s, a))
  {
    hide Mark, Grew, Undisturbed;
    var t := Do(s, a);
    if a.Release? {
      assert s.tokens !in s.live;
      if t.session.queue != [] {
        assert t.session.active.Some?;
        assert t.session.active.value in t.live;
      }
    }
  }

  lemma StepHistory(s: State, a: Action)
    requires QueueOk(s) && TokensOk(s) && Ok(s.past) && Enabled(s, a)
    ensures Ok(Do(s, a).past)
  {
    hide Ok, SendHistory.Admit, Join, DropAt, DropLine, Take, Resolve;
    assert s.tokens !in s.past.holds;
    match a {
      case Send(_, _) =>
        if SendQueue.Admit(s.session).Running? { AdmitKeeps(s.past, s.tokens); } else { JoinKeeps(s.past); }
      case Retract(qid) => DropAtKeeps(s.past, Place(s.session.queue, qid));
      case Flush => DropLineKeeps(s.past);
      case Release(_) => if s.past.line != [] { TakeKeeps(s.past, s.tokens); }
      case Begin(tok) => ResolveKeeps(s.past, tok, Started);
      case Vanish(tok) => ResolveKeeps(s.past, tok, Dropped);
      case _ =>
    }
  }

  /** The queue holds what was asked by the sends in the line, in order. */
  ghost predicate SendsOk(s: State)
  {
    && |s.asked| == |s.past.fates| && |s.session.queue| == |s.past.line|
    && forall i :: 0 <= i < |s.past.line| ==> s.past.line[i] < |s.asked| && s.session.queue[i] == s.asked[s.past.line[i]]
  }

  /** Retract, flush and promotion are of the same sends in the queue and in the line. */
  lemma StepSends(s: State, a: Action)
    requires QueueOk(s) && Ok(s.past) && SendsOk(s) && Enabled(s, a)
    ensures SendsOk(Do(s, a)) && s.asked <= Do(s, a).asked
  {
    hide QueueOk, Ok;
    match a {
      case Send(text, typed) => SendSendsOk(s, text, typed);
      case Retract(qid) => RetractSendsOk(s, qid);
      case Release(tok) => ReleaseSendsOk(s, tok);
      case _ => OtherSendsOk(s, a);
    }
  }

  lemma SendSendsOk(s: State, text: string, typed: bool)
    requires SendsOk(s)
    ensures SendsOk(DoSend(s, text, typed)) && s.asked <= DoSend(s, text, typed).asked
  {}

  lemma RetractSendsOk(s: State, qid: string)
    requires SendsOk(s)
    ensures SendsOk(DoRetract(s, qid)) && DoRetract(s, qid).asked == s.asked
  {
    hide Place;
  }

  lemma ReleaseSendsOk(s: State, tok: nat)
    requires SendsOk(s)
    ensures SendsOk(DoRelease(s, tok)) && DoRelease(s, tok).asked == s.asked
  {}

  lemma OtherSendsOk(s: State, a: Action)
    requires SendsOk(s) && Enabled(s, a) && !a.Send? && !a.Retract? && !a.Release?
    ensures SendsOk(Do(s, a)) && Do(s, a).asked == s.asked
  {
    hide Grew, Undisturbed, DropAt, Take, SendHistory.Admit, Join;
  }

  // --------------------------------------------------------------- the log

  /** The stretch of a log from `from` to `to` that no registered send wrote. */
  ghost predicate Foreign(log: seq<bool>, from: nat, to: nat)
  {
    forall i :: from <= i < to && i < |log| ==> !log[i]
  }

  /** While no send is registered, nothing of one lies beyond the baseline. */
  ghost predicate LogOk(s: State)
  {
    && (s.session.base.Some? ==> s.known && s.session.base.value <= |s.log|)
    && (s.session.active.None? && s.session.base.Some? ==> Foreign(s.log, s.session.base.value, |s.log|))
  }

  /** What the watcher is about to take as told, or to relay, is foreign. */
  ghost predicate WatchOk(s: State)
  {
    match s.watch
    case Resting => true
    case Stated(size) => s.known && size <= |s.log| && (s.session.active.None? && s.session.base.None? ==> Foreign(s.log, size, |s.log|))
    case Reading(from, size) => s.session.base.Some? && from < size <= |s.log| && from <= s.session.base.value && Foreign(s.log, from, size)
  }

  /** What was relayed was foreign and lies below the baseline, each stretch beyond the one before. */
  ghost predicate RelayedOk(s: State)
  {
    && (forall i :: 0 <= i < |s.relayed| ==> s.relayed[i].0 < s.relayed[i].1 && Foreign(s.log, s.relayed[i].0, s.relayed[i].1))
    && (forall i :: 0 <= i < |s.relayed| ==> s.session.base.Some? && s.relayed[i].1 <= s.session.base.value)
    && (forall i, j :: 0 <= i < j < |s.relayed| ==> s.relayed[i].1 <= s.relayed[j].0)
  }

  /** The baseline only grows, and what is in the log stays. */
  ghost predicate Onward(s: State, t: State)
  {
    && s.log <= t.log
    && (s.session.base.Some? ==> t.session.base.Some? && s.session.base.value <= t.session.base.value)
    && s.relayed <= t.relayed
  }

  lemma StepLog(s: State, a: Action)
    requires LogOk(s) && WatchOk(s) && Enabled(s, a)
    ensures LogOk(Do(s, a)) && Onward(s, Do(s, a))
  {
    hide Mark, SendHistory.Admit, Join, DropAt, DropLine, Take, Resolve;
  }

  lemma StepWatch(s: State, a: Action)
    requires LogOk(s) && WatchOk(s) && Enabled(s, a)
    ensures WatchOk(Do(s, a))
  {
    hide Mark, SendHistory.Admit, Join, DropAt, DropLine, Take, Resolve;
  }

  lemma StepRelayed(s: State, a: Action)
    requires LogOk(s) && WatchOk(s) && RelayedOk(s) && Enabled(s, a)
    requires Onward(s, Do(s, a)) && LogOk(Do(s, a))
    ensures RelayedOk(Do(s, a))
  {
    hide Mark, SendHistory.Admit, Join, DropAt, DropLine, Take, Resolve, Foreign;
    var t := Do(s, a);
    forall i | 0 <= i < |s.relayed| ensures Foreign(t.log, s.relayed[i].0, s.relayed[i].1) {
      ForeignStays(s.log, t.log, s.relayed[i].0, s.relayed[i].1);
    }
    assert t.relayed == s.relayed || (t.relayed == s.relayed + [(s.watch.from, s.watch.size)] && t.log == s.log
                                      && s.session.base == Some(s.watch.from) && t.session.base == Some(s.watch.size));
  }

  lemma ForeignStays(log: seq<bool>, more: seq<bool>, from: nat, to: nat)
    requires log <= more && to <= |log| && Foreign(log, from, to)
    ensures Foreign(more, from, to)
  {
    assert more[..|log|] == log;
  }

  // ------------------------------------------------------------- whole runs

  ghost predicate Inv(s: State)
  {
    QueueOk(s) && TokensOk(s) && Ok(s.past) && SendsOk(s) && LogOk(s) && WatchOk(s) && RelayedOk(s)
  }

  /** Every action keeps the invariant, moves no baseline back and unsends nothing. */
  lemma StepKeeps(s: State, a: Action)
    requires Inv(s) && Enabled(s, a)
    ensures Inv(Do(s, a)) && Onward(s, Do(s, a))
  {
    hide Do, Enabled, QueueOk, TokensOk, Ok, SendsOk, LogOk, WatchOk, RelayedOk, Onward;
    StepQueue(s, a);
    StepTokens(s, a);
    StepHistory(s, a);
    StepSends(s, a);
    StepLog(s, a);
    StepWatch(s, a);
    StepRelayed(s, a);
  }

  /** A run: the state it starts in, and the state after each action. */
  ghost predicate Run(states: seq<State>, actions: seq<Action>)
  {
    && |states| == |actions| + 1 && states[0] == START
    && forall k :: 0 <= k < |actions| ==> Enabled(states[k], actions[k]) && states[k + 1] == Do(states[k], actions[k])
  }

  lemma {:induction false} RunKeeps(states: seq<State>, actions: seq<Action>, k: nat)
    requires Run(states, actions) && k < |states|
    ensures Inv(states[k])
  {
    hide Do, Enabled;
    if k > 0 {
      RunKeeps(states, actions, k - 1);
      StepKeeps(states[k - 1], actions[k - 1]);
    }
  }

  lemma {:induction false} RunOnward(states: seq<State>, actions: seq<Action>, j: nat, k: nat)
    requires Run(states, actions) && j <= k < |states|
    ensures Onward(states[j], states[k])
    decreases k
  {
    hide Do, Enabled, Inv;
    if j < k {
      RunOnward(states, actions, j, k - 1);
      RunKeeps(states, actions, k - 1);
      StepKeeps(states[k - 1], actions[k - 1]);
    }
  }

  /**
   Over every run: the stretches relayed as foreign turns are pairwise disjoint,
   the baseline never moves back, and no byte written while a send was registered
   is ever in one of them.
   */
  lemma NothingRelayedTwice(states: seq<State>, actions: seq<Action>, j: nat, k: nat)
    requires Run(states, actions) && j <= k < |states|
    ensures states[j].session.base.Some? ==>
              states[k].session.base.Some? && states[j].session.base.value <= states[k].session.base.value
    ensures states[j].relayed <= states[k].relayed
    ensures forall x, y :: 0 <= x < y < |states[k].relayed| ==> states[k].relayed[x].1 <= states[k].relayed[y].0
    ensures forall x, i :: 0 <= x < |states[k].relayed| && states[k].relayed[x].0 <= i < states[k].relayed[x].1 && i < |states[j].log| ==>
              !states[j].log[i]
  {
    hide Do, Enabled;
    RunKeeps(states, actions, k);
    RunOnward(states, actions, j, k);
  }

  /** A waiting send is never stranded: some token is still to be released. When all are, the queue is empty and no send is waiting. */
  lemma NeverStranded(states: seq<State>, actions: seq<Action>, k: nat)
    requires Run(states, actions) && k < |states|
    ensures states[k].session.queue != [] ==> exists t :: t in states[k].live
    ensures states[k].live == {} ==> states[k].session.queue == [] && states[k].session.active == None
    ensures states[k].live == {} ==> forall m :: 0 <= m < |states[k].past.fates| ==>
              states[k].past.fates[m] == Started || states[k].past.fates[m] == Dropped
  {
    hide Do, Enabled;
    RunKeeps(states, actions, k);
    var s := states[k];
    if s.live == {} {
      assert s.past.line == [];
      assert forall m :: !Held(s.past, m);
    }
  }

  /**
   Sends are given the session in the order they were accepted, each at most
   once; those that wait are exactly those queued, in order, all of them later,
   and what is queued is what each of them asked under the number it was given.
   The queue holds at most 32, and an id names at most one of them.
   */
  lemma InOrder(states: seq<State>, actions: seq<Action>, k: nat)
    requires Run(states, actions) && k < |states|
    ensures Increasing(states[k].past.order + states[k].past.line)
    ensures forall m :: 0 <= m < |states[k].past.fates| ==> (states[k].past.fates[m] == Waiting <==> m in states[k].past.line)
    ensures |states[k].session.queue| == |states[k].past.line| <= MAX_QUEUED
    ensures forall i :: 0 <= i < |states[k].past.line| ==>
              states[k].past.line[i] < |states[k].asked| && states[k].session.queue[i] == states[k].asked[states[k].past.line[i]]
    ensures forall i :: 0 <= i < |states[k].session.queue| ==>
              Place(states[k].session.queue, Decimal.Format(states[k].session.queue[i].n)) == i
  {
    hide Do, Enabled, Place;
    RunKeeps(states, actions, k);
    var s := states[k];
    forall i | 0 <= i < |s.session.queue| ensures Place(s.session.queue, Decimal.Format(s.session.queue[i].n)) == i {
      PlaceUnique(s.session.queue, i);
    }
  }

  /**
   A retract drops the one waiting send that was given the number it names, and
   leaves every other where it was; naming no waiting send it changes nothing.
   */
  lemma RetractIs(s: State, qid: string)
    requires Inv(s)
    ensures var t := Do(s, Retract(qid));
            && t.session == s.session.(queue := Unnamed(s.session.queue, qid)) && t.asked == s.asked && |t.past.fates| == |s.past.fates|
            && forall m :: 0 <= m < |s.past.fates| ==>
                 t.past.fates[m] == if s.past.fates[m] == Waiting && Decimal.Format(s.asked[m].n) == qid then Dropped else s.past.fates[m]
  {
    hide Unnamed, Place, TokensOk, LogOk, WatchOk, RelayedOk, OrderOk, HoldsOk, Numbered;
    RetractLeaves(s.session, qid, s.seqNo);
    var queue, line, i := s.session.queue, s.past.line, Place(s.session.queue, qid);
    forall j | 0 <= j < |line| && j != i ensures Decimal.Format(s.asked[line[j]].n) != qid {
      if Decimal.Format(queue[j].n) == qid { PlaceIsOf(queue, s.seqNo, j); }
    }
    forall m | 0 <= m < |s.past.fates| && s.past.fates[m] == Waiting ensures m in line {}
  }

  lemma PlaceIsOf(queue: seq<Pending>, last: nat, j: nat)
    requires Numbered(queue, last) && j < |queue|
    ensures Place(queue, Decimal.Format(queue[j].n)) == j
  {
    hide Place;
    PlaceUnique(queue, j);
  }

  /** A flush drops every waiting send, and no other. */
  lemma FlushIs(s: State)
    requires Inv(s)
    ensures var t := Do(s, Flush);
            && t.session == s.session.(queue := []) && t.live == s.live && t.past.holds == s.past.holds && |t.past.fates| == |s.past.fates|
            && forall m :: 0 <= m < |s.past.fates| ==> t.past.fates[m] == if s.past.fates[m] == Waiting then Dropped else s.past.fates[m]
  {
    DropLineKeeps(s.past);
  }

  /** A token's turn that begins is its send's; one whose session is gone drops it. Either way no other send changes. */
  lemma BeginIs(s: State, tok: nat)
    requires Inv(s) && tok in s.past.holds
    ensures var m := s.past.holds[tok];
            && m < |s.past.fates| && s.past.fates[m] == Taken
            && Do(s, Begin(tok)).past.fates == s.past.fates[m := Started] && Do(s, Vanish(tok)).past.fates == s.past.fates[m := Dropped]
            && Do(s, Begin(tok)).past.holds == Do(s, Vanish(tok)).past.holds == s.past.holds - {tok}
            && Do(s, Begin(tok)).session == Do(s, Vanish(tok)).session == s.session
  {}

  /**
   A send runs at once on a session that is idle with nothing waiting; else it
   waits last, as it was asked; with 32 waiting it is refused, and nothing changes.
   */
  lemma SendIs(s: State, text: string, typed: bool)
    requires Inv(s)
    ensures var t := Do(s, Send(text, typed));
            var m := |s.past.fates|;
            if s.session.active == None && s.session.queue == [] then
              && t.session == s.session.(active := Some(s.tokens)) && t.live == s.live + {s.tokens}
              && t.past.fates == s.past.fates + [Taken] && t.past.holds == s.past.holds[s.tokens := m]
            else if |s.session.queue| < 32 then
              && t.session.active == s.session.active && |t.session.queue| == |s.session.queue| + 1
              && t.session.queue[|s.session.queue|].text == text && t.session.queue[|s.session.queue|].typed == typed
              && t.past.fates == s.past.fates + [Waiting] && t.past.line == s.past.line + [m] && t.live == s.live
            else t == s
  {}

  /**
   A turn's end frees the session if its send has it: the oldest waiting send then
   has it, by a new token. While another send has it nothing is promoted.
   */
  lemma ReleaseIs(s: State, tok: nat)
    requires Inv(s) && Enabled(s, Release(tok))
    ensures var t := Do(s, Release(tok));
            var free := s.session.active.None? || s.session.active == Some(tok);
            && (s.known ==> t.session.base == Some(|s.log|)) && (!s.known ==> t.session.base == s.session.base)
            && (free && s.session.queue != [] ==>
                  && t.session.active == Some(s.tokens) && t.session.queue == s.session.queue[1..] && t.live == s.live - {tok} + {s.tokens}
                  && t.past.holds == s.past.holds[s.tokens := s.past.line[0]] && t.past.fates[s.past.line[0]] == Taken)
            && (free && s.session.queue == [] ==> t.session.active == None && t.session.queue == [] && t.past == s.past && t.live == s.live - {tok})
            && (!free ==> t.session.active == s.session.active && t.session.queue == s.session.queue && t.past == s.past && t.live == s.live - {tok})
  {}

  /** A turn that went idle frees the session if its send has it, without promoting; while another has it nothing changes. */
  lemma IdleIs(s: State, tok: nat)
    requires Enabled(s, Idle(tok))
    ensures var t := Do(s, Idle(tok));
            && (s.session.active.Some? && s.session.active != Some(tok) ==> t == s)
            && (s.session.active.None? || s.session.active == Some(tok) ==>
                  && t == s.(session := t.session) && t.session.active == None && t.session.queue == s.session.queue
                  && t.session.base == if s.known then Some(|s.log|) else s.session.base)
  {}

  /** The first sight of a log takes it as told: nothing of it is relayed. */
  lemma FirstSight(s: State)
    requires s.known && s.watch.Resting? && s.session.base.None?
    ensures Do(Do(s, Stat), LookForeign) == s.(session := s.session.(base := Some(|s.log|)))
  {}

  /** What a session at rest writes past its baseline is relayed, all of it, once it is read to an end; and not while anything runs or waits. */
  lemma ForeignIsRelayed(s: State)
    requires Inv(s) && s.known && s.watch.Resting? && s.session.base.Some?
    ensures var read := Do(Do(s, Stat), LookForeign);
            && (read.watch.Reading? <==> s.session.active == None && s.session.queue == [] && s.session.base.value < |s.log|)
            && (read.watch.Reading? ==>
                  var done := Do(read, CommitForeign(true));
                  && done.relayed == s.relayed + [(s.session.base.value, |s.log|)]
                  && done.session == s.session.(base := Some(|s.log|)) && done.watch == Resting
                  && Do(read, CommitForeign(false)) == s)
  {}

  /** How far a session is from having released everything. */
  ghost function Left(s: State): nat
  {
    3 * |s.session.queue| + |s.live| + |s.past.holds|
  }

  /** While sends wait, some turn can begin, fall away or end, and each of those brings the end of the queue nearer. */
  lemma Drains(s: State) returns (a: Action)
    requires Inv(s) && s.session.queue != []
    ensures Enabled(s, a) && (a.Begin? || a.Release?) && Left(Do(s, a)) < Left(s)
  {
    hide Ok, LogOk, WatchOk, RelayedOk, Settle, Resolve;
    var t :| t in s.live;
    if t in s.past.holds {
      a := Begin(t);
      BeginDrains(s, t);
    } else {
      a := Release(t);
      ReleaseDrains(s, t);
    }
  }

  lemma BeginDrains(s: State, tok: nat)
    requires tok in s.past.holds
    ensures Left(Do(s, Begin(tok))) < Left(s)
  {
    HoldsFall(s.past.holds, tok);
  }

  lemma ReleaseDrains(s: State, tok: nat)
    requires QueueOk(s) && TokensOk(s) && tok in s.live && tok !in s.past.holds
    ensures Left(Do(s, Release(tok))) < Left(s)
  {
    hide Mark;
    var t := DoRelease(s, tok);
    if Promotes(Settle(s.session, tok, Size(s))) {
      assert t.live == s.live - {tok} + {s.tokens};
      HoldsGrow(s.past.holds, s.tokens, s.past.line[0]);
    }
  }

  lemma HoldsGrow(m: map<nat, nat>, t: nat, v: nat)
    requires t !in m
    ensures |m[t := v]| == |m| + 1
  {
    HoldsFall(m[t := v], t);
    assert m[t := v] - {t} == m;
  }

  lemma HoldsFall(m: map<nat, nat>, t: nat)
    requires t in m
    ensures |m - {t}| == |m| - 1
  {
    assert (m - {t}).Keys == m.Keys - {t};
    assert |m.Keys - {t}| == |m.Keys| - 1;
    assert |m.Keys| == |m| && |(m - {t}).Keys| == |m - {t}|;
  }
}
