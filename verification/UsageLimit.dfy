/**
 Resuming a session once its usage limit resets: what is recorded per session,
 and the timer. Instants and durations are in nanoseconds. A timer that was
 stopped never calls back; a record's serial stands for its identity.
 */
module UsageLimit {
  import opened Options

  const SECOND := 1_000_000_000
  const MAX_RESUMES := 2
  const MAX_WAIT := 24 * 3600 * SECOND
  const MIN_JITTER := 30 * SECOND

  /** A callback to come: the reset it was armed for, and when it is due. */
  datatype Timer = Timer(at: int, due: int)

  datatype Limit = Limit(serial: nat, resetsAt: int, noted: int, resume: bool, resumes: nat, gaveUp: bool, resuming: bool,
                         timer: Option<Timer>)

  datatype Shown = Resuming | Waiting | GaveUp | TooFar | Off

  function StateOf(l: Limit, now: int): Shown
  {
    if l.resuming then Resuming
    else if l.resume then Waiting
    else if l.gaveUp then GaveUp
    else if l.resetsAt - now > MAX_WAIT then TooFar
    else Off
  }

  /** `armLocked` */
  function Armed(l: Limit, now: int, jitter: int): Limit
  {
    var wait := (if l.resetsAt - now > 0 then l.resetsAt - now else 0) + jitter;
    l.(timer := Some(Timer(l.resetsAt, now + wait)))
  }

  /** `noteUsageLimit` on what is recorded, with the instance's setting for a limit that is new. */
  function Note(limit: Option<Limit>, serial: nat, resetsAt: int, setting: bool, now: int, jitter: int): Limit
  {
    var l := if limit.Some? then limit.value else Limit(serial, 0, 0, setting, 0, false, false, None);
    var noted := l.(resetsAt := resetsAt, noted := now, resuming := false);
    if !noted.resume then noted
    else if noted.resumes >= MAX_RESUMES then noted.(resume := false, gaveUp := true)
    else if resetsAt - now > MAX_WAIT then noted.(resume := false)
    else Armed(noted, now, jitter)
  }

  datatype SetError = NoLimit | ResetTooFar

  /** Why `SetLimitResume` refuses, if it does. */
  function Refusal(limit: Option<Limit>, on: bool, now: int): Option<SetError>
  {
    if limit.None? then Some(NoLimit)
    else if limit.value.resume != on && on && limit.value.resetsAt - now > MAX_WAIT then Some(ResetTooFar)
    else None
  }

  function Set(l: Limit, on: bool, now: int, jitter: int): Limit
  {
    if l.resume == on then l
    else
      var set_ := l.(resume := on, resumes := 0, gaveUp := false);
      if on then Armed(set_, now, jitter) else set_.(timer := None)
  }

  /** `cancelLimitWait` */
  function Cancel(l: Limit): Limit
  {
    if l.resume then l.(resume := false, timer := None) else l
  }

  /** Whether a callback for the reset at `at` sends anything. */
  predicate Fires(limit: Option<Limit>, at: int)
  {
    limit.Some? && limit.value.resume && limit.value.resetsAt == at
  }

  /** `fireLimitResume`, up to where it sends. */
  function Fire(l: Limit, at: int): Limit
  {
    if Fires(Some(l), at) then l.(timer := None, resumes := l.resumes + 1, resuming := true) else l
  }

  class Router {
    var limits: map<string, Limit>
    var serials: nat

    constructor ()
      ensures limits == map[] && serials == 0
    {
      limits, serials := map[], 0;
    }

    function Get(id: string): Option<Limit>
      reads this
    {
      if id in limits then Some(limits[id]) else None
    }

    /** Nothing is recorded when the event does not parse or tells no reset. */
    method NoteUsageLimit(id: string, resetsAt: Option<int>, setting: bool, now: int, jitter: int)
      modifies this
      ensures resetsAt.None? || resetsAt.value <= 0 ==> limits == old(limits)
      ensures resetsAt.Some? && resetsAt.value > 0 ==>
                limits == old(limits)[id := Note(old(Get(id)), old(serials), resetsAt.value, setting, now, jitter)]
      ensures serials == old(serials) || serials == old(serials) + 1
      ensures id !in old(limits) && id in limits ==> serials == old(serials) + 1
    {
      if resetsAt.None? || resetsAt.value <= 0 {
        return;
      }
      var l;
      if id in limits {
        l := limits[id];
      } else {
        l := Limit(serials, 0, 0, setting, 0, false, false, None);
        serials := serials + 1;
      }
      l := l.(resetsAt := resetsAt.value, noted := now, resuming := false);
      if l.resume {
        if l.resumes >= MAX_RESUMES {
          l := l.(resume := false, gaveUp := true);
        } else if l.resetsAt - l.noted > MAX_WAIT {
          l := l.(resume := false);
        } else {
          l := Armed(l, now, jitter);
        }
      }
      limits := limits[id := l];
    }

    method EndUsageLimit(id: string, started: int)
      modifies this`limits
      ensures limits == if id in old(limits) && old(limits)[id].noted < started then old(limits) - {id} else old(limits)
    {
      if id in limits && limits[id].noted < started {
        limits := limits - {id};
      }
    }

    method SetLimitResume(id: string, on: bool, now: int, jitter: int) returns (refused: Option<SetError>)
      modifies this`limits
      ensures refused == Refusal(old(Get(id)), on, now)
      ensures refused == Some(NoLimit) <==> id !in old(limits)
      ensures refused == Some(ResetTooFar) <==>
                id in old(limits) && on && !old(limits)[id].resume && old(limits)[id].resetsAt - now > MAX_WAIT
      ensures refused.None? ==> id in limits && limits[id].resume == on
      ensures refused.None? && old(limits)[id].resume != on ==> limits[id].resumes == 0 && !limits[id].gaveUp && limits[id].timer.Some? == on
      ensures limits == if refused.None? then old(limits)[id := Set(old(limits)[id], on, now, jitter)] else old(limits)
    {
      if id !in limits {
        return Some(NoLimit);
      }
      var l := limits[id];
      if l.resume == on {
        assert limits[id := l] == limits;
        return None;
      }
      if on && l.resetsAt - now > MAX_WAIT {
        return Some(ResetTooFar);
      }
      l := l.(resume := on, resumes := 0, gaveUp := false);
      if on {
        l := Armed(l, now, jitter);
      } else {
        l := l.(timer := None);
      }
      limits := limits[id := l];
      return None;
    }

    method CancelLimitWait(id: string)
      modifies this`limits
      ensures limits == if id in old(limits) then old(limits)[id := Cancel(old(limits)[id])] else old(limits)
    {
      if id in limits {
        var l := limits[id];
        if l.resume {
          l := l.(resume := false, timer := None);
        }
        limits := limits[id := l];
      }
    }

    /** `fireLimitResume` up to where it sends: whether it does, and for which record. */
    method FireLimitResume(id: string, at: int) returns (sends: Option<nat>)
      modifies this`limits
      ensures sends == if Fires(old(Get(id)), at) then Some(old(limits)[id].serial) else None
      ensures limits == if id in old(limits) then old(limits)[id := Fire(old(limits)[id], at)] else old(limits)
    {
      if id !in limits {
        return None;
      }
      var l := limits[id];
      if !l.resume || l.resetsAt != at {
        assert limits[id := l] == limits;
        return None;
      }
      limits := limits[id := l.(timer := None, resumes := l.resumes + 1, resuming := true)];
      return Some(l.serial);
    }

    /** What the resume's outcome forgets: any record when a goal was resumed, its own when the send failed. */
    method SentResume(id: string, serial: nat, goal: bool, failed: bool)
      modifies this`limits
      ensures limits == if id in old(limits) && (goal || (failed && old(limits)[id].serial == serial)) then old(limits) - {id} else old(limits)
    {
      if goal {
        limits := limits - {id};
        return;
      }
      if failed && id in limits && limits[id].serial == serial {
        limits := limits - {id};
      }
    }
  }
}

/** One session's limit over time, in any interleaving of what can happen to it. */
module LimitRuns {
  import opened Options
  import opened UsageLimit

  /** A resume sent: when, and the reset recorded then. */
  datatype Attempt = Attempt(time: int, reset: int)

  /**
   `sent` lists every resume ever sent, `first` how many of them came before the
   limit was last armed by its user or recorded anew; `armings` every time a
   timer was set, with the reset it was set for.
   */
  datatype State = State(limit: Option<Limit>, now: int, serials: nat, sent: seq<Attempt>, first: nat, armings: seq<Attempt>)

  datatype Action =
    | Noted(resetsAt: int, setting: bool, jitter: int)
    | Ended(started: int)
    | Forgotten
    | Switched(on: bool, jitter: int)
    | Cancelled
    | TimerFired
    | Tick(nanos: nat)

  ghost predicate Enabled(s: State, a: Action)
  {
    match a
    case Noted(_, _, jitter) => jitter >= MIN_JITTER
    case Switched(_, jitter) => jitter >= MIN_JITTER
    case TimerFired => s.limit.Some? && s.limit.value.timer.Some? && s.limit.value.timer.value.due <= s.now
    case _ => true
  }

  /** A timer that calls back is no longer to come, whether or not it sends. */
  ghost function AfterCallback(l: Limit): Limit
    requires l.timer.Some?
  {
    Fire(l, l.timer.value.at).(timer := None)
  }

  ghost function WithArming(s: State, l: Limit): State
  {
    s.(limit := Some(l), armings := s.armings + [Attempt(s.now, l.resetsAt)])
  }

  /** Whether a note sets a timer. */
  ghost predicate NoteArms(l: Limit)
  {
    l.resume
  }

  ghost function Do(s: State, a: Action): State
    requires Enabled(s, a)
  {
    match a
    case Noted(resetsAt, setting, jitter) =>
      var l := Note(s.limit, s.serials, resetsAt, setting, s.now, jitter);
      var t := if s.limit.Some? then s else s.(serials := s.serials + 1, first := |s.sent|);
      if NoteArms(l) then WithArming(t, l) else t.(limit := Some(l))
    case Ended(started) => if s.limit.Some? && s.limit.value.noted < started then s.(limit := None) else s
    case Forgotten => s.(limit := None)
    case Switched(on, jitter) =>
      if Refusal(s.limit, on, s.now).Some? || s.limit.value.resume == on then s
      else
        var l := Set(s.limit.value, on, s.now, jitter);
        if on then WithArming(s.(first := |s.sent|), l) else s.(limit := Some(l), first := |s.sent|)
    case Cancelled => if s.limit.Some? then s.(limit := Some(Cancel(s.limit.value))) else s
    case TimerFired =>
      var l := s.limit.value;
      var t := s.(limit := Some(AfterCallback(l)));
      if Fires(s.limit, l.timer.value.at) then t.(sent := s.sent + [Attempt(s.now, l.resetsAt)]) else t
    case Tick(n) => s.(now := s.now + n)
  }

  /** A timer is due no sooner than the jitter after its reset, and is set for the recorded one while the resume is on. */
  ghost predicate TimerOk(l: Limit)
  {
    && (l.timer.Some? ==> l.timer.value.due >= l.timer.value.at + MIN_JITTER && l.resumes < MAX_RESUMES)
    && (l.timer.Some? && l.resume ==> l.timer.value.at == l.resetsAt)
    && (l.resume && !l.resuming ==> l.timer.Some?)
    && (l.gaveUp ==> !l.resume && l.resumes == MAX_RESUMES)
  }

  ghost predicate Inv(s: State)
  {
    && s.first <= |s.sent|
    && (s.limit.Some? ==> TimerOk(s.limit.value) && s.limit.value.resumes == |s.sent| - s.first <= MAX_RESUMES)
    && (forall i :: 0 <= i < |s.sent| ==> s.sent[i].time >= s.sent[i].reset + MIN_JITTER)
    && (forall i :: 0 <= i < |s.armings| ==> s.armings[i].reset - s.armings[i].time <= MAX_WAIT)
  }

  lemma StepKeeps(s: State, a: Action)
    requires Inv(s) && Enabled(s, a)
    ensures Inv(Do(s, a))
  {}

  ghost predicate Run(states: seq<State>, actions: seq<Action>)
  {
    && |states| == |actions| + 1 && states[0].limit == None && states[0].sent == [] && states[0].first == 0 && states[0].armings == []
    && forall k :: 0 <= k < |actions| ==> Enabled(states[k], actions[k]) && states[k + 1] == Do(states[k], actions[k])
  }

  lemma {:induction false} RunKeeps(states: seq<State>, actions: seq<Action>, k: nat)
    requires Run(states, actions) && k < |states|
    ensures forall j :: 0 <= j <= k ==> Inv(states[j])
  {
    hide Do, Enabled;
    if k > 0 {
      RunKeeps(states, actions, k - 1);
      StepKeeps(states[k - 1], actions[k - 1]);
    }
  }

  /** What arms a session's resume: its user, or a limit recorded anew under a setting that is on. */
  ghost predicate Arms(s: State, a: Action)
  {
    (a.Switched? && a.on) || (a.Noted? && s.limit.None?)
  }

  ghost predicate ArmedNow(s: State)
  {
    s.limit.Some? && s.limit.value.resume
  }

  /**
   In every run, while a limit is recorded at most two resumes were sent since it
   was last armed; each was sent after the reset recorded at the time; and timers
   were set only for resets at most a day away.
   */
  lemma BoundedResumes(states: seq<State>, actions: seq<Action>, k: nat)
    requires Run(states, actions) && k < |states|
    ensures states[k].limit.Some? ==> |states[k].sent| - states[k].first <= 2
    ensures forall i :: 0 <= i < |states[k].sent| ==> states[k].sent[i].time > states[k].sent[i].reset
    ensures forall i :: 0 <= i < |states[k].armings| ==> states[k].armings[i].reset - states[k].armings[i].time <= 24 * 3600 * 1_000_000_000
  {
    hide Do, Enabled;
    RunKeeps(states, actions, k);
  }

  /** When a timer set now for a reset is due: past the reset, or past now if that is over, by the jitter. */
  function DueAt(resetsAt: int, now: int, jitter: int): int
  {
    (if resetsAt > now then resetsAt else now) + jitter
  }

  /** Armed afresh: no resume counted, not given up, and the timer set for the recorded reset. */
  ghost predicate ArmedAfresh(s: State, jitter: int)
  {
    && ArmedNow(s) && s.limit.value.resumes == 0 && !s.limit.value.gaveUp && s.first == |s.sent|
    && s.limit.value.timer == Some(Timer(s.limit.value.resetsAt, DueAt(s.limit.value.resetsAt, s.now, jitter)))
  }

  /** A limit recorded that keeps which reset it is of and whether a resume of it is under way. */
  ghost predicate SameLimit(s: State, t: State)
    requires s.limit.Some?
  {
    && t.limit.Some? && t.limit.value.serial == s.limit.value.serial && t.limit.value.resetsAt == s.limit.value.resetsAt
    && t.limit.value.noted == s.limit.value.noted && t.limit.value.resuming == s.limit.value.resuming && t.sent == s.sent && t.now == s.now
  }

  /**
   Switching a resume on arms it afresh, unless it is on, no limit is recorded or
   its reset is over a day away; then nothing changes.
   */
  lemma SwitchedOn(s: State, jitter: int)
    requires s.limit.Some? && jitter >= MIN_JITTER
    ensures var t := Do(s, Switched(true, jitter));
            && (!ArmedNow(s) && s.limit.value.resetsAt - s.now <= MAX_WAIT ==> SameLimit(s, t) && ArmedAfresh(t, jitter))
            && (ArmedNow(s) || s.limit.value.resetsAt - s.now > MAX_WAIT ==> t == s)
  {}

  /** Switching it off, or cancelling the wait, disarms it and stops its timer, unless it was off; then nothing changes. */
  lemma SwitchedOff(s: State, a: Action)
    requires Enabled(s, a) && ((a.Switched? && !a.on) || a.Cancelled?)
    ensures var t := Do(s, a);
            && !ArmedNow(t) && t.sent == s.sent
            && (ArmedNow(s) ==> SameLimit(s, t) && t.limit.value.timer == None)
            && (!ArmedNow(s) ==> t == s)
            && (ArmedNow(s) && a.Switched? ==> t.limit.value.resumes == 0 && !t.limit.value.gaveUp)
  {}

  /** In every run, from a switch off or a cancelled wait on nothing is sent until the resume is armed again. */
  lemma OffIsSilent(states: seq<State>, actions: seq<Action>, i: nat, k: nat)
    requires Run(states, actions) && i < k < |states|
    requires (actions[i].Switched? && !actions[i].on) || actions[i].Cancelled?
    requires forall j :: i < j < k ==> !Arms(states[j], actions[j])
    ensures states[k].sent == states[i].sent && !ArmedNow(states[k])
  {
    hide Do, Enabled, Arms, ArmedNow;
    SwitchedOff(states[i], actions[i]);
    SilentUntilArmed(states, actions, i + 1, k);
  }

  /**
   A limit reached: its reset is recorded, and no resume is under way. A new one is
   armed afresh under a setting that is on, if its reset is at most a day away; one
   that was off stays off; one that was on is armed anew for the reset, unless that
   is too far or two resumes were sent.
   */
  lemma NotedIs(s: State, resetsAt: int, setting: bool, jitter: int)
    requires Inv(s) && jitter >= MIN_JITTER
    ensures var t := Do(s, Noted(resetsAt, setting, jitter));
            && t.limit.Some? && t.limit.value.resetsAt == resetsAt && t.limit.value.noted == s.now && !t.limit.value.resuming
            && t.sent == s.sent && t.now == s.now
            && (s.limit.None? && setting && resetsAt - s.now <= MAX_WAIT ==> ArmedAfresh(t, jitter))
            && (s.limit.None? && !(setting && resetsAt - s.now <= MAX_WAIT) ==>
                  !ArmedNow(t) && t.limit.value.timer == None && !t.limit.value.gaveUp)
            && (s.limit.Some? && !ArmedNow(s) ==>
                  && !ArmedNow(t) && t.limit.value.timer == s.limit.value.timer
                  && t.limit.value.gaveUp == s.limit.value.gaveUp && t.limit.value.resumes == s.limit.value.resumes)
            && (ArmedNow(s) ==>
                  && (ArmedNow(t) <==> s.limit.value.resumes < MAX_RESUMES && resetsAt - s.now <= MAX_WAIT)
                  && (ArmedNow(t) ==> t.limit.value.timer == Some(Timer(resetsAt, DueAt(resetsAt, s.now, jitter))))
                  && t.limit.value.resumes == s.limit.value.resumes)
  {}

  /**
   A callback of an armed limit sends, counts the resume and has it under way; any
   other sends nothing. Either way it is not to come again.
   */
  lemma CalledBack(s: State)
    requires Inv(s) && Enabled(s, TimerFired)
    ensures var t := Do(s, TimerFired);
            && t.limit.Some? && t.limit.value.timer == None && t.limit.value.resume == s.limit.value.resume
            && (ArmedNow(s) ==>
                  && t.sent == s.sent + [Attempt(s.now, s.limit.value.resetsAt)]
                  && t.limit.value.resumes == s.limit.value.resumes + 1 && t.limit.value.resuming)
            && (!ArmedNow(s) ==> t.sent == s.sent && t.limit.value == s.limit.value.(timer := None))
  {}

  /** A turn that began after a limit was reached forgets it when it ends, and no other turn does. */
  lemma EndForgets(s: State, started: int)
    requires s.limit.Some?
    ensures Do(s, Ended(started)).limit == None <==> started > s.limit.value.noted
    ensures started <= s.limit.value.noted ==> Do(s, Ended(started)) == s
    ensures Do(s, Forgotten).limit == None
  {}

  /** What is shown: waiting exactly for a callback that will send, given up exactly when off after two resumes. */
  lemma ShownIs(s: State)
    requires Inv(s) && s.limit.Some?
    ensures var l, shown := s.limit.value, StateOf(s.limit.value, s.now);
            && (shown == Resuming <==> l.resuming)
            && (shown == Waiting ==> l.timer.Some? && l.timer.value.at == l.resetsAt && |Do(s.(now := l.timer.value.due), TimerFired).sent| == |s.sent| + 1)
            && (shown == GaveUp ==> !l.resume && |s.sent| - s.first == MAX_RESUMES)
            && (shown == TooFar ==> !l.resume && l.resetsAt - s.now > MAX_WAIT)
            && (shown == Off ==> !l.resume && !l.gaveUp && l.resetsAt - s.now <= MAX_WAIT)
  {}

  /** Disarmed, given up or forgotten, a limit sends nothing until it is armed again. */
  lemma {:induction false} SilentUntilArmed(states: seq<State>, actions: seq<Action>, i: nat, k: nat)
    requires Run(states, actions) && i <= k < |states| && !ArmedNow(states[i])
    requires forall j :: i <= j < k ==> !Arms(states[j], actions[j])
    ensures states[k].sent == states[i].sent && !ArmedNow(states[k])
    decreases k
  {
    if i < k {
      SilentUntilArmed(states, actions, i, k - 1);
    }
  }

  /** A limit shown as waiting has its timer set for the recorded reset, and when the timer calls back it sends. */
  lemma WaitingWillSend(states: seq<State>, actions: seq<Action>, k: nat)
    requires Run(states, actions) && k < |states| && states[k].limit.Some? && StateOf(states[k].limit.value, states[k].now) == Waiting
    ensures states[k].limit.value.timer.Some? && states[k].limit.value.timer.value.at == states[k].limit.value.resetsAt
    ensures Enabled(states[k], TimerFired) ==> |Do(states[k], TimerFired).sent| == |states[k].sent| + 1
  {
    RunKeeps(states, actions, k);
  }

  /** A limit reached again while its resume is on is given up exactly when two resumes were sent since it was armed. */
  lemma GivesUpAfterTwo(s: State, resetsAt: int, setting: bool, jitter: int)
    requires Inv(s) && ArmedNow(s) && Enabled(s, Noted(resetsAt, setting, jitter))
    ensures Do(s, Noted(resetsAt, setting, jitter)).limit.value.gaveUp <==> |s.sent| - s.first == MAX_RESUMES
    ensures ArmedNow(Do(s, Noted(resetsAt, setting, jitter))) <==> |s.sent| - s.first < MAX_RESUMES && resetsAt - s.now <= MAX_WAIT
  {}
}
