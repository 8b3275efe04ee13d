/**
 The schedule runner. Each check looks at the window since the last one, so the
 windows of a run tile the time it spans.
 */
module Runner {
  import opened Options
  import opened Calendar
  import opened Cron

  /** A saved task; spec is None when its expression does not parse. */
  datatype Task = Task(id: string, enabled: bool, spec: Option<Spec>)

  /** A match of the expression in (since, now], no later than the search from `since` looks. */
  ghost predicate Due(s: Spec, z: Zone, ahead: int, since: int, now: int)
  {
    exists m :: MatchIn(s, z, ahead, since, now, m)
  }

  ghost predicate MatchIn(s: Spec, z: Zone, ahead: int, since: int, now: int, m: int)
  {
    && Matches(s, m) && since < m * 60 - ahead <= now
    && CivilOf(m).year <= CivilOf(LocalMinute(z, since) + 1).year + 5
  }

  ghost function NextOf(task: Task, z: Zone, most: nat, after: int): Option<int>
    requires Bounded(z, most)
  {
    if !task.enabled || task.spec.None? then None else Answer(task.spec.value, z, most, after)
  }

  /** Whether a check of the window (since, now] fires a schedule. */
  ghost predicate Fires(task: Task, z: Zone, most: nat, since: int, now: int)
    requires Bounded(z, most)
  {
    NextOf(task, z, most, since).Some? && NextOf(task, z, most, since).value <= now
  }

  method NextRun(task: Task, z: Zone, after: int, ghost most: nat) returns (r: Option<int>)
    requires Bounded(z, most)
    ensures r == NextOf(task, z, most, after)
  {
    if !task.enabled || task.spec.None? {
      return None;
    }
    r := NextAfter(task.spec.value, z, after, most);
  }

  /** `check`: which schedules fire, in the store's order. */
  method Check(tasks: seq<Task>, z: Zone, since: int, now: int, ghost most: nat) returns (fired: seq<bool>)
    requires Bounded(z, most)
    ensures |fired| == |tasks| && forall i :: 0 <= i < |tasks| ==> fired[i] == Fires(tasks[i], z, most, since, now)
  {
    hide NextOf;
    fired := [];
    while |fired| < |tasks|
      invariant |fired| <= |tasks| && forall i :: 0 <= i < |fired| ==> fired[i] == Fires(tasks[i], z, most, since, now)
    {
      var next := NextRun(tasks[|fired|], z, since, most);
      fired := fired + [next.Some? && next.value <= now];
    }
  }

  /** `Run`, over the instants its ticker fires at: clock[0] is when it starts. What it fires at each tick. */
  method Run(tasks: seq<Task>, z: Zone, clock: seq<int>, ghost most: nat) returns (fired: seq<seq<bool>>)
    requires clock != [] && Bounded(z, most)
    ensures |fired| == |clock| - 1
    ensures forall k :: 0 <= k < |fired| ==> |fired[k]| == |tasks|
    ensures forall k, i :: 0 <= k < |fired| && 0 <= i < |tasks| ==>
              fired[k][i] == Fires(tasks[i], z, most, clock[k], clock[k + 1])
  {
    hide Fires;
    fired := [];
    var last := clock[0];
    while |fired| + 1 < |clock|
      invariant |fired| < |clock| && last == clock[|fired|]
      invariant forall k :: 0 <= k < |fired| ==> |fired[k]| == |tasks|
      invariant forall k, i :: 0 <= k < |fired| && 0 <= i < |tasks| ==>
                  fired[k][i] == Fires(tasks[i], z, most, clock[k], clock[k + 1])
    {
      var now := clock[|fired| + 1];
      var f := Check(tasks, z, last, now, most);
      fired := fired + [f];
      last := now;
    }
  }

  /** On clocks that never change, the minute an instant lies in. */
  lemma FixedMinute(z: Zone, ahead: int, t: int)
    requires Fixed(z, ahead)
    ensures LocalMinute(z, t) * 60 - ahead <= t < (LocalMinute(z, t) + 1) * 60 - ahead
  {}

  /** The first match after `since` is in the window exactly when some match is. */
  lemma FirstIsDue(s: Spec, z: Zone, most: nat, ahead: int, since: int, now: int)
    requires Bounded(z, most) && Fixed(z, ahead)
    ensures var r := Answer(s, z, most, since);
            (r.Some? && r.value <= now) <==> Due(s, z, ahead, since, now)
  {
    hide CivilOf, Matches, LocalMinute, Answer, Bounded, Fixed, MatchIn, First;
    var r := Answer(s, z, most, since);
    AnswerIs(s, z, most, since);
    FixedMinute(z, ahead, since);
    if r.Some? {
      FirstMatches(s, LocalMinute(z, since) + 1, LocalMinute(z, r.value));
    }
    if r.Some? && r.value <= now {
      InWindow(s, z, ahead, since, now, LocalMinute(z, r.value));
    }
    if m :| MatchIn(s, z, ahead, since, now, m) {
      InWindow(s, z, ahead, since, now, m);
      assert m >= LocalMinute(z, since) + 1;
    }
  }

  lemma FirstMatches(s: Spec, from: int, m: int)
    requires First(s, from, m)
    ensures from <= m && Matches(s, m) && forall k :: from <= k && Matches(s, k) ==> m <= k
  {
    hide Matches;
  }

  lemma InWindow(s: Spec, z: Zone, ahead: int, since: int, now: int, m: int)
    ensures MatchIn(s, z, ahead, since, now, m) <==>
            Matches(s, m) && since < m * 60 - ahead <= now && CivilOf(m).year <= CivilOf(LocalMinute(z, since) + 1).year + 5
  {
    hide CivilOf, Matches, LocalMinute;
  }

  /** On clocks that never change, a window fires a live schedule exactly when it holds a match the search gets to. */
  lemma FiresExactly(task: Task, z: Zone, most: nat, ahead: int, since: int, now: int)
    requires Bounded(z, most) && Fixed(z, ahead)
    ensures Fires(task, z, most, since, now) <==> task.enabled && task.spec.Some? && Due(task.spec.value, z, ahead, since, now)
  {
    hide Due, Answer, Bounded, Fixed;
    if task.enabled && task.spec.Some? {
      FirstIsDue(task.spec.value, z, most, ahead, since, now);
    }
  }

  /** The window (since, now] holds an instant whose clock reading the schedule admits. */
  ghost predicate HoldsMatch(task: Task, z: Zone, since: int, now: int)
  {
    task.spec.Some? && exists at :: since < at <= now && Matches(task.spec.value, LocalMinute(z, at))
  }

  /**
   In any zone, every window from `since` that fires a schedule holds a match of
   it if and only if the zone resolves the minute clocks show at `since` to less
   than a minute before it.
   */
  lemma FiredHoldsMatch(z: Zone, most: nat, since: int)
    requires Bounded(z, most)
    ensures (forall task, now :: now >= since && Fires(task, z, most, since, now) ==> HoldsMatch(task, z, since, now))
            <==> since - z.resolve(LocalMinute(z, since) * 60) < 60
  {
    hide CivilOf, Matches, LocalMinute, Answer, Bounded, Start;
    StartOf(z, since);
    if Start(z, since) > since {
      forall task, now | Fires(task, z, most, since, now) ensures HoldsMatch(task, z, since, now) {
        AnswerIs(task.spec.value, z, most, since);
        assert since < NextOf(task, z, most, since).value <= now;
      }
    } else {
      var every := EveryMinute();
      var task := Task("", true, Some(every));
      AnswerAtStart(every, z, most, since);
      assert Fires(task, z, most, since, since) && !HoldsMatch(task, z, since, since);
    }
  }

  ghost predicate Ticks(clock: seq<int>)
  {
    clock != [] && forall i, j :: 0 <= i < j < |clock| ==> clock[i] <= clock[j]
  }

  /** Every instant a run spans lies in exactly one of its windows. */
  lemma {:induction false} WindowsTile(clock: seq<int>, at: int) returns (k: nat)
    requires Ticks(clock) && clock[0] < at <= clock[|clock| - 1]
    ensures k + 1 < |clock| && clock[k] < at <= clock[k + 1]
    ensures forall j :: 0 <= j < |clock| - 1 && clock[j] < at <= clock[j + 1] ==> j == k
    decreases |clock|
  {
    if at <= clock[1] {
      k := 0;
    } else {
      var r := WindowsTile(clock[1..], at);
      k := r + 1;
      assert clock[1..][r] == clock[k] && clock[1..][r + 1] == clock[k + 1];
    }
    assert forall j :: 0 <= j < |clock| - 1 ==> j == k || (j < k && clock[j + 1] <= clock[k]) || (k < j && clock[k + 1] <= clock[j]);
  }

  /**
   Over a whole run, each matching minute falls in exactly one window, and that
   window fires it, provided the search from the window's start reaches
   the minute's year.
   */
  lemma EveryMatchFires(task: Task, z: Zone, most: nat, ahead: int, clock: seq<int>, m: int) returns (k: nat)
    requires Bounded(z, most) && Fixed(z, ahead) && Ticks(clock) && task.enabled && task.spec.Some?
    requires Matches(task.spec.value, m) && clock[0] < m * 60 - ahead <= clock[|clock| - 1]
    ensures k + 1 < |clock| && clock[k] < m * 60 - ahead <= clock[k + 1]
    ensures forall j :: 0 <= j < |clock| - 1 && clock[j] < m * 60 - ahead <= clock[j + 1] ==> j == k
    ensures CivilOf(m).year <= CivilOf(LocalMinute(z, clock[k]) + 1).year + 5 ==>
              Fires(task, z, most, clock[k], clock[k + 1])
  {
    hide CivilOf, Matches, Ticks, LocalMinute, Fires, Bounded, Fixed;
    k := WindowsTile(clock, m * 60 - ahead);
    FiresExactly(task, z, most, ahead, clock[k], clock[k + 1]);
    if CivilOf(m).year <= CivilOf(LocalMinute(z, clock[k]) + 1).year + 5 {
      assert MatchIn(task.spec.value, z, ahead, clock[k], clock[k + 1], m);
    }
  }

  /** A window no longer than five years never outruns the search: it fires a live schedule exactly when it holds a match. */
  lemma ShortWindow(task: Task, z: Zone, most: nat, ahead: int, since: int, now: int)
    requires Bounded(z, most) && Fixed(z, ahead) && task.enabled && task.spec.Some?
    requires CivilOf(LocalMinute(z, now)).year <= CivilOf(LocalMinute(z, since) + 1).year + 5
    ensures Fires(task, z, most, since, now) <==> exists m :: Matches(task.spec.value, m) && since < m * 60 - ahead <= now
  {
    hide CivilOf, Matches, LocalMinute, Fires, Bounded, Fixed, MatchIn;
    FiresExactly(task, z, most, ahead, since, now);
    FixedMinute(z, ahead, now);
    var s := task.spec.value;
    forall m ensures MatchIn(s, z, ahead, since, now, m) <==> Matches(s, m) && since < m * 60 - ahead <= now {
      InWindow(s, z, ahead, since, now, m);
      if Matches(s, m) && since < m * 60 - ahead <= now {
        YearOrder(m, LocalMinute(z, now));
      }
    }
  }

  // ------------------------------------------------------ an hour shown twice

  /** `30 1 * * *` */
  const HALF_PAST_ONE := Spec({30}, {1}, UpTo(1, 31), UpTo(1, 12), UpTo(0, 6), true, true)

  lemma HalfPastOne(m: int)
    requires 60 <= m < 120
    ensures Matches(HALF_PAST_ONE, m) <==> m == 90
  {
    hide CivilOf, UpTo;
    HourOne(m);
  }

  /** In the second showing of an hour, a live schedule that admits a reading from the next one on fires in every window from there. */
  lemma FiresEarly(task: Task, since: int, now: int)
    requires task.enabled && task.spec.Some? && 21600 <= since < 25200 && since <= now
    requires exists m :: NextReading(since) <= m < 120 && Matches(task.spec.value, m)
    ensures Bounded(FOLD, 18000) && Fires(task, FOLD, 18000, since, now)
  {
    hide Matches, Answer, Bounded, FOLD, NextReading;
    FoldGoesBack(task.spec.value, since);
  }

  /**
   `30 1 * * *` in the second showing of one o'clock: every window up to half past
   fires, though no clock in it shows half past one.
   */
  lemma FiresAgain(task: Task, since: int, now: int)
    requires task.enabled && task.spec == Some(HALF_PAST_ONE) && 21600 <= since < now < 23400
    ensures Bounded(FOLD, 18000) && Fires(task, FOLD, 18000, since, now) && !HoldsMatch(task, FOLD, since, now)
  {
    hide CivilOf, Bounded, FOLD, UpTo, Matches, LocalMinute, Fires;
    FoldShows(since);
    HalfPastOne(90);
    FiresEarly(task, since, now);
    forall at | since < at <= now ensures !Matches(HALF_PAST_ONE, LocalMinute(FOLD, at)) {
      FoldShows(at);
      HalfPastOne(LocalMinute(FOLD, at));
    }
  }
}
