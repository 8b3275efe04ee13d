/**
 The cron engine: a parsed expression, and the search for the next minute it
 admits. A field's mask is the set of values it admits.
 */
module Cron {
  import opened Options
  import opened Calendar

  datatype Spec = Spec(minute: set<int>, hour: set<int>, dom: set<int>, month: set<int>, dow: set<int>,
                       domStar: bool, dowStar: bool)

  /** Both day fields when either began with `*`, either one when both were narrowed. */
  predicate MatchDay(s: Spec, m: int)
  {
    var dom, dow := CivilOf(m).day in s.dom, Weekday(m) in s.dow;
    if s.domStar || s.dowStar then dom && dow else dom || dow
  }

  /** The civil minutes an expression admits. */
  predicate Matches(s: Spec, m: int)
  {
    CivilOf(m).month in s.month && MatchDay(s, m) && CivilOf(m).hour in s.hour && CivilOf(m).minute in s.minute
  }

  /** `m` is the first civil minute from `from` on that matches. */
  ghost predicate First(s: Spec, from: int, m: int)
  {
    from <= m && Matches(s, m) && NoneIn(s, from, m)
  }

  ghost predicate NoneIn(s: Spec, from: int, to: int)
  {
    forall k :: from <= k < to ==> !Matches(s, k)
  }

  /** Where the search starts: the minute after the one `t` is in, as the zone resolves it. */
  function Start(z: Zone, t: int): int
  {
    var c := Local(z, t);
    Date(z, c.year, c.month, c.day, c.hour, c.minute) + 60
  }

  /** Where the search goes from a minute that does not match. */
  function Jump(s: Spec, m: int): (next: Option<int>)
    ensures next == None <==> Matches(s, m)
  {
    var c := CivilOf(m);
    if c.month !in s.month then Some(DateMinutes(c.year, c.month + 1, 1, 0, 0))
    else if !MatchDay(s, m) then Some(DateMinutes(c.year, c.month, c.day + 1, 0, 0))
    else if c.hour !in s.hour then Some(DateMinutes(c.year, c.month, c.day, c.hour + 1, 0))
    else if c.minute !in s.minute then Some(DateMinutes(c.year, c.month, c.day, c.hour, c.minute + 1))
    else None
  }

  /** No month, day, hour or minute jump skips a match. */
  lemma JumpSkipsNothing(s: Spec, m: int)
    requires Jump(s, m).Some?
    ensures m < Jump(s, m).value && NoneIn(s, m, Jump(s, m).value)
  {
    hide CivilOf, DateMinutes, Weekday;
    JumpsAhead(m);
    var c := CivilOf(m);
    forall k | m <= k < Jump(s, m).value ensures !Matches(s, k) {
      if c.month !in s.month {
        SameMonth(m, k);
      } else if !MatchDay(s, m) {
        SameDay(m, k);
      } else if c.hour !in s.hour {
        SameHour(m, k);
      }
    }
  }

  /** On clocks that never change, instants and clock readings move together. */
  lemma FixedClock(z: Zone, ahead: int, m: int)
    requires Fixed(z, ahead)
    ensures z.resolve(m * 60) == m * 60 - ahead && LocalMinute(z, m * 60 - ahead) == m
  {}

  lemma FixedStart(z: Zone, ahead: int, t: int)
    requires Fixed(z, ahead)
    ensures Start(z, t) == (LocalMinute(z, t) + 1) * 60 - ahead > t
    ensures LocalMinute(z, Start(z, t)) == LocalMinute(z, t) + 1
  {
    hide CivilOf;
    FixedClock(z, ahead, LocalMinute(z, t));
    FixedClock(z, ahead, LocalMinute(z, t) + 1);
  }

  /** A bound on how late an instant can be while clocks still show a year up to `limit`. */
  lemma YearBound(z: Zone, most: nat, t: int, limit: int)
    requires Bounded(z, most) && Local(z, t).year <= limit
    ensures t < Minutes(Civil(limit + 1, 1, 1, 0, 0)) * 60 + most
  {
    hide CivilOf, DateMinutes, MonthStart;
    var new_year := Civil(limit + 1, 1, 1, 0, 0);
    CivilUnique(new_year);
    if Minutes(new_year) <= LocalMinute(z, t) {
      YearOrder(Minutes(new_year), LocalMinute(z, t));
    }
    assert LocalMinute(z, t) < Minutes(new_year);
    assert z.offset(t) >= 0 - most;
  }

  /** Where the search goes next from a minute that does not match: to the jump's instant, or a minute on when that is not ahead. */
  ghost function Onward(s: Spec, z: Zone, now: int): (next: int)
    requires Jump(s, LocalMinute(z, now)).Some?
    ensures next > now
  {
    var next := z.resolve(Jump(s, LocalMinute(z, now)).value * 60);
    if next <= now then now + 60 else next
  }

  /** What the search from `now` finds while clocks show no later year than `limit`. */
  ghost function Search(s: Spec, z: Zone, most: nat, limit: int, now: int): Option<int>
    requires Bounded(z, most)
    decreases Minutes(Civil(limit + 1, 1, 1, 0, 0)) * 60 + most - now
  {
    hide CivilOf, DateMinutes, Weekday, Matches, Jump, Bounded;
    if Local(z, now).year > limit then None
    else if Jump(s, LocalMinute(z, now)) == None then Some(now)
    else
      YearBound(z, most, now, limit);
      Search(s, z, most, limit, Onward(s, z, now))
  }

  /** The answer for `t`: from the minute after the one `t` is in, through the fifth year on. */
  ghost function Answer(s: Spec, z: Zone, most: nat, t: int): Option<int>
    requires Bounded(z, most)
  {
    Search(s, z, most, Local(z, Start(z, t)).year + 5, Start(z, t))
  }

  /** In any zone, what is found matches and is not behind the search's start; a match there is what is found. */
  lemma {:induction false} SearchSound(s: Spec, z: Zone, most: nat, limit: int, now: int)
    requires Bounded(z, most)
    ensures var r := Search(s, z, most, limit, now);
            && (r.Some? ==> Matches(s, LocalMinute(z, r.value)) && now <= r.value && Local(z, r.value).year <= limit)
            && (Matches(s, LocalMinute(z, now)) && Local(z, now).year <= limit ==> r == Some(now))
    decreases Minutes(Civil(limit + 1, 1, 1, 0, 0)) * 60 + most - now
  {
    hide CivilOf, DateMinutes, Weekday, Matches, Jump, Onward, Bounded;
    if Local(z, now).year <= limit && Jump(s, LocalMinute(z, now)).Some? {
      YearBound(z, most, now, limit);
      SearchSound(s, z, most, limit, Onward(s, z, now));
    }
  }

  /** On clocks that never change, it is the first match, or there is none through the limit year. */
  lemma {:induction false} SearchLeast(s: Spec, z: Zone, most: nat, ahead: int, limit: int, now: int)
    requires Bounded(z, most) && Fixed(z, ahead) && now == LocalMinute(z, now) * 60 - ahead
    ensures var r, from := Search(s, z, most, limit, now), LocalMinute(z, now);
            && (r.Some? ==> First(s, from, LocalMinute(z, r.value)) && r.value == LocalMinute(z, r.value) * 60 - ahead)
            && (r.None? ==> forall m :: from <= m && CivilOf(m).year <= limit ==> !Matches(s, m))
    decreases Minutes(Civil(limit + 1, 1, 1, 0, 0)) * 60 + most - now
  {
    hide CivilOf, DateMinutes, Weekday, Matches, Jump, Onward, Bounded, Fixed, LocalMinute;
    var m := LocalMinute(z, now);
    if Local(z, now).year > limit {
      forall k | m <= k ensures CivilOf(k).year > limit {
        YearOrder(m, k);
      }
    } else if Jump(s, m).Some? {
      YearBound(z, most, now, limit);
      JumpSkipsNothing(s, m);
      FixedOnward(s, z, ahead, now);
      SearchLeast(s, z, most, ahead, limit, Onward(s, z, now));
    }
  }

  lemma FixedOnward(s: Spec, z: Zone, ahead: int, now: int)
    requires Fixed(z, ahead) && now == LocalMinute(z, now) * 60 - ahead && Jump(s, LocalMinute(z, now)).Some?
    ensures var jump := Jump(s, LocalMinute(z, now)).value;
            Onward(s, z, now) == jump * 60 - ahead && LocalMinute(z, Onward(s, z, now)) == jump
  {
    hide Jump, Matches, CivilOf;
    JumpSkipsNothing(s, LocalMinute(z, now));
    FixedClock(z, ahead, Jump(s, LocalMinute(z, now)).value);
  }

  /**
   What `NextAfter` answers. In any zone the answer matches and is no earlier than
   the search's start, so after `t` whenever that is. On clocks that never change
   it is the least matching minute strictly after `t`, and there is none exactly
   when no minute through the end of the limit year matches.
   */
  lemma AnswerIs(s: Spec, z: Zone, most: nat, t: int)
    requires Bounded(z, most)
    ensures var r := Answer(s, z, most, t);
            && (r.Some? ==> Matches(s, LocalMinute(z, r.value)) && r.value >= Start(z, t))
            && (Matches(s, LocalMinute(z, Start(z, t))) ==> r == Some(Start(z, t)))
    ensures forall ahead :: Fixed(z, ahead) ==>
              var r, from := Answer(s, z, most, t), LocalMinute(z, t) + 1;
              var limit := CivilOf(from).year + 5;
              && (r.Some? ==> First(s, from, LocalMinute(z, r.value)) && r.value == LocalMinute(z, r.value) * 60 - ahead > t
                              && CivilOf(LocalMinute(z, r.value)).year <= limit)
              && (r.None? ==> forall m :: from <= m && CivilOf(m).year <= limit ==> !Matches(s, m))
  {
    hide CivilOf, DateMinutes, Weekday, Matches, Search, Bounded, Fixed, Start, LocalMinute, NoneIn;
    var now := Start(z, t);
    var limit := Local(z, now).year + 5;
    SearchSound(s, z, most, limit, now);
    forall ahead | Fixed(z, ahead)
      ensures now == LocalMinute(z, now) * 60 - ahead > t && LocalMinute(z, now) == LocalMinute(z, t) + 1
      ensures var r := Search(s, z, most, limit, now);
              && (r.Some? ==> First(s, LocalMinute(z, now), LocalMinute(z, r.value)) && r.value == LocalMinute(z, r.value) * 60 - ahead)
              && (r.None? ==> forall m :: LocalMinute(z, now) <= m && CivilOf(m).year <= limit ==> !Matches(s, m))
    {
      FixedStart(z, ahead, t);
      SearchLeast(s, z, most, ahead, limit, now);
    }
  }

  /** `NextAfter`. `most` bounds how far the zone's clocks are off, and only shows that the search ends. */
  method NextAfter(s: Spec, z: Zone, t: int, ghost most: nat) returns (r: Option<int>)
    requires Bounded(z, most)
    ensures r == Answer(s, z, most, t)
  {
    hide CivilOf, DateMinutes, Weekday, Matches, Jump, Bounded;
    var now := Start(z, t);
    var limit := Local(z, now).year + 5;
    while Local(z, now).year <= limit
      invariant Search(s, z, most, limit, now) == Answer(s, z, most, t)
      decreases Minutes(Civil(limit + 1, 1, 1, 0, 0)) * 60 + most - now
    {
      YearBound(z, most, now, limit);
      var jump := Jump(s, LocalMinute(z, now));
      if jump == None {
        return Some(now);
      }
      var next := z.resolve(jump.value * 60);
      if next <= now {
        next := now + 60;
      }
      now := next;
    }
    return None;
  }

  function UpTo(lo: int, hi: int): (s: set<int>)
    ensures forall v :: v in s <==> lo <= v <= hi
    decreases hi - lo
  {
    if hi < lo then {} else UpTo(lo, hi - 1) + {hi}
  }

  /** `* * * * *` */
  lemma EveryMinute() returns (s: Spec)
    ensures forall m :: Matches(s, m)
  {
    hide CivilOf, UpTo;
    s := Spec(UpTo(0, 59), UpTo(0, 23), UpTo(1, 31), UpTo(1, 12), UpTo(0, 6), true, true);
    forall m ensures Matches(s, m) {
      assert Valid(CivilOf(m)) && 0 <= Weekday(m) <= 6;
    }
  }

  lemma AnswerAtStart(s: Spec, z: Zone, most: nat, t: int)
    requires Bounded(z, most) && Matches(s, LocalMinute(z, Start(z, t)))
    ensures Answer(s, z, most, t) == Some(Start(z, t))
  {
    hide *;
    AnswerIs(s, z, most, t);
  }

  /** The search starts after `t` exactly when the zone resolves the minute clocks show at `t` to less than a minute before it. */
  lemma StartOf(z: Zone, t: int)
    ensures Start(z, t) == z.resolve(LocalMinute(z, t) * 60) + 60
    ensures Start(z, t) > t <==> t - z.resolve(LocalMinute(z, t) * 60) < 60
  {
    hide CivilOf;
  }

  /**
   In any zone, `NextAfter` answers strictly after `t` whatever the expression if
   and only if the zone resolves the minute clocks show at `t` to less than a
   minute before it.
   */
  lemma AfterExactly(z: Zone, most: nat, t: int)
    requires Bounded(z, most)
    ensures (forall s :: Answer(s, z, most, t).Some? ==> Answer(s, z, most, t).value > t)
            <==> t - z.resolve(LocalMinute(z, t) * 60) < 60
  {
    hide *;
    StartOf(z, t);
    var every := EveryMinute();
    AnswerAtStart(every, z, most, t);
    forall s | Answer(s, z, most, t).Some? ensures Answer(s, z, most, t).value >= Start(z, t) {
      AnswerIs(s, z, most, t);
    }
  }

  // -------------------------------------------------- clocks that go back

  /** The instant Go's `time.Date` names: the offset is looked up at the reading taken as UTC, and once more at the instant that gives. */
  function Named(offset: int -> int, l: int): int
  {
    if offset(l) == 0 then l else l - offset(l - offset(l))
  }

  function Resolving(offset: int -> int): Zone
  {
    Zone(offset, l => Named(offset, l))
  }

  /** West of Greenwich, clocks that go back an hour at instant 21600: they show one to two o'clock twice. */
  const FOLD := Resolving(t => if t < 21600 then -14400 else -18000)

  lemma FoldBounded()
    ensures Bounded(FOLD, 18000)
  {}

  /** What the zone's clocks show, in minutes since the calendar began. */
  lemma FoldShows(t: int)
    ensures LocalMinute(FOLD, t) == (if t < 21600 then t - 14400 else t - 18000) / 60
  {}

  /** A reading up to two o'clock names an instant of its first showing; those from then on are shown once. */
  lemma FoldNames(l: int)
    ensures FOLD.resolve(l) == if l < 7200 then l + 14400 else l + 18000
  {
    hide FOLD;
    FoldOffset(l);
    FoldOffset(l - FOLD.offset(l));
    FoldResolves(l);
  }

  lemma FoldOffset(t: int)
    ensures FOLD.offset(t) == if t < 21600 then -14400 else -18000
  {
    hide Named;
  }

  lemma FoldResolves(l: int)
    ensures FOLD.resolve(l) == Named(FOLD.offset, l)
  {
    hide Named;
  }

  lemma FoldStart(t: int)
    ensures t < 25200 ==> Start(FOLD, t) == LocalMinute(FOLD, t) * 60 + 14460
  {
    hide CivilOf, DateMinutes;
    StartOf(FOLD, t);
    FoldShows(t);
    FoldNames(LocalMinute(FOLD, t) * 60);
  }

  /** The calendar's second hour. */
  lemma HourOne(m: int)
    requires 60 <= m < 120
    ensures CivilOf(m) == Civil(1, 1, 1, 1, m - 60)
  {
    hide CivilOf, DateMinutes, MonthStart;
    var c := Civil(1, 1, 1, 1, m - 60);
    FirstMonth();
    assert Minutes(c) == m by { DayZero(c); }
    CivilUnique(c);
  }

  lemma DayZero(c: Civil)
    requires c.year == 1 && c.month == 1 && c.day == 1
    ensures Minutes(c) == c.hour * 60 + c.minute && (Valid(c) <==> 0 <= c.hour < 24 && 0 <= c.minute < 60)
  {
    hide MonthStart;
    FirstMonth();
  }

  /** What the search goes on to from a minute of either showing: the next reading looked at there, or two o'clock. */
  lemma FoldOnward(s: Spec, now: int)
    requires 18000 <= now < 25200 && now % 60 == 0 && Jump(s, LocalMinute(FOLD, now)).Some?
    ensures var m, next := LocalMinute(FOLD, now), Onward(s, FOLD, now);
            var n := if next < 25200 then LocalMinute(FOLD, next) else 120;
            && 60 <= m < n <= 120 && next % 60 == 0 && NoneIn(s, m, n)
            && (next < 25200 ==> next - n * 60 == now - m * 60)
  {
    hide CivilOf, FOLD, Jump, LocalMinute, Matches;
    FoldShows(now);
    var m := LocalMinute(FOLD, now);
    JumpSkipsNothing(s, m);
    FoldNames(Jump(s, m).value * 60);
    FoldShows(Onward(s, FOLD, now));
  }

  /** From a minute of either showing the search finds the first reading of that showing that matches, or nothing before two o'clock. */
  lemma {:induction false} FoldSearch(s: Spec, limit: int, now: int)
    requires 18000 <= now < 25200 && now % 60 == 0 && limit >= 1
    ensures Bounded(FOLD, 18000)
    ensures var r, m := Search(s, FOLD, 18000, limit, now), LocalMinute(FOLD, now);
            && (r.Some? && r.value < 25200 ==>
                  && First(s, m, LocalMinute(FOLD, r.value)) && LocalMinute(FOLD, r.value) < 120
                  && r.value - LocalMinute(FOLD, r.value) * 60 == now - m * 60)
            && (r.None? || r.value >= 25200 ==> NoneIn(s, m, 120))
    decreases 25200 - now
  {
    hide CivilOf, DateMinutes, Bounded, FOLD, Jump, Onward, LocalMinute, Matches;
    FoldBounded();
    FoldShows(now);
    var m := LocalMinute(FOLD, now);
    HourOne(m);
    if Jump(s, m).Some? {
      var next := Onward(s, FOLD, now);
      FoldOnward(s, now);
      if next < 25200 {
        FoldSearch(s, limit, next);
      } else {
        SearchSound(s, FOLD, 18000, limit, next);
      }
    }
  }

  /** The reading the search looks at first for an instant of the second showing: the next one, or one o'clock after the last. */
  function NextReading(t: int): int
  {
    if LocalMinute(FOLD, t) < 119 then LocalMinute(FOLD, t) + 1 else 60
  }

  /**
   In the second showing of an hour clocks show twice, the answer is not after `t`
   if and only if the expression admits one of the hour's readings from the next
   one on, or any of them in its last minute: the search starts over in the first
   showing, or at the top of the second.
   */
  lemma FoldGoesBack(s: Spec, t: int)
    requires 21600 <= t < 25200
    ensures Bounded(FOLD, 18000)
    ensures var r := Answer(s, FOLD, 18000, t);
            && (r.Some? && r.value <= t <==> exists m :: NextReading(t) <= m < 120 && Matches(s, m))
            && (r.Some? && r.value <= t ==>
                  && First(s, NextReading(t), LocalMinute(FOLD, r.value))
                  && r.value == LocalMinute(FOLD, r.value) * 60 + if t < 25140 then 14400 else 18000)
  {
    hide CivilOf, FOLD, LocalMinute, Search, Bounded, Matches, Start, DateMinutes;
    FoldBounded();
    FoldStart(t);
    FoldShows(t);
    var now := Start(FOLD, t);
    FoldShows(now);
    HourOne(LocalMinute(FOLD, now));
    FoldSearch(s, Local(FOLD, now).year + 5, now);
    var r := Answer(s, FOLD, 18000, t);
    if r.Some? && r.value < 25200 {
      FoldShows(r.value);
      assert Matches(s, LocalMinute(FOLD, r.value));
    }
  }
}
