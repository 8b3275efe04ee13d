/**
 What an expression says: how its day fields combine, the first instant that is
 as the written entries say, and which written entries are accepted.
 */
module CronMeaning {
  import opened Options
  import opened Calendar
  import opened Text
  import opened Cron
  import opened CronSteps
  import opened CronParse
  import Decimal

  // ------------------------------------------------------------ the fields

  /** Each field's least and greatest value, and where it is numbered by name. */
  lemma FieldsAre()
    ensures (MINUTE.min, MINUTE.max) == (0, 59) && (HOUR.min, HOUR.max) == (0, 23) && (DOM.min, DOM.max) == (1, 31)
    ensures (MONTH.min, MONTH.max) == (1, 12) && (DOW.min, DOW.max) == (0, 7)
    ensures MINUTE.names == HOUR.names == DOM.names == map[] && MONTH.names == MONTH_NAMES && DOW.names == DAY_NAMES
  {}

  /** Months are numbered from January as 1. */
  lemma MonthsAre()
    ensures forall k :: 0 <= k < 12 ==>
              var name := ["jan", "feb", "mar", "apr", "may", "jun", "jul", "aug", "sep", "oct", "nov", "dec"][k];
              name in MONTH_NAMES && MONTH_NAMES[name] == k + 1
  {}

  /** Weekdays are numbered from Sunday as 0. */
  lemma WeekdaysAre()
    ensures forall k :: 0 <= k < 7 ==>
              var name := ["sun", "mon", "tue", "wed", "thu", "fri", "sat"][k];
              name in DAY_NAMES && DAY_NAMES[name] == k
  {}

  // ------------------------------------------------------------ the day rule

  ghost predicate EveryDay(days: set<int>)
  {
    forall d :: 1 <= d <= 31 ==> d in days
  }

  ghost predicate EveryWeekday(days: set<int>)
  {
    forall d :: 0 <= d < 7 ==> d in days
  }

  /**
   With both day fields narrowed, an expression admits what it admits with either
   of them left open: the days of one and the weekdays of the other.
   */
  lemma NarrowedBoth(s: Spec, days: set<int>, weekdays: set<int>, m: int)
    requires !s.domStar && !s.dowStar && EveryDay(days) && EveryWeekday(weekdays)
    ensures Matches(s, m) <==> Matches(s.(dom := days, domStar := true), m) || Matches(s.(dow := weekdays, dowStar := true), m)
  {
    hide CivilOf;
    DayThere(m);
  }

  lemma DayThere(m: int)
    ensures 1 <= CivilOf(m).day <= 31 && 0 <= Weekday(m) < 7
  {
    hide CivilOf;
    assert Valid(CivilOf(m));
  }

  /**
   With a star at the front of either, a minute has to be on a day of the one and
   on a weekday of the other, and opening the starred field only admits more.
   */
  lemma StarredDay(s: Spec, days: set<int>, weekdays: set<int>, m: int)
    requires (s.domStar || s.dowStar) && EveryDay(days) && EveryWeekday(weekdays)
    ensures Matches(s, m) ==> CivilOf(m).day in s.dom && Weekday(m) in s.dow
    ensures Matches(s, m) ==> (s.domStar ==> Matches(s.(dom := days), m)) && (s.dowStar ==> Matches(s.(dow := weekdays), m))
    ensures CivilOf(m).day in s.dom && Weekday(m) in s.dow ==>
              (Matches(s, m) <==> CivilOf(m).month in s.month && CivilOf(m).hour in s.hour && CivilOf(m).minute in s.minute)
  {
    hide CivilOf;
    DayThere(m);
  }

  // --------------------------------------------------- the instant it names

  /** Some entry of a field stands for the value. */
  ghost predicate Listed(items: seq<Item>, def: FieldDef, v: int)
    requires GoodItems(items, def)
  {
    exists i :: 0 <= i < |items| && Admits(items[i], def, v)
  }

  /** A minute is as an expression says: in a month, at an hour and a minute it lists, on a day it asks for. */
  ghost predicate Says(w: Written, m: int)
    requires GoodWritten(w)
  {
    var c := CivilOf(m);
    var day, weekday := Listed(w.dom, DOM, c.day), Listed(w.dow, DOW, Weekday(m));
    && Listed(w.month, MONTH, c.month) && Listed(w.hour, HOUR, c.hour) && Listed(w.minute, MINUTE, c.minute)
    && if w.dom[0].Star? || w.dow[0].Star? then day && weekday else day || weekday
  }

  lemma SaysMatches(w: Written, s: Spec, m: int)
    requires GoodWritten(w)
    requires Means(s.minute, w.minute, MINUTE) && Means(s.hour, w.hour, HOUR) && Means(s.dom, w.dom, DOM)
    requires Means(s.month, w.month, MONTH) && Means(s.dow, w.dow, DOW)
    requires s.domStar == w.dom[0].Star? && s.dowStar == w.dow[0].Star?
    ensures Matches(s, m) <==> Says(w, m)
  {
    hide CivilOf, Weekday, Admits, GoodItem, Calendar.Valid, MONTH_NAMES, DAY_NAMES;
  }

  /**
   A written expression asked for its next instant, on clocks that never change:
   the answer is as it says, and no minute from the one after `t` to the answer is;
   without an answer none is to the end of the fifth year on.
   */
  lemma AnswerAsSaid(w: Written, z: Zone, most: nat, ahead: int, t: int) returns (s: Spec)
    requires GoodWritten(w) && Bounded(z, most) && Fixed(z, ahead)
    ensures Fields(RenderSpec(w)) == RenderedFields(w) && SpecOf(RenderedFields(w)) == Some(s)
    ensures var r, from := Answer(s, z, most, t), LocalMinute(z, t) + 1;
            && (r.Some? ==>
                  var m := LocalMinute(z, r.value);
                  r.value == m * 60 - ahead > t && from <= m && Says(w, m) && forall k :: from <= k < m ==> !Says(w, k))
            && (r.None? ==> forall k :: from <= k && CivilOf(k).year <= CivilOf(from).year + 5 ==> !Says(w, k))
  {
    hide *;
    s := SpecOfRender(w);
    AnswerIs(s, z, most, t);
    forall m ensures Matches(s, m) <==> Says(w, m) {
      SaysMatches(w, s, m);
    }
    var r, from := Answer(s, z, most, t), LocalMinute(z, t) + 1;
    if r.Some? {
      FirstIs(s, from, LocalMinute(z, r.value));
    }
  }

  lemma FirstIs(s: Spec, from: int, m: int)
    requires First(s, from, m)
    ensures from <= m && Matches(s, m) && forall k :: from <= k < m ==> !Matches(s, k)
  {
    hide Matches;
  }

  /** A field whose first and only entry is a bare star lists every value. */
  lemma LoneStar(def: FieldDef, v: int)
    requires GoodDef(def) && def.min <= v <= def.max && (def.max == 7 ==> v < 7)
    ensures GoodItems([Star(None)], def) && Listed([Star(None)], def, v)
  {
    assert GoodItem(Star(None), def) && [Star(None)][0] == Star(None);
    assert OnStep(def.min, def.max, 1, v) && Fold(def, v) == v;
    assert Admits([Star(None)][0], def, v);
  }

  /** With the day of month a bare star, what counts of a day is its weekday: `0 0 * * 5` is Fridays. */
  lemma Weekly(w: Written, m: int)
    requires GoodWritten(w) && w.dom == [Star(None)]
    ensures Says(w, m) <==>
            && Listed(w.month, MONTH, CivilOf(m).month) && Listed(w.hour, HOUR, CivilOf(m).hour)
            && Listed(w.minute, MINUTE, CivilOf(m).minute) && Listed(w.dow, DOW, Weekday(m))
  {
    hide CivilOf, Weekday, Admits, Listed, MONTH_NAMES, DAY_NAMES;
    DayThere(m);
    GoodDefs();
    LoneStar(DOM, CivilOf(m).day);
  }

  /** With the weekday a bare star, what counts is its day of month: `0 0 13 * *` is the 13th. */
  lemma Monthly(w: Written, m: int)
    requires GoodWritten(w) && w.dow == [Star(None)]
    ensures Says(w, m) <==>
            && Listed(w.month, MONTH, CivilOf(m).month) && Listed(w.hour, HOUR, CivilOf(m).hour)
            && Listed(w.minute, MINUTE, CivilOf(m).minute) && Listed(w.dom, DOM, CivilOf(m).day)
  {
    hide CivilOf, Weekday, Admits, Listed, MONTH_NAMES, DAY_NAMES;
    DayThere(m);
    GoodDefs();
    LoneStar(DOW, Weekday(m));
  }

  /** A field of one number lists it alone, but for 7, which is Sunday. */
  lemma LoneNumber(def: FieldDef, n: nat, v: int)
    requires GoodDef(def) && def.min <= n <= def.max
    ensures GoodItems([Value(Number(n), None)], def)
    ensures Listed([Value(Number(n), None)], def, v) <==> v == if def.max == 7 && n == 7 then 0 else n
  {
    hide GoodName;
    var item := Value(Number(n), None);
    assert GoodItem(item, def) && [item][0] == item;
    OnlyN(n);
    assert Reaches(n, n, 1, n);
    assert Admits(item, def, v) <==> v == Fold(def, n);
    assert Listed([item], def, v) <==> Admits([item][0], def, v);
  }

  lemma OnlyN(n: nat)
    requires n < 64
    ensures forall v :: Reaches(n, n, 1, v) <==> v == n
  {
    hide OnStep, Wraps;
    forall v ensures Reaches(n, n, 1, v) <==> v == n {
      OnlyItself(n, n, 1, v);
      NeverWraps(n, 1, v);
    }
  }

  /**
   What an entry stands for, its step not wrapping: a star every step-th value of
   the field from its least; a number itself, or with a step above 1 every step-th
   from it to the field's greatest; a range every step-th of it; 7 for Sunday is 0.
   */
  lemma ListedPlainly(item: Item, def: FieldDef, d: int)
    requires GoodDef(def) && (def.max == 7 ==> def.min == 0) && GoodItem(item, def)
    requires Bounds(item, def).0 + 2 * StepSize(item) < TWO_64
    ensures var n := if item.step.Some? then item.step.value else 1;
            Admits(item, def, d) <==>
              exists v :: (match item
                           case Star(_) => def.min <= v <= def.max && (v - def.min) % n == 0
                           case Value(x, _) =>
                             var a := ValueOf(x, def);
                             if n == 1 then v == a else a <= v <= def.max && (v - a) % n == 0
                           case Span(x, y, _) => ValueOf(x, def) <= v <= ValueOf(y, def) && (v - ValueOf(x, def)) % n == 0)
                          && Sunday(def, v, d)
  {
    hide GoodDef, Admits, Fold;
    ReadAsSaid(item, def);
    forall v ensures Fold(def, v) == d <==> Sunday(def, v, d) {
      SundayIs(def, v, d);
    }
    assert Admits(item, def, d) <==> Intends(item, def, d);
  }

  /** The value a weekday field's 7 stands for is 0; any other stands for itself. */
  ghost predicate Sunday(def: FieldDef, v: int, d: int)
  {
    d == if def.max == 7 && v == 7 then 0 else v
  }

  lemma SundayIs(def: FieldDef, v: int, d: int)
    ensures Fold(def, v) == d <==> Sunday(def, v, d)
  {}

  // ------------------------------------------------------- what is accepted

  /** A number, or a word of letters. */
  ghost predicate Readable(x: Spelling)
  {
    x.Name? ==> GoodName(Lower(x.text))
  }

  ghost predicate ReadableItem(item: Item)
  {
    (item.Value? || item.Span? ==> Readable(item.from)) && (item.Span? ==> Readable(item.to))
  }

  lemma {:induction false} NoNumber(s: string)
    requires s != [] && forall i :: 0 <= i < |s| ==> !Decimal.IsDigit(s[i])
    ensures Decimal.Value(s) == None
  {}

  lemma WordIsNoNumber(s: string)
    requires GoodName(Lower(s))
    ensures Decimal.Parse(s) == None
  {
    hide LowerChar;
    forall i | 0 <= i < |s| ensures !Decimal.IsDigit(s[i]) && s[i] != '-' && s[i] != '+' {
      assert LowerChar(s[i]) == Lower(s)[i];
      Letter(s[i]);
    }
    NoNumber(s);
  }

  lemma Letter(c: char)
    requires 'a' <= LowerChar(c) <= 'z'
    ensures !Decimal.IsDigit(c) && c != '-' && c != '+'
  {}

  lemma BigNumber(n: nat)
    ensures Decimal.Parse(Decimal.Format(n)) == if n <= Decimal.INT64_MAX then Some(n) else None
  {
    Decimal.ValueOfFormat(n);
  }

  /** A number is accepted if it is in the field's bounds, a word if it is one of its names. */
  lemma ReadableValue(x: Spelling, def: FieldDef)
    requires GoodDef(def) && Readable(x)
    ensures Plain(RenderValue(x)) && Bare(RenderValue(x))
    ensures ParseValue(RenderValue(x), def).Some? <==> GoodSpelling(x, def)
    ensures GoodSpelling(x, def) ==> ParseValue(RenderValue(x), def) == Some(ValueOf(x, def))
  {
    hide IsSpace, LowerChar, Decimal.IsDigit, Decimal.Parse, Trim;
    var s := RenderValue(x);
    forall i | 0 <= i < |s| ensures PlainChar(s[i]) {
      PlainChars(s[i]);
      if x.Name? { assert 'a' <= Lower(s)[i] <= 'z'; }
    }
    TrimBare(s);
    if x.Number? {
      PlainChars(s[0]);
      assert !GoodName(Lower(s));
      BigNumber(x.v);
    } else {
      WordIsNoNumber(s);
    }
  }

  lemma ReadableBase(item: Item, def: FieldDef)
    requires GoodDef(def) && ReadableItem(item)
    ensures var s := RenderBase(item); s != [] && Bare(s) && '/' !in s && ',' !in s
    ensures item.Star? <==> StartsWithStar(RenderBase(item))
    ensures RenderBase(item) == "*" <==> item.Star?
  {
    hide GoodDef, ParseValue, Readable, GoodSpelling;
    match item {
      case Star(_) =>
      case Value(a, _) => ReadableValue(a, def);
      case Span(a, b, _) =>
        ReadableValue(a, def);
        ReadableValue(b, def);
    }
  }

  lemma StepRead(base: string, n: nat)
    requires Bare(base) && '/' !in base
    ensures StepOf(base + ['/'] + Decimal.Format(n)) == if 1 <= n <= Decimal.INT64_MAX then Some((base, n)) else None
    ensures StepOf(base) == Some((base, 1))
  {
    if 1 <= n <= Decimal.INT64_MAX {
      hide StepOf;
      RenderedStep(base, n);
    } else {
      hide IsSpace, Decimal.IsDigit, Trim, Decimal.Parse;
      var s := base + ['/'] + Decimal.Format(n);
      assert s[|base| + 1..] == Decimal.Format(n);
      FirstIndex(s, |base|, '/');
      FirstIndex(base, |base|, '/');
      forall c: char ensures Decimal.IsDigit(c) ==> PlainChar(c) {
        PlainChars(c);
      }
      TrimBare(Decimal.Format(n));
      BigNumber(n);
    }
  }

  lemma RenderBare(item: Item, def: FieldDef)
    requires GoodDef(def) && ReadableItem(item)
    ensures var s := Render(item); s != [] && Bare(s) && ',' !in s && Trim(s) == s
  {
    hide *;
    ReadableBase(item, def);
    RenderedText(item);
    BaseFirst(item);
    TrimBare(Render(item));
  }

  lemma BaseFirst(item: Item)
    requires RenderBase(item) != []
    ensures Render(item) != []
  {
    hide RenderBase;
  }

  /** What stands between an item's ends, read: a range whose bounds are in order, or a value. */
  lemma BaseRead(item: Item, def: FieldDef)
    requires GoodDef(def) && ReadableItem(item) && !item.Star?
    ensures var base := RenderBase(item);
            var dash := IndexOf(base, '-');
            if item.Value? then
              dash == |base| && (ParseValue(base, def).Some? <==> GoodSpelling(item.from, def))
            else
              && dash < |base|
              && (ParseValue(base[..dash], def).Some? <==> GoodSpelling(item.from, def))
              && (ParseValue(base[dash + 1..], def).Some? <==> GoodSpelling(item.to, def))
              && (GoodSpelling(item.from, def) && GoodSpelling(item.to, def) ==>
                    && ParseValue(base[..dash], def) == Some(ValueOf(item.from, def))
                    && ParseValue(base[dash + 1..], def) == Some(ValueOf(item.to, def)))
  {
    hide GoodDef, ParseValue, IsSpace, GoodSpelling, Readable, ValueOf;
    var base := RenderBase(item);
    ReadableValue(item.from, def);
    if item.Value? {
      FirstIndex(base, |base|, '-');
    } else {
      ReadableValue(item.to, def);
      var x := RenderValue(item.from);
      assert base[..|x|] == x && base[|x| + 1..] == RenderValue(item.to);
      FirstIndex(base, |x|, '-');
    }
  }

  /**
   A written entry is accepted if and only if its step is at least 1 and fits 64
   bits, its numbers are in the field's bounds and its words among the field's
   names, and a range runs forwards.
   */
  lemma ItemAccepted(item: Item, def: FieldDef)
    requires GoodDef(def) && ReadableItem(item)
    ensures RangeOf(Render(item), def).Some? <==> GoodItem(item, def)
  {
    hide GoodDef, ReadableItem, ParseValue, StepOf, IsSpace, RenderBase, Trim, GoodSpelling, ValueOf;
    ReadableBase(item, def);
    RenderBare(item, def);
    StepRead(RenderBase(item), if item.step.Some? then item.step.value else 1);
    if !item.Star? {
      BaseRead(item, def);
    }
  }

  ghost predicate ReadableItems(items: seq<Item>)
  {
    items != [] && forall i :: 0 <= i < |items| ==> ReadableItem(items[i])
  }

  lemma {:induction false} PartsAccepted(items: seq<Item>, parts: seq<string>, def: FieldDef)
    requires GoodDef(def) && |parts| == |items|
    requires forall i :: 0 <= i < |items| ==> ReadableItem(items[i]) && parts[i] == Render(items[i])
    ensures MaskOf(parts, def).Some? <==> forall i :: 0 <= i < |items| ==> GoodItem(items[i], def)
  {
    hide GoodDef, GoodItem, ReadableItem, RangeOf, Render, Stepped;
    if items != [] {
      var n := |items| - 1;
      PartsAccepted(items[..n], parts[..n], def);
      ItemAccepted(items[n], def);
      assert forall i :: 0 <= i < n ==> items[..n][i] == items[i];
    }
  }

  /** A written field is accepted if and only if every entry is. */
  lemma FieldAccepted(items: seq<Item>, def: FieldDef)
    requires GoodDef(def) && ReadableItems(items)
    ensures RenderField(items) != [] && Bare(RenderField(items))
    ensures MaskOf(Split(RenderField(items), ','), def).Some? <==> GoodItems(items, def)
  {
    hide GoodDef, GoodItem, ReadableItem, RangeOf, Render, MaskOf;
    var parts := seq(|items|, i requires 0 <= i < |items| => Render(items[i]));
    forall i | 0 <= i < |items| ensures parts[i] != [] && Bare(parts[i]) && ',' !in parts[i] {
      RenderBare(items[i], def);
    }
    SplitOfJoin(parts, ',');
    JoinedBare(parts);
    PartsAccepted(items, parts, def);
  }

  ghost predicate ReadableWritten(w: Written)
  {
    ReadableItems(w.minute) && ReadableItems(w.hour) && ReadableItems(w.dom) && ReadableItems(w.month) && ReadableItems(w.dow)
  }

  /** A written expression is accepted if and only if every entry of its five fields is. */
  lemma SpecAccepted(w: Written)
    requires ReadableWritten(w)
    ensures |Fields(RenderSpec(w))| == 5
    ensures SpecOf(Fields(RenderSpec(w))).Some? <==> GoodWritten(w)
  {
    hide GoodDef, GoodItem, GoodItems, MaskOf, RenderField, Fields, Split, Bare, Join, MONTH_NAMES, DAY_NAMES;
    GoodDefs();
    FieldAccepted(w.minute, MINUTE);
    FieldAccepted(w.hour, HOUR);
    FieldAccepted(w.dom, DOM);
    FieldAccepted(w.month, MONTH);
    FieldAccepted(w.dow, DOW);
    FieldsOfJoin(RenderedFields(w));
  }
}
