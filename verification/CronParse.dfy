/**
 Reading a cron expression: five fields, each a list of `*`, values and ranges
 with optional steps. `Items` is the same language as data, `Render` writes it
 and `Admits` says what it stands for.
 */
module CronParse {
  import opened Options
  import opened Text
  import opened Cron
  import opened CronSteps
  import Decimal

  datatype FieldDef = FieldDef(min: nat, max: nat, names: map<string, int>)

  const MONTH_NAMES: map<string, int> := map["jan" := 1, "feb" := 2, "mar" := 3, "apr" := 4, "may" := 5, "jun" := 6,
                                             "jul" := 7, "aug" := 8, "sep" := 9, "oct" := 10, "nov" := 11, "dec" := 12]
  const DAY_NAMES: map<string, int> := map["sun" := 0, "mon" := 1, "tue" := 2, "wed" := 3, "thu" := 4, "fri" := 5, "sat" := 6]

  const MINUTE := FieldDef(0, 59, map[])
  const HOUR := FieldDef(0, 23, map[])
  const DOM := FieldDef(1, 31, map[])
  const MONTH := FieldDef(1, 12, MONTH_NAMES)
  const DOW := FieldDef(0, 7, DAY_NAMES)

  /** A range that fits a 64-bit mask, small letters in a name, and names within the field's bounds. */
  ghost predicate GoodDef(def: FieldDef)
  {
    && def.min <= def.max < 64
    && (forall n :: n in def.names ==> GoodName(n) && def.min <= def.names[n] <= def.max)
  }

  ghost predicate GoodName(n: string)
  {
    n != [] && forall i :: 0 <= i < |n| ==> 'a' <= n[i] <= 'z'
  }

  lemma GoodDefs()
    ensures GoodDef(MINUTE) && GoodDef(HOUR) && GoodDef(DOM) && GoodDef(MONTH) && GoodDef(DOW)
  {
    GoodMonths();
    GoodDays();
  }

  lemma GoodMonths()
    ensures GoodDef(MONTH)
  {
    hide GoodName;
    assert GoodName("jan") && GoodName("feb") && GoodName("mar") && GoodName("apr") by { GoodNames(); }
    assert GoodName("may") && GoodName("jun") && GoodName("jul") && GoodName("aug") by { GoodNames(); }
    assert GoodName("sep") && GoodName("oct") && GoodName("nov") && GoodName("dec") by { GoodNames(); }
  }

  lemma GoodDays()
    ensures GoodDef(DOW)
  {
    hide GoodName;
    assert GoodName("sun") && GoodName("mon") && GoodName("tue") && GoodName("wed") by { GoodNames(); }
    assert GoodName("thu") && GoodName("fri") && GoodName("sat") by { GoodNames(); }
  }

  lemma GoodNames()
    ensures forall a, b, c :: 'a' <= a <= 'z' && 'a' <= b <= 'z' && 'a' <= c <= 'z' ==> GoodName([a, b, c])
  {}

  // ------------------------------------------------------- the parser

  /** `unicode.ToLower` where its answer can be part of a name: two letters outside ASCII have one inside. */
  function LowerChar(c: char): char
  {
    if 'A' <= c <= 'Z' then c - 'A' + 'a'
    else if c == '\U{0130}' then 'i'
    else if c == '\U{212A}' then 'k'
    else c
  }

  function Lower(s: string): (l: string)
    ensures |l| == |s| && forall i :: 0 <= i < |s| ==> l[i] == LowerChar(s[i])
  {
    seq(|s|, i requires 0 <= i < |s| => LowerChar(s[i]))
  }

  function ParseValue(text: string, def: FieldDef): Option<int>
  {
    var t := Trim(text);
    if Lower(t) in def.names then Some(def.names[Lower(t)])
    else
      var v := Decimal.Parse(t);
      if v.Some? && def.min <= v.value <= def.max then v else None
  }

  /** 7 is a second spelling of Sunday. */
  function Fold(def: FieldDef, v: int): int
  {
    if def.max == 7 && v == 7 then 0 else v
  }

  /** What an entry adds to the mask: every value of the range's bits its loop comes by. */
  ghost function Stepped(def: FieldDef, lo: int, hi: int, step: int): set<int>
    requires 1 <= step <= Decimal.INT64_MAX
  {
    set v | 0 <= v <= hi && Reaches(lo, hi, step, v) :: Fold(def, v)
  }

  /** What it has yet to add when its loop is at `v`. */
  ghost function Adds(def: FieldDef, v: int, hi: int, step: int): set<int>
    requires 1 <= step <= Decimal.INT64_MAX
  {
    set x | 0 <= x <= hi && ToCome(v, hi, step, x) :: Fold(def, x)
  }

  lemma FirstAdds(def: FieldDef, lo: int, hi: int, step: int)
    requires 0 <= lo <= hi < 64 && 1 <= step <= Decimal.INT64_MAX
    ensures Sane(lo, hi, step) && Adds(def, lo, hi, step) == Stepped(def, lo, hi, step)
  {
    hide ToCome, Reaches, Sane, Fold;
    FirstToCome(lo, hi, step, lo);
    forall x | 0 <= x <= hi ensures ToCome(lo, hi, step, x) <==> Reaches(lo, hi, step, x) {
      FirstToCome(lo, hi, step, x);
    }
  }

  lemma NextAdds(def: FieldDef, v: int, hi: int, step: int)
    requires 0 <= hi < 64 && 1 <= step <= Decimal.INT64_MAX && Sane(v, hi, step) && v <= hi
    ensures Adds(def, v, hi, step) == (if v >= 0 then {Fold(def, v)} else {}) + Adds(def, Add64(v, step), hi, step)
  {
    hide ToCome, Sane, Fold, Add64;
    forall x | 0 <= x <= hi ensures ToCome(v, hi, step, x) <==> x == v || ToCome(Add64(v, step), hi, step, x) {
      NextToCome(v, hi, step, x);
    }
  }

  lemma NoneAdded(def: FieldDef, v: int, hi: int, step: int)
    requires 1 <= step <= Decimal.INT64_MAX && v > hi
    ensures Adds(def, v, hi, step) == {}
  {}

  datatype Range = Range(lo: int, hi: int, step: int)

  /** The text after a `/`, when there is one. */
  function StepOf(part: string): (r: Option<(string, int)>)
    ensures r.Some? ==> 1 <= r.value.1 <= Decimal.INT64_MAX
  {
    var slash := IndexOf(part, '/');
    if slash == |part| then Some((part, 1))
    else
      var n := Decimal.Parse(Trim(part[slash + 1..]));
      if n.None? || n.value < 1 then None else Some((Trim(part[..slash]), n.value))
  }

  function RangeOf(part: string, def: FieldDef): (r: Option<Range>)
    ensures r.Some? ==> 1 <= r.value.step <= Decimal.INT64_MAX
  {
    var p := Trim(part);
    if p == "" then None
    else
      var stepped := StepOf(p);
      if stepped.None? then None
      else
        var (base, step) := stepped.value;
        var dash := IndexOf(base, '-');
        if base == "*" then Some(Range(def.min, def.max, step))
        else if dash < |base| then
          var lo, hi := ParseValue(base[..dash], def), ParseValue(base[dash + 1..], def);
          if lo.None? || hi.None? || lo.value > hi.value then None else Some(Range(lo.value, hi.value, step))
        else
          var v := ParseValue(base, def);
          if v.None? then None else Some(Range(v.value, if step == 1 then v.value else def.max, step))
  }

  ghost function MaskOf(parts: seq<string>, def: FieldDef): Option<set<int>>
  {
    if parts == [] then Some({})
    else
      var init := MaskOf(parts[..|parts| - 1], def);
      var range := RangeOf(parts[|parts| - 1], def);
      if init.None? || range.None? then None
      else Some(init.value + Stepped(def, range.value.lo, range.value.hi, range.value.step))
  }

  /** One bad part rejects the field, wherever it stands. */
  lemma {:induction false} MaskOfPrefix(parts: seq<string>, def: FieldDef, i: nat)
    requires i <= |parts| && MaskOf(parts[..i], def).None?
    ensures MaskOf(parts, def).None?
    decreases |parts|
  {
    if i < |parts| {
      assert parts[..|parts| - 1][..i] == parts[..i];
      MaskOfPrefix(parts[..|parts| - 1], def, i);
    } else {
      assert parts[..i] == parts;
    }
  }

  /** `parseField`. */
  method ParseField(field: string, def: FieldDef) returns (mask: Option<set<int>>)
    requires GoodDef(def)
    ensures mask == MaskOf(Split(field, ','), def)
  {
    hide RangeOf, GoodDef, Adds, Stepped, Sane, Add64, Rank;
    var parts := Split(field, ',');
    var m: set<int> := {};
    var i := 0;
    while i < |parts|
      invariant i <= |parts| && MaskOf(parts[..i], def) == Some(m)
    {
      assert parts[..i + 1][..i] == parts[..i];
      var range := RangeOf(parts[i], def);
      if range.None? {
        MaskOfPrefix(parts, def, i + 1);
        return None;
      }
      var Range(lo, hi, step) := range.value;
      RangeInField(parts[i], def);
      FirstAdds(def, lo, hi, step);
      var v := lo;
      ghost var before := m;
      while v <= hi
        invariant Sane(v, hi, step)
        invariant m + Adds(def, v, hi, step) == before + Stepped(def, lo, hi, step)
        decreases Rank(v, hi, step)
      {
        NextValue(v, hi, step);
        NextAdds(def, v, hi, step);
        // A negative value, taken as unsigned, shifts the bit out of the mask.
        if v >= 0 {
          m := m + {Fold(def, v)};
        }
        v := Add64(v, step);
      }
      NoneAdded(def, v, hi, step);
      assert m + {} == m;
      assert parts[..i + 1][i] == parts[i];
      i := i + 1;
    }
    assert parts[..|parts|] == parts;
    return Some(m);
  }

  predicate StartsWithStar(s: string)
  {
    s != [] && s[0] == '*'
  }

  ghost function SpecOf(fields: seq<string>): Option<Spec>
    requires |fields| == 5
  {
    var minute, hour, dom := MaskOf(Split(fields[0], ','), MINUTE), MaskOf(Split(fields[1], ','), HOUR), MaskOf(Split(fields[2], ','), DOM);
    var month, dow := MaskOf(Split(fields[3], ','), MONTH), MaskOf(Split(fields[4], ','), DOW);
    if minute.None? || hour.None? || dom.None? || month.None? || dow.None? then None
    else Some(Spec(minute.value, hour.value, dom.value, month.value, dow.value, StartsWithStar(fields[2]), StartsWithStar(fields[4])))
  }

  method ParseSpec(expr: string) returns (s: Option<Spec>)
    ensures |Fields(expr)| != 5 ==> s == None
    ensures |Fields(expr)| == 5 ==> s == SpecOf(Fields(expr))
  {
    hide MaskOf;
    GoodDefs();
    var parts := Fields(expr);
    if |parts| != 5 {
      return None;
    }
    var minute := ParseField(parts[0], MINUTE);
    if minute.None? { return None; }
    var hour := ParseField(parts[1], HOUR);
    if hour.None? { return None; }
    var dom := ParseField(parts[2], DOM);
    if dom.None? { return None; }
    var month := ParseField(parts[3], MONTH);
    if month.None? { return None; }
    var dow := ParseField(parts[4], DOW);
    if dow.None? { return None; }
    return Some(Spec(minute.value, hour.value, dom.value, month.value, dow.value,
                     StartsWithStar(parts[2]), StartsWithStar(parts[4])));
  }

  // --------------------------------------------------- what fields mean

  /** A value as written: a number, or a name in any mix of capitals. */
  datatype Spelling = Number(v: nat) | Name(text: string)

  /** One entry of a field's list. `step` is None when no step is written. */
  datatype Item = Star(step: Option<nat>) | Value(from: Spelling, step: Option<nat>) | Span(from: Spelling, to: Spelling, step: Option<nat>)

  predicate GoodSpelling(x: Spelling, def: FieldDef)
  {
    match x
    case Number(v) => def.min <= v <= def.max <= Decimal.INT64_MAX
    case Name(text) => Lower(text) in def.names
  }

  function ValueOf(x: Spelling, def: FieldDef): int
    requires GoodSpelling(x, def)
  {
    match x
    case Number(v) => v
    case Name(text) => def.names[Lower(text)]
  }

  predicate GoodItem(item: Item, def: FieldDef)
  {
    && (item.step.Some? ==> 1 <= item.step.value <= Decimal.INT64_MAX)
    && (item.Value? || item.Span? ==> GoodSpelling(item.from, def))
    && (item.Span? ==> GoodSpelling(item.to, def) && ValueOf(item.from, def) <= ValueOf(item.to, def))
  }

  function RenderValue(x: Spelling): string
  {
    match x
    case Number(v) => Decimal.Format(v)
    case Name(text) => text
  }

  function RenderBase(item: Item): string
  {
    match item
    case Star(_) => "*"
    case Value(a, _) => RenderValue(a)
    case Span(a, b, _) => RenderValue(a) + ['-'] + RenderValue(b)
  }

  function Render(item: Item): string
  {
    if item.step.None? then RenderBase(item) else RenderBase(item) + ['/'] + Decimal.Format(item.step.value)
  }

  function RenderField(items: seq<Item>): string
    requires items != []
  {
    Join(seq(|items|, i requires 0 <= i < |items| => Render(items[i])), ',')
  }

  function StepSize(item: Item): nat
  {
    if item.step.None? then 1 else item.step.value
  }

  /** The stretch an item steps through: a bare value is only itself, a stepped one runs to the field's maximum. */
  function Bounds(item: Item, def: FieldDef): (int, int)
    requires GoodItem(item, def)
  {
    match item
    case Star(_) => (def.min, def.max)
    case Value(a, _) => (ValueOf(a, def), if StepSize(item) == 1 then ValueOf(a, def) else def.max)
    case Span(a, b, _) => (ValueOf(a, def), ValueOf(b, def))
  }

  /** What an entry is read as: the values on its steps, and those it wraps to. */
  ghost predicate Admits(item: Item, def: FieldDef, d: int)
    requires GoodItem(item, def)
  {
    exists v :: Reaches(Bounds(item, def).0, Bounds(item, def).1, StepSize(item), v) && Fold(def, v) == d
  }

  /** What it says: the values on its steps. */
  ghost predicate Intends(item: Item, def: FieldDef, d: int)
    requires GoodItem(item, def)
  {
    exists v :: OnStep(Bounds(item, def).0, Bounds(item, def).1, StepSize(item), v) && Fold(def, v) == d
  }

  // --------------------------------------------------- reading it back

  ghost predicate PlainChar(c: char)
  {
    !IsSpace(c) && c != ',' && c != '/' && c != '-' && c != '*'
  }

  lemma PlainChars(c: char)
    ensures 'a' <= LowerChar(c) <= 'z' || Decimal.IsDigit(c) ==> PlainChar(c)
    ensures Decimal.IsDigit(c) ==> LowerChar(c) < 'a'
  {}

  /** None of the characters the parser cuts at. */
  ghost predicate Plain(s: string)
  {
    s != [] && forall i :: 0 <= i < |s| ==> PlainChar(s[i])
  }

  lemma RenderedValue(x: Spelling, def: FieldDef)
    requires GoodDef(def) && GoodSpelling(x, def)
    ensures Plain(RenderValue(x)) && Bare(RenderValue(x)) && ParseValue(RenderValue(x), def) == Some(ValueOf(x, def))
  {
    hide IsSpace, LowerChar, Decimal.IsDigit;
    var s := RenderValue(x);
    if x.Name? { assert GoodName(Lower(s)); }
    forall i | 0 <= i < |s| ensures PlainChar(s[i]) {
      PlainChars(s[i]);
    }
    TrimBare(s);
    if x.Number? {
      Decimal.ParseOfFormat(x.v);
      PlainChars(s[0]);
      assert !GoodName(Lower(s));
    }
  }

  lemma RenderedStep(base: string, n: nat)
    requires Bare(base) && '/' !in base && 1 <= n <= Decimal.INT64_MAX
    ensures StepOf(base + ['/'] + Decimal.Format(n)) == Some((base, n))
    ensures StepOf(base) == Some((base, 1))
  {
    hide IsSpace, Decimal.IsDigit, Trim, Decimal.Parse;
    var s := base + ['/'] + Decimal.Format(n);
    assert s[..|base|] == base && s[|base| + 1..] == Decimal.Format(n);
    FirstIndex(s, |base|, '/');
    FirstIndex(base, |base|, '/');
    TrimBare(base);
    forall c: char ensures Decimal.IsDigit(c) ==> PlainChar(c) {
      PlainChars(c);
    }
    TrimBare(Decimal.Format(n));
    Decimal.ParseOfFormat(n);
  }

  /** What an item renders to between its ends: nothing the field or the step is cut at. */
  lemma RenderedBase(item: Item, def: FieldDef)
    requires GoodDef(def) && GoodItem(item, def)
    ensures var s := RenderBase(item); s != [] && Bare(s) && '/' !in s && ',' !in s
    ensures item.Star? <==> StartsWithStar(RenderBase(item))
  {
    hide GoodDef, ParseValue;
    match item {
      case Star(_) =>
      case Value(a, _) => RenderedValue(a, def);
      case Span(a, b, _) =>
        RenderedValue(a, def);
        RenderedValue(b, def);
    }
  }

  lemma RenderedItem(item: Item, def: FieldDef)
    requires GoodDef(def) && GoodItem(item, def)
    ensures Render(item) != [] && Bare(Render(item)) && ',' !in Render(item)
    ensures StartsWithStar(Render(item)) <==> item.Star?
    ensures RangeOf(Render(item), def) == Some(Range(Bounds(item, def).0, Bounds(item, def).1, StepSize(item)))
  {
    hide GoodDef, GoodItem, ParseValue, StepOf, IsSpace, RenderBase, Bounds;
    var base, s := RenderBase(item), Render(item);
    RenderedBase(item, def);
    StepInBounds(item, def);
    RenderedStep(base, StepSize(item));
    assert StartsWithStar(s) <==> StartsWithStar(base);
    assert Bare(s) && ',' !in s by { hide *; RenderedText(item); }
    TrimBare(s);
    RenderedRange(item, def);
  }

  lemma StepInBounds(item: Item, def: FieldDef)
    requires GoodItem(item, def)
    ensures 1 <= StepSize(item) <= Decimal.INT64_MAX
  {}

  lemma RenderedText(item: Item)
    requires Bare(RenderBase(item)) && ',' !in RenderBase(item)
    ensures Bare(Render(item)) && ',' !in Render(item)
  {
    hide IsSpace, RenderBase;
    forall c: char ensures Decimal.IsDigit(c) || c == '/' ==> !IsSpace(c) && c != ',' {
      PlainChars(c);
      Slash();
    }
  }

  lemma Slash()
    ensures !IsSpace('/')
  {}

  lemma RenderedRange(item: Item, def: FieldDef)
    requires GoodDef(def) && GoodItem(item, def)
    ensures var base, bounds := RenderBase(item), Bounds(item, def);
            && (base == "*" <==> item.Star?) && (item.Star? ==> bounds == (def.min, def.max))
            && (item.Value? ==> IndexOf(base, '-') == |base| && ParseValue(base, def) == Some(bounds.0)
                                && bounds.1 == if StepSize(item) == 1 then bounds.0 else def.max)
            && (item.Span? ==> var k := IndexOf(base, '-');
                               && k < |base| && ParseValue(base[..k], def) == Some(bounds.0)
                               && ParseValue(base[k + 1..], def) == Some(bounds.1) && bounds.0 <= bounds.1)
  {
    hide GoodDef, ParseValue, IsSpace;
    var base := RenderBase(item);
    match item {
      case Star(_) =>
      case Value(a, _) =>
        RenderedValue(a, def);
        FirstIndex(base, |base|, '-');
      case Span(a, b, _) =>
        RenderedValue(a, def);
        RenderedValue(b, def);
        var x := RenderValue(a);
        assert base[..|x|] == x && base[|x| + 1..] == RenderValue(b);
        FirstIndex(base, |x|, '-');
    }
  }

  ghost predicate GoodItems(items: seq<Item>, def: FieldDef)
  {
    items != [] && forall i :: 0 <= i < |items| ==> GoodItem(items[i], def)
  }

  lemma {:induction false} MaskOfItems(items: seq<Item>, parts: seq<string>, def: FieldDef)
    requires GoodDef(def) && |parts| == |items|
    requires forall i :: 0 <= i < |items| ==> GoodItem(items[i], def) && parts[i] == Render(items[i])
    ensures MaskOf(parts, def).Some?
    ensures forall d :: d in MaskOf(parts, def).value <==> exists i :: 0 <= i < |items| && Admits(items[i], def, d)
  {
    hide GoodDef, GoodItem, RangeOf, Bounds, Render, Admits, Stepped;
    if items != [] {
      var n := |items| - 1;
      MaskOfItems(items[..n], parts[..n], def);
      RenderedItem(items[n], def);
      var b := Bounds(items[n], def);
      forall d ensures d in Stepped(def, b.0, b.1, StepSize(items[n])) <==> Admits(items[n], def, d) {
        SteppedAdmits(items[n], def, d);
      }
      assert forall i :: 0 <= i < n ==> items[..n][i] == items[i];
    }
  }

  lemma SteppedAdmits(item: Item, def: FieldDef, d: int)
    requires GoodDef(def) && GoodItem(item, def)
    ensures d in Stepped(def, Bounds(item, def).0, Bounds(item, def).1, StepSize(item)) <==> Admits(item, def, d)
  {
    hide OnStep, Wraps, Fold;
    BoundsInField(item, def);
    InRange(Bounds(item, def).0, Bounds(item, def).1, StepSize(item));
  }

  lemma InRange(lo: int, hi: int, step: int)
    requires 0 <= lo <= hi && 1 <= step <= Decimal.INT64_MAX
    ensures forall v :: Reaches(lo, hi, step, v) ==> 0 <= v <= hi
  {}

  lemma BoundsInField(item: Item, def: FieldDef)
    requires GoodDef(def) && GoodItem(item, def)
    ensures var b := Bounds(item, def); def.min <= b.0 <= b.1 <= def.max
  {
    hide GoodName, Lower;
  }

  /** A mask is the union of what a field's entries stand for. */
  ghost predicate Means(mask: set<int>, items: seq<Item>, def: FieldDef)
    requires GoodItems(items, def)
  {
    forall d :: d in mask <==> exists i :: 0 <= i < |items| && Admits(items[i], def, d)
  }

  /** Reading a written list gives the union of what its entries stand for. */
  lemma FieldOfRender(items: seq<Item>, def: FieldDef) returns (mask: set<int>)
    requires GoodDef(def) && GoodItems(items, def)
    ensures var s := RenderField(items); s != [] && Bare(s) && (StartsWithStar(s) <==> items[0].Star?)
    ensures MaskOf(Split(RenderField(items), ','), def) == Some(mask) && Means(mask, items, def)
  {
    hide GoodDef, GoodItem, RangeOf, Bounds, Render, Admits, MaskOf;
    var parts := seq(|items|, i requires 0 <= i < |items| => Render(items[i]));
    forall i | 0 <= i < |items|
      ensures parts[i] != [] && Bare(parts[i]) && ',' !in parts[i] && (StartsWithStar(parts[i]) <==> items[i].Star?)
    {
      RenderedItem(items[i], def);
    }
    SplitOfJoin(parts, ',');
    JoinedBare(parts);
    MaskOfItems(items, parts, def);
    mask := MaskOf(parts, def).value;
  }

  lemma {:induction false} JoinedBare(parts: seq<string>)
    requires parts != [] && forall i :: 0 <= i < |parts| ==> parts[i] != [] && Bare(parts[i])
    ensures var s := Join(parts, ','); s != [] && Bare(s) && s[0] == parts[0][0]
    decreases |parts|
  {
    if |parts| > 1 {
      JoinedBare(parts[1..]);
    }
  }

  /** Five fields as data. */
  datatype Written = Written(minute: seq<Item>, hour: seq<Item>, dom: seq<Item>, month: seq<Item>, dow: seq<Item>)

  ghost predicate GoodWritten(w: Written)
  {
    GoodItems(w.minute, MINUTE) && GoodItems(w.hour, HOUR) && GoodItems(w.dom, DOM) && GoodItems(w.month, MONTH) && GoodItems(w.dow, DOW)
  }

  ghost predicate Filled(w: Written)
  {
    w.minute != [] && w.hour != [] && w.dom != [] && w.month != [] && w.dow != []
  }

  ghost function RenderedFields(w: Written): seq<string>
    requires Filled(w)
  {
    [RenderField(w.minute), RenderField(w.hour), RenderField(w.dom), RenderField(w.month), RenderField(w.dow)]
  }

  /** Five written fields, joined by spaces. */
  ghost function RenderSpec(w: Written): string
    requires Filled(w)
  {
    Join(RenderedFields(w), ' ')
  }

  lemma WrittenFilled(w: Written)
    requires GoodWritten(w)
    ensures Filled(w) && GoodItems(w.minute, MINUTE) && GoodItems(w.hour, HOUR) && GoodItems(w.dom, DOM)
    ensures GoodItems(w.month, MONTH) && GoodItems(w.dow, DOW)
  {}

  /** Reading a written expression: every field means the union of its entries, and the day rule looks at each first entry. */
  lemma SpecOfRender(w: Written) returns (s: Spec)
    requires GoodWritten(w)
    ensures Fields(RenderSpec(w)) == RenderedFields(w)
    ensures SpecOf(RenderedFields(w)) == Some(s)
    ensures Means(s.minute, w.minute, MINUTE) && Means(s.hour, w.hour, HOUR) && Means(s.dom, w.dom, DOM)
    ensures Means(s.month, w.month, MONTH) && Means(s.dow, w.dow, DOW)
    ensures s.domStar == w.dom[0].Star? && s.dowStar == w.dow[0].Star?
  {
    hide GoodDef, GoodItem, GoodItems, GoodWritten, Filled, MaskOf, Means, RenderField, Fields, Split, Bare, Join, MONTH_NAMES, DAY_NAMES;
    GoodDefs();
    WrittenFilled(w);
    var m0 := FieldOfRender(w.minute, MINUTE);
    var m1 := FieldOfRender(w.hour, HOUR);
    var m2 := FieldOfRender(w.dom, DOM);
    var m3 := FieldOfRender(w.month, MONTH);
    var m4 := FieldOfRender(w.dow, DOW);
    FieldsOfJoin(RenderedFields(w));
    s := Spec(m0, m1, m2, m3, m4, StartsWithStar(RenderedFields(w)[2]), StartsWithStar(RenderedFields(w)[4]));
  }

  /** A mask holds only bits up to the field's maximum, with 7 for Sunday folded away, whatever the steps. */
  lemma {:induction false} MaskInField(parts: seq<string>, def: FieldDef)
    requires GoodDef(def)
    ensures MaskOf(parts, def).Some? ==> forall d :: d in MaskOf(parts, def).value ==>
              exists v :: 0 <= v <= def.max && d == Fold(def, v)
  {
    hide GoodDef, Fold, Reaches;
    if parts != [] && MaskOf(parts, def).Some? {
      MaskInField(parts[..|parts| - 1], def);
      var range := RangeOf(parts[|parts| - 1], def).value;
      RangeInField(parts[|parts| - 1], def);
    }
  }

  lemma RangeInField(part: string, def: FieldDef)
    requires GoodDef(def) && RangeOf(part, def).Some?
    ensures var r := RangeOf(part, def).value; def.min <= r.lo <= r.hi <= def.max < 64
  {
    hide ParseValue, StepOf, Trim, GoodDef;
    forall text ensures ParseValue(text, def).Some? ==> def.min <= ParseValue(text, def).value <= def.max {
      ValueInField(text, def);
    }
    ValueInField("", def);
  }

  lemma ValueInField(text: string, def: FieldDef)
    requires GoodDef(def)
    ensures def.min <= def.max < 64 && (ParseValue(text, def).Some? ==> def.min <= ParseValue(text, def).value <= def.max)
  {
    hide Trim, GoodName;
  }

  // --------------------------------------------------------- steps that wrap

  /**
   An entry is read as what it says if and only if its first value and twice its
   step stay below 2^64: a greater step wraps around to values below the first.
   */
  lemma ReadAsSaid(item: Item, def: FieldDef)
    requires GoodDef(def) && (def.max == 7 ==> def.min == 0) && GoodItem(item, def)
    ensures (forall d :: Admits(item, def, d) <==> Intends(item, def, d)) <==> Bounds(item, def).0 + 2 * StepSize(item) < TWO_64
  {
    hide GoodDef, GoodItem, Bounds, OnStep, Wraps;
    var b, step := Bounds(item, def), StepSize(item);
    GoodBounds(item, def);
    WrapsExactly(b.0, step);
    if b.0 + 2 * step >= TWO_64 {
      var v := b.0 - Back(step);
      assert Reaches(b.0, b.1, step, v);
      assert Admits(item, def, Fold(def, v));
      OnlyFirst(b.0, b.1, step);
      assert !Intends(item, def, Fold(def, v));
    }
  }

  lemma GoodBounds(item: Item, def: FieldDef)
    requires GoodDef(def) && GoodItem(item, def)
    ensures var b := Bounds(item, def); 0 <= b.0 <= b.1 <= def.max < 64 && 1 <= StepSize(item) <= Decimal.INT64_MAX
  {
    BoundsInField(item, def);
  }

  /** A step longer than the range leaves only its first value. */
  lemma OnlyFirst(lo: int, hi: int, step: int)
    requires 0 <= lo <= hi < 64 <= step
    ensures forall v :: OnStep(lo, hi, step, v) ==> v == lo
  {
    forall v | OnStep(lo, hi, step, v) ensures v == lo {
      OnlyItself(lo, hi, step, v);
    }
  }

  /** `5/9223372036854775807` minutes: 5, and 3 and 1 that it wraps to. */
  lemma WrappedMinutes(d: int)
    ensures var item := Value(Number(5), Some(Decimal.INT64_MAX));
            GoodItem(item, MINUTE) && (Admits(item, MINUTE, d) <==> d in {1, 3, 5}) && (Intends(item, MINUTE, d) <==> d == 5)
  {
    hide OnStep, Wraps, Reaches;
    var item := Value(Number(5), Some(Decimal.INT64_MAX));
    FiveWraps();
    assert forall v :: Fold(MINUTE, v) == v;
    assert Reaches(5, 59, Decimal.INT64_MAX, d) <==> Admits(item, MINUTE, d);
    assert OnStep(5, 59, Decimal.INT64_MAX, d) <==> Intends(item, MINUTE, d);
  }

  lemma FiveWraps()
    ensures forall v :: OnStep(5, 59, Decimal.INT64_MAX, v) <==> v == 5
    ensures forall v :: Reaches(5, 59, Decimal.INT64_MAX, v) <==> v == 1 || v == 3 || v == 5
  {
    OnlyFirst(5, 59, Decimal.INT64_MAX);
    assert OnStep(5, 59, Decimal.INT64_MAX, 5);
  }

  /** The documented reading of `a/n`: from `a` to the field's maximum. */
  ghost predicate Documented(item: Item, def: FieldDef, d: int)
    requires GoodItem(item, def) && item.Value? && item.step.Some?
  {
    exists v :: OnStep(ValueOf(item.from, def), def.max, item.step.value, v) && Fold(def, v) == d
  }

  /**
   `a/n` means what is documented exactly when n is not 1, or `a` is already the
   maximum, and the step does not wrap: `a/1` is read as a bare `a`.
   */
  lemma StepOfOne(item: Item, def: FieldDef)
    requires GoodDef(def) && (def.max == 7 ==> def.min == 0) && def.min + 1 < def.max
    requires GoodItem(item, def) && item.Value? && item.step.Some?
    ensures (forall d :: Admits(item, def, d) <==> Documented(item, def, d))
        <==> (item.step.value != 1 || ValueOf(item.from, def) == def.max)
             && ValueOf(item.from, def) + 2 * item.step.value < TWO_64
  {
    hide GoodDef, OnStep, Wraps;
    var a := ValueOf(item.from, def);
    GoodBounds(item, def);
    ReadAsSaid(item, def);
    assert item.step.value != 1 || a == def.max ==> forall d :: Intends(item, def, d) <==> Documented(item, def, d);
    if item.step.value == 1 && a != def.max {
      var d := Fold(def, a + 1);
      StepsOfOne(a, def.max);
      StepsOfOne(a, a);
      assert Documented(item, def, d);
      assert Fold(def, a) != d;
      assert !Intends(item, def, d);
    }
  }

  lemma StepsOfOne(lo: int, hi: int)
    ensures forall v :: OnStep(lo, hi, 1, v) <==> lo <= v <= hi
  {}
}
