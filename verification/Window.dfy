/**
 The windowed transcript reader: pages and catch-up spans of a log, parsed span
 by span from wherever a span happens to cut.
 */
module Window {
  import opened Lines
  import opened Options
  import opened PiTranscript
  import opened TurnSpans
  import opened TurnCuts
  import opened PiLog
  import Decimal

  const DEFAULT_PROBE := 0x20_0000
  const DEFAULT_BUDGET := 0x80_0000
  const SPAN_MAX := 0x80_0000
  /** How many turns a mid-file span parses and discards first. */
  const WARM := 2

  // --------------------------------------------------------------- cursors

  /** `strings.Cut` on one character. */
  function Cut(s: string, c: char): (r: (string, Option<string>))
    ensures r.1.None? ==> r.0 == s && c !in s
    ensures r.1.Some? ==> s == r.0 + [c] + r.1.value && c !in r.0
  {
    if s == [] then ([], None)
    else if s[0] == c then ([], Some(s[1..]))
    else var r := Cut(s[1..], c); ([s[0]] + r.0, r.1)
  }

  function Cursor(p: Pos): string
    requires p.off >= 0 && p.nth >= 0
  {
    if p.nth == 0 then Decimal.Format(p.off) else Decimal.Format(p.off) + "." + Decimal.Format(p.nth)
  }

  function ParseCursor(s: string): (p: Option<Pos>)
    ensures p.Some? ==> 0 <= p.value.off && 0 <= p.value.nth
  {
    var (offset, nth) := Cut(s, '.');
    var off := Decimal.Parse(offset);
    if off.None? || off.value < 0 then None
    else if nth.None? then Some(Pos(off.value, 0))
    else
      var n := Decimal.Parse(nth.value);
      if n.None? || n.value <= 0 then None else Some(Pos(off.value, n.value))
  }

  lemma {:induction false} CutAtFirst(a: string, c: char, b: string)
    requires c !in a
    ensures Cut(a + [c] + b, c) == (a, Some(b))
    ensures Cut(a, c) == (a, None)
  {
    if a == [] {
      assert a + [c] + b == [c] + b;
    } else {
      assert (a + [c] + b)[1..] == a[1..] + [c] + b && (a + [c] + b)[0] == a[0];
      assert [a[0]] + a[1..] == a;
      CutAtFirst(a[1..], c, b);
    }
  }

  /** A cursor the reader wrote reads back as the place it names. */
  lemma ParseOfCursor(p: Pos)
    requires 0 <= p.off <= Decimal.INT64_MAX && 0 <= p.nth <= Decimal.INT64_MAX
    ensures ParseCursor(Cursor(p)) == Some(p)
  {
    CutAtFirst(Decimal.Format(p.off), '.', Decimal.Format(p.nth));
    Decimal.ParseOfFormat(p.off);
    Decimal.ParseOfFormat(p.nth);
    assert "." == ['.'];
  }

  // ---------------------------------------------------------------- reader

  /** `missed` is what the assembler says of a span that starts at the first offset, once it has read the line at the second. */
  datatype Reader = Reader(source: Source, missed: (int, int) -> bool, probe: int, budget: int) {
    function Probe(): (n: int)
      ensures n > 0
    {
      if probe > 0 then probe else DEFAULT_PROBE
    }

    function Budget(): int
    {
      if budget > 0 then budget else DEFAULT_BUDGET
    }
  }

  /** A turn as a client sees it, with the cursor that names it. */
  datatype Shown = Shown(turn: Turn, cursor: string)

  datatype Result<+T> = Ok(value: T) | BadCursor

  datatype Page = Page(turns: seq<Shown>, more: bool)

  predicate Named(ps: seq<Placed>)
  {
    forall i :: 0 <= i < |ps| ==> ps[i].pos.off >= 0 && ps[i].pos.nth >= 0
  }

  function Show(ps: seq<Placed>): (shown: seq<Shown>)
    requires Named(ps)
    ensures |shown| == |ps|
    ensures forall i :: 0 <= i < |ps| ==> shown[i] == Shown(ps[i].turn, Cursor(ps[i].pos))
  {
    seq(|ps|, i requires 0 <= i < |ps| => Shown(ps[i].turn, Cursor(ps[i].pos)))
  }

  /** Where a span may end: the end of the log, or a place on a transcript line. */
  ghost predicate EndsOnLine(source: Source, log: Log, end: Pos)
  {
    end == Pos(|log.data|, 0) || HasLine(Transcript(source, log), end.off)
  }

  lemma NextLine(lines: seq<Line<Record>>, n: nat)
    requires n < |lines|
    ensures var s, next := Run(COLD, lines[..n]), Step(Run(COLD, lines[..n]), lines[n]);
            && Run(COLD, lines[..n + 1]) == next.0
            && Emit(COLD, lines[..n + 1]) == Emit(COLD, lines[..n]) + next.1
  {
    hide Step;
    assert lines[..n + 1] == lines[..n] + [lines[n]];
    Split(COLD, lines[..n], [lines[n]]);
    ParseCons(Run(COLD, lines[..n]), lines[n], []);
  }

  lemma StepOf(s: Scan, l: Line<Record>, cur: Option<Turn>, completed: seq<Turn>)
    requires Feed(s.cur, l.body) == (cur, completed)
    ensures var open, out := if s.open < 0 then l.off else s.open, Place(completed, if s.open < 0 then l.off else s.open, l.off, s.last);
            Step(s, l) == if completed == [] then (Scan(cur, open, s.last), [])
                          else (Scan(cur, -1, out[|out| - 1].pos), out)
  {}

  lemma StopsThere(source: Source, log: Log, end: Pos, stop: nat)
    requires EndsOnLine(source, log, end) && end.nth >= 0
    requires end.nth == 0 ==> stop == end.off
    requires end.nth > 0 ==>
               && stop <= |log.data| && (end.off < stop || stop == |log.data|)
               && (stop == |log.data| || StartsLine(log.data, stop))
               && forall o :: end.off + 1 <= o < stop && o <= |log.data| ==> !StartsLine(log.data, o)
    ensures StopsAt(source, log, end, stop)
  {
    TranscriptInOrder(source, log);
  }

  lemma {:induction false} PlacedNext(turns: seq<Turn>, open: int, off: int, last: Pos, i: nat)
    requires i < |turns|
    ensures var out := Place(turns, open, off, last);
            out[i] == Placed(turns[i], PlaceAt(if turns[i].role == Assistant then open else off,
                                               if i == 0 then last else out[i - 1].pos))
    decreases i
  {
    hide PlaceAt;
    var p := PlaceAt(if turns[0].role == Assistant then open else off, last);
    var rest := Place(turns[1..], open, off, p);
    assert Place(turns, open, off, last) == [Placed(turns[0], p)] + rest;
    if i > 0 {
      PlacedNext(turns[1..], open, off, p, i - 1);
    }
  }

  lemma {:induction false} PlaceNamed(turns: seq<Turn>, open: int, off: int, last: Pos)
    requires open >= 0 && off >= 0 && last.nth >= 0
    ensures Named(Place(turns, open, off, last))
    decreases |turns|
  {
    if turns != [] {
      PlaceNamed(turns[1..], open, off, PlaceAt(if turns[0].role == Assistant then open else off, last));
    }
  }

  lemma KeepNone(whole: bool, end: Pos)
    ensures Keep(whole, end, []) == []
  {}

  lemma KeepNext(whole: bool, end: Pos, ps: seq<Placed>, x: Placed)
    ensures var kept := Keep(whole, end, ps);
            Keep(whole, end, ps + [x])
            == if Precedes(x.pos, end) && (whole || kept != [] || x.turn.role == User) then kept + [x] else kept
  {
    KeepConcat(whole, end, ps, [x]);
    assert [x][1..] == [];
  }

  lemma {:induction false} KeepNamed(whole: bool, end: Pos, ps: seq<Placed>)
    requires Named(ps)
    ensures Named(Keep(whole, end, ps))
    decreases |ps|
  {
    if ps != [] {
      KeepNamed(whole, end, ps[1..]);
      KeepNamed(true, end, ps[1..]);
    }
  }

  /** The turns of a span marked as missing context: of none that starts at the top, of all when the assembler says so throughout. */
  ghost predicate Marked(r: Reader, from: nat, cold: seq<bool>)
  {
    && (from == 0 || (forall off :: !r.missed(from, off)) ==> forall i :: 0 <= i < |cold| ==> !cold[i])
    && (from > 0 && (forall off :: r.missed(from, off)) ==> forall i :: 0 <= i < |cold| ==> cold[i])
  }

  lemma NoneMarked(r: Reader, from: nat)
    ensures Marked(r, from, [])
  {}

  lemma MarkedMore(r: Reader, from: nat, cold: seq<bool>, more: seq<bool>, off: int)
    requires Marked(r, from, cold) && forall i :: 0 <= i < |more| ==> more[i] == (r.missed(from, off) && from > 0)
    ensures Marked(r, from, cold + more)
  {}

  /** The turns one line completes, added one by one. */
  method Add(completed: seq<Turn>, open: int, off: int, missed: bool, end: Pos, wasWhole: bool, wasLast: Pos)
    returns (ps: seq<Placed>, cold: seq<bool>, whole: bool, last: Pos)
    requires open >= 0 && off >= 0 && wasLast.nth >= 0
    ensures ps == Keep(wasWhole, end, Place(completed, open, off, wasLast))
    ensures |cold| == |ps| && Named(ps) && forall i :: 0 <= i < |cold| ==> cold[i] == missed
    ensures whole == (wasWhole || ps != [])
    ensures last == if completed == [] then wasLast else Place(completed, open, off, wasLast)[|completed| - 1].pos
    ensures last.nth >= 0
  {
    hide Keep, Place, Precedes;
    ps, cold, whole, last := [], [], wasWhole, wasLast;
    ghost var out := Place(completed, open, off, wasLast);
    PlaceNamed(completed, open, off, wasLast);
    KeepNone(wasWhole, end);
    KeepNamed(wasWhole, end, out);
    var i := 0;
    while i < |completed|
      invariant i <= |completed|
      invariant ps == Keep(wasWhole, end, out[..i])
      invariant |cold| == |ps| && forall i :: 0 <= i < |cold| ==> cold[i] == missed
      invariant whole == (wasWhole || ps != [])
      invariant last == if i == 0 then wasLast else out[i - 1].pos
    {
      var t := completed[i];
      PlacedNext(completed, open, off, wasLast, i);
      last := PlaceAt(if t.role == Assistant then open else off, last);
      KeepNext(wasWhole, end, out[..i], out[i]);
      assert out[i] == Placed(t, last);
      assert out[..i + 1] == out[..i] + [out[i]];
      if Precedes(last, end) && (whole || t.role == User) {
        whole := true;
        ps, cold := ps + [Placed(t, last)], cold + [missed];
      }
      i := i + 1;
    }
    assert out[..i] == out;
  }

  /** One line handed to the assembler, and the turns it completes added. */
  method ReadLine(asm: Assembler, l: Line<Record>, missed: bool, end: Pos, wasWhole: bool, wasOpen: int, wasLast: Pos)
    returns (ps: seq<Placed>, cold: seq<bool>, whole: bool, open: int, last: Pos)
    requires wasOpen >= -1 && wasLast.nth >= 0
    requires Open(asm.cur) && (asm.cur.Some? ==> wasOpen >= 0)
    modifies asm
    ensures Scan(asm.cur, open, last) == Step(Scan(old(asm.cur), wasOpen, wasLast), l).0
    ensures ps == Keep(wasWhole, end, Step(Scan(old(asm.cur), wasOpen, wasLast), l).1)
    ensures |cold| == |ps| && Named(ps) && forall i :: 0 <= i < |cold| ==> cold[i] == missed
    ensures whole == (wasWhole || ps != [])
    ensures open >= -1 && last.nth >= 0
    ensures Open(asm.cur) && (asm.cur.Some? ==> open >= 0)
  {
    hide Feed, Place, Keep;
    ps, cold, whole, open, last := [], [], wasWhole, wasOpen, wasLast;
    FeedShape(asm.cur, l.body);
    if open < 0 {
      open := l.off;
    }
    var completed, _ := asm.FeedLineParts(l.body);
    StepOf(Scan(old(asm.cur), wasOpen, wasLast), l, asm.cur, completed);
    KeepNone(wasWhole, end);
    if |completed| > 0 {
      ps, cold, whole, last := Add(completed, open, l.off, missed, end, wasWhole, wasLast);
      open := -1;
    }
  }

  /** `readSpan`: the turns that start in [from, end), and which of them still needed state from before the span. */
  method ReadSpan(r: Reader, log: Log, from: nat, end: Pos) returns (ps: seq<Placed>, cold: seq<bool>)
    requires 0 <= end.off <= |log.data| && end.nth >= 0
    ensures |cold| == |ps| && Named(ps) && Marked(r, from, cold)
    ensures forall i :: 0 <= i < |ps| ==> Precedes(ps[i].pos, end)
    ensures WellFormed(r.source, log) && EndsOnLine(r.source, log, end) && from <= end.off && Boundary(log.data, from) ==>
              ps == SpanTurns(Transcript(r.source, log), from, end)
  {
    hide Step, Feed, Keep, Place, Flush, Read, Transcript, Boundary, WellFormed, EndsOnLine, StopsAt, SpanLinesOf;
    var size := |log.data|;
    var stop: nat := end.off;
    if end.nth > 0 {
      stop := LineStart(log.data, end.off + 1);
    }
    var lines := ReadLines(r.source, log, from, stop, end.nth > 0 || stop >= size);
    if WellFormed(r.source, log) && EndsOnLine(r.source, log, end) && from <= end.off && Boundary(log.data, from) {
      StopsThere(r.source, log, end, stop);
      SpanRead(r.source, log, from, end, stop);
    }
    ps, cold := Assemble(r, lines, from, end, size);
  }

  /** The lines of a span fed to a fresh assembler, and the turn they leave open flushed. */
  method Assemble(r: Reader, lines: seq<Line<Record>>, from: nat, end: Pos, size: nat) returns (ps: seq<Placed>, cold: seq<bool>)
    ensures ps == Keep(from == 0, end, Whole(lines))
    ensures |cold| == |ps| && Named(ps) && Marked(r, from, cold)
  {
    hide Step, Feed, Keep, Place, Flush, Run, Emit, Marked;
    var asm := new Assembler();
    var whole, last := from == 0, Pos(-1, 0);
    var open: int := -1;
    ps, cold := [], [];
    var n := 0;
    KeepNone(from == 0, end);
    NoLines(lines);
    NoneMarked(r, from);
    while n < |lines|
      invariant n <= |lines|
      invariant Scan(asm.cur, open, last) == Run(COLD, lines[..n])
      invariant ps == Keep(from == 0, end, Emit(COLD, lines[..n]))
      invariant whole == (from == 0 || ps != [])
      invariant |cold| == |ps| && Named(ps) && last.nth >= 0 && open >= -1
      invariant Marked(r, from, cold)
      invariant Open(asm.cur) && (asm.cur.Some? ==> open >= 0)
    {
      NextLine(lines, n);
      KeepConcat(from == 0, end, Emit(COLD, lines[..n]), Step(Run(COLD, lines[..n]), lines[n]).1);
      var added, addedCold;
      added, addedCold, whole, open, last :=
        ReadLine(asm, lines[n], r.missed(from, lines[n].off) && from > 0, end, whole, open, last);
      MarkedMore(r, from, cold, addedCold, lines[n].off);
      ps, cold := ps + added, cold + addedCold;
      n := n + 1;
    }
    assert lines[..n] == lines;
    KeepConcat(from == 0, end, Emit(COLD, lines), Flush(Run(COLD, lines)));
    FlushOf(Run(COLD, lines));
    var t := asm.Flush();
    if t.Some? {
      var added, addedCold;
      added, addedCold, whole, last := Add([t.value], open, open, r.missed(from, size) && from > 0, end, whole, last);
      MarkedMore(r, from, cold, addedCold, size);
      ps, cold := ps + added, cold + addedCold;
    } else {
      KeepNone(whole, end);
    }
  }

  lemma NoLines(lines: seq<Line<Record>>)
    ensures Run(COLD, lines[..0]) == COLD && Emit(COLD, lines[..0]) == []
  {}

  lemma FlushOf(s: Scan)
    ensures Flush(s) == Place(Flushed(s.cur), s.open, s.open, s.last)
    ensures Place([], s.open, s.open, s.last) == []
  {}

  // ----------------------------------------------------------------- pages

  /** `end` is the end of the log, or where turn `j` of its transcript starts. */
  ghost predicate EndsAt(source: Source, log: Log, end: Pos, j: nat)
  {
    var whole := Whole(Transcript(source, log));
    (end == Pos(|log.data|, 0) && j == |whole|) || (j < |whole| && end == whole[j].pos)
  }

  /** The place a page stops short of: the one the cursor names, or the end of the log for no cursor or one past it. */
  function EndOf(log: Log, before: string): Option<Pos>
  {
    var p := if before == "" then Some(Pos(|log.data|, 0)) else ParseCursor(before);
    if p.Some? && p.value.off >= |log.data| then Some(Pos(|log.data|, 0)) else p
  }

  /** The cursor `before` names the end of the log, or turn `j` of its transcript. */
  ghost predicate CursorAt(source: Source, log: Log, before: string, j: nat)
  {
    EndOf(log, before).Some? && EndsAt(source, log, EndOf(log, before).value, j)
  }

  /** The last of the turns, as many as the limit allows. */
  function Newest(ps: seq<Placed>, limit: int): seq<Placed>
  {
    if 0 < limit < |ps| then ps[|ps| - limit..] else ps
  }

  ghost predicate OnLines(lines: seq<Line<Record>>, ps: seq<Placed>)
  {
    forall i :: 0 <= i < |ps| ==> ps[i].pos.off >= 0 && 0 <= ps[i].pos.nth <= 1 && HasLine(lines, ps[i].pos.off)
  }

  /** A page of the turns ahead of turn `j`: the last of them, as many as the limit allows or the budget stretched to. */
  ghost predicate IsPage(whole: seq<Placed>, j: nat, limit: int, page: Page)
  {
    && |page.turns| <= j <= |whole|
    && Named(whole[j - |page.turns|..j])
    && page.turns == Show(whole[j - |page.turns|..j])
    && (page.more <==> |page.turns| < j)
    && (limit > 0 ==> |page.turns| <= limit)
    && (limit <= 0 ==> |page.turns| == j)
    && (j > 0 ==> |page.turns| > 0)
  }

  /** What a log has to be like for its pages to join up. */
  ghost predicate Pageable(source: Source, log: Log)
  {
    WellFormed(source, log) && SelfContained(Transcript(source, log))
  }

  lemma EndsAtLine(source: Source, log: Log, end: Pos, j: nat)
    requires EndsAt(source, log, end, j)
    ensures EndsOnLine(source, log, end)
  {
    hide Whole, Transcript;
    TranscriptInOrder(source, log);
    if j < |Whole(Transcript(source, log))| && end == Whole(Transcript(source, log))[j].pos {
      TurnLine(Transcript(source, log), j);
    }
  }

  /** A span read up to turn `j` yields the last of the turns ahead of it. */
  lemma SpanOf(source: Source, log: Log, from: nat, end: Pos, j: nat)
    requires Pageable(source, log) && EndsAt(source, log, end, j)
    ensures var whole, span := Whole(Transcript(source, log)), SpanTurns(Transcript(source, log), from, end);
            && |span| <= j <= |whole| && span == whole[j - |span|..j]
            && (from == 0 ==> |span| == j)
  {
    hide Whole, Transcript, SpanTurns, CleanAt;
    TranscriptInOrder(source, log);
    SpanIsSlice(Transcript(source, log), |log.data|, from, end, j);
  }

  /** A boundary short of a transcript line's offset is no later than that line. */
  lemma StartBefore(source: Source, log: Log, end: Pos, at: int, from: nat)
    requires EndsOnLine(source, log, end)
    requires at <= end.off
    requires forall o :: at <= o < from && o <= |log.data| ==> !StartsLine(log.data, o)
    requires from <= |log.data|
    ensures from <= end.off
  {
    TranscriptInOrder(source, log);
  }

  /** One span read back from `end`: where it starts, and the turns that start in it. */
  method ReadBack(r: Reader, log: Log, end: Pos, limit: int, span: int, ghost i: int)
    returns (from: nat, t: seq<Placed>, cold: seq<bool>)
    requires 0 <= end.off <= |log.data| && end.nth >= 0 && span > 0
    ensures |cold| == |t| && Named(t) && Marked(r, from, cold)
    ensures forall k :: 0 <= k < |t| ==> Precedes(t[k].pos, end)
    ensures from > 0 ==> limit > 0 && span < end.off
    ensures i >= 0 && Pageable(r.source, log) && EndsAt(r.source, log, end, i) ==>
              var whole := Whole(Transcript(r.source, log));
              && |t| <= i <= |whole| && t == whole[i - |t|..i]
              && (from == 0 ==> |t| == i)
    ensures WellFormed(r.source, log) && EndsOnLine(r.source, log, end) ==>
              t == SpanTurns(Transcript(r.source, log), from, end) && OnLines(Transcript(r.source, log), t)
  {
    hide Whole, Transcript, SpanTurns, EndsAt, EndsOnLine, SelfContained, WellFormed, OnLines;
    from := 0;
    if limit > 0 && span < end.off {
      from := LineStart(log.data, end.off - span);
    }
    if i >= 0 && Pageable(r.source, log) && EndsAt(r.source, log, end, i) {
      EndsAtLine(r.source, log, end, i);
      StartBefore(r.source, log, end, end.off - span, from);
      SpanOf(r.source, log, from, end, i);
    }
    if WellFormed(r.source, log) && EndsOnLine(r.source, log, end) {
      StartBefore(r.source, log, end, end.off - span, from);
      SpanOnLines(r.source, log, from, end);
    }
    t, cold := ReadSpan(r, log, from, end);
  }

  lemma SpanOnLines(source: Source, log: Log, from: nat, end: Pos)
    ensures OnLines(Transcript(source, log), SpanTurns(Transcript(source, log), from, end))
  {
    hide Transcript, SpanTurns, HasLine;
    TranscriptInOrder(source, log);
    SpanOnLine(Transcript(source, log), end);
    SpanSuffix(Transcript(source, log), from, end);
  }

  /** Where reading back starts. */
  method StartAt(log: Log, before: string) returns (end: Option<Pos>)
    ensures end == EndOf(log, before)
    ensures end.None? <==> before != "" && ParseCursor(before).None?
    ensures end.Some? ==> 0 <= end.value.off <= |log.data| && end.value.nth >= 0
  {
    end := Some(Pos(|log.data|, 0));
    if before != "" {
      end := ParseCursor(before);
      if end.Some? && end.value.off >= |log.data| {
        end := Some(Pos(|log.data|, 0));
      }
    }
  }

  lemma PageIs(whole: seq<Placed>, i: int, j: int, ps: seq<Placed>, limit: int, more: bool)
    requires 0 <= i <= j <= |whole| && ps == whole[i..j] && Named(ps)
    requires more <==> i > 0
    requires (limit > 0 ==> |ps| <= limit) && (limit <= 0 ==> i == 0) && (j > 0 ==> i < j)
    ensures IsPage(whole, j, limit, Page(Show(ps), more))
  {}

  /** A span's turns, but for the first `n`, joined on to those after them. */
  lemma Joined(whole: seq<Placed>, t: seq<Placed>, ps: seq<Placed>, n: nat, i: int, j: int)
    requires n <= |t| <= i <= j <= |whole| && t == whole[i - |t|..i] && ps == whole[i..j]
    ensures t[n..] + ps == whole[i - (|t| - n)..j]
  {}

  lemma LastOf(whole: seq<Placed>, ps: seq<Placed>, limit: nat, i: nat, j: nat)
    requires i <= j <= |whole| && ps == whole[i..j] && limit <= |ps|
    ensures ps[|ps| - limit..] == whole[j - limit..j]
  {}

  lemma NamedParts(t: seq<Placed>, ps: seq<Placed>, n: nat)
    requires Named(t) && Named(ps) && n <= |t|
    ensures Named(t[n..] + ps) && Named(t[n..])
  {}

  /** A stretch that was parsed, and whether it started too late to be used. */
  datatype Stretch = Stretch(from: int, end: int, late: bool)

  /** What reading these stretches costs, in bytes. */
  ghost function Cost(spans: seq<Stretch>): int
  {
    if spans == [] then 0 else Cost(spans[..|spans| - 1]) + spans[|spans| - 1].end - spans[|spans| - 1].from
  }

  /** No stretch of use started where all its turns would miss context. */
  ghost predicate Warm(r: Reader, spans: seq<Stretch>)
  {
    forall k :: 0 <= k < |spans| && spans[k].from > 0 && (forall off :: r.missed(spans[k].from, off)) ==> spans[k].late
  }

  /** Once a stretch was of use and the budget is spent, none is read. */
  ghost predicate Stops(spans: seq<Stretch>, budget: int)
  {
    forall k :: 0 <= k < |spans| - 1 && !spans[k].late ==> Cost(spans[..k + 1]) < budget
  }

  lemma CostOf(spans: seq<Stretch>, next: Stretch, budget: int)
    ensures Cost(spans + [next]) == Cost(spans) + next.end - next.from && Cost([]) == 0 && Stops([], budget)
    ensures Stops(spans, budget) && (spans == [] || spans[|spans| - 1].late || Cost(spans) < budget) ==> Stops(spans + [next], budget)
  {
    hide Cost;
    CostNext(spans, next);
    var all := spans + [next];
    assert forall k :: 0 <= k < |spans| ==> all[..k + 1] == spans[..k + 1] && all[k] == spans[k];
    assert spans[..|spans|] == spans;
  }

  lemma CostNext(spans: seq<Stretch>, next: Stretch)
    ensures Cost(spans + [next]) == Cost(spans) + next.end - next.from && Cost([]) == 0
  {
    assert (spans + [next])[..|spans|] == spans;
  }

  /** Turns taken one span after another from where the page ends: each starts ahead of that place, on a transcript line. */
  ghost predicate Taken(source: Source, log: Log, start: Pos, end: Pos, ps: seq<Placed>)
  {
    && Named(ps)
    && (forall i :: 0 <= i < |ps| ==> Precedes(ps[i].pos, start))
    && end == (if ps == [] then start else ps[0].pos)
    && (WellFormed(source, log) && EndsOnLine(source, log, start) ==>
          OnLines(Transcript(source, log), ps) && EndsOnLine(source, log, end))
  }

  lemma TakeSpan(source: Source, log: Log, start: Pos, end: Pos, ps: seq<Placed>, t: seq<Placed>, n: nat)
    requires Taken(source, log, start, end, ps) && Named(t) && n <= |t|
    requires forall k :: 0 <= k < |t| ==> Precedes(t[k].pos, end)
    requires WellFormed(source, log) && EndsOnLine(source, log, end) ==> OnLines(Transcript(source, log), t)
    ensures var all := t[n..] + ps; Taken(source, log, start, if all == [] then start else all[0].pos, all)
  {
    hide Transcript, WellFormed, HasLine;
    var all := t[n..] + ps;
    assert forall i :: 0 <= i < |all| ==> all[i] == if i < |t| - n then t[n + i] else ps[i - (|t| - n)];
  }

  lemma TakeLast(source: Source, log: Log, start: Pos, end: Pos, ps: seq<Placed>, n: nat)
    requires Taken(source, log, start, end, ps) && n < |ps|
    ensures Taken(source, log, start, ps[n].pos, ps[n..])
  {
    hide Transcript, WellFormed, HasLine;
  }

  /** What a page holds that one span is enough for: the last of the turns that reading up to its end yields. */
  ghost predicate OneSpan(r: Reader, log: Log, start: Pos, limit: int)
  {
    WellFormed(r.source, log) && EndsOnLine(r.source, log, start) && (limit <= 1 || start.off <= r.Probe())
  }

  ghost predicate IsNewest(r: Reader, log: Log, start: Pos, limit: int, took: seq<Placed>, more: bool)
  {
    var ahead := SpanTurns(Transcript(r.source, log), 0, start);
    took == Newest(ahead, limit) && (more <==> |took| < |ahead|)
  }

  /** A page is had from one span when that starts at the head of the log, or the page is one turn long. */
  lemma SpanNewest(r: Reader, log: Log, from: nat, start: Pos, limit: int, t: seq<Placed>, n: nat)
    requires t == SpanTurns(Transcript(r.source, log), from, start)
    requires if from == 0 then n == 0 else limit == 1 && 0 < n < |t|
    ensures IsNewest(r, log, start, limit, Newest(t[n..] + [], limit), from > 0 || 0 < limit < |t[n..] + []|)
  {
    hide SpanTurns, Transcript;
    var lines := Transcript(r.source, log);
    TranscriptInOrder(r.source, log);
    SpanSuffix(lines, from, start);
    assert t[n..] + [] == t[n..];
    assert from == 0 ==> t[n..] == t == SpanTurns(lines, 0, start);
  }

  /** Turn `i` of the transcript starts at `end`, and the turns from it to turn `j` are `ps`. */
  ghost predicate Reaches(source: Source, log: Log, end: Pos, i: int, j: nat, ps: seq<Placed>)
  {
    var whole := Whole(Transcript(source, log));
    0 <= i <= j <= |whole| && EndsAt(source, log, end, i) && ps == whole[i..j]
  }

  /** The turns a span adds to a page, or that it started too late to tell. */
  method Extend(r: Reader, log: Log, ghost top: Pos, end: Pos, limit: int, span: int, ps: seq<Placed>, ghost i: int, ghost j: nat)
    returns (from: nat, late: bool, all: seq<Placed>, ghost k: int)
    requires 0 <= end.off <= |log.data| && end.nth >= 0 && span >= r.Probe()
    requires Taken(r.source, log, top, end, ps)
    requires OneSpan(r, log, top, limit) ==> ps == []
    ensures from > 0 ==> limit > 0 && span < end.off
    ensures late ==> from > 0
    ensures from > 0 && (forall off :: r.missed(from, off)) ==> late
    ensures !late ==> Taken(r.source, log, top, if all == [] then top else all[0].pos, all)
    ensures !late && from > 0 ==> |all| > |ps| && Precedes(all[0].pos, end)
    ensures !late && OneSpan(r, log, top, limit) ==>
              IsNewest(r, log, top, limit, Newest(all, limit), from > 0 || 0 < limit < |all|)
    ensures !late && Pageable(r.source, log) && Reaches(r.source, log, end, i, j, ps) ==>
              var whole := Whole(Transcript(r.source, log));
              0 <= k <= j <= |whole| && all == whole[k..j] && (k == 0 <==> from == 0)
  {
    hide Whole, Transcript, Pageable, Named, EndsAt, SpanTurns, OnLines, Taken, EndsOnLine, WellFormed, Newest, OneSpan, IsNewest;
    TakenEnd(r.source, log, top, end, ps);
    var t, cold;
    from, t, cold := ReadBack(r, log, end, limit, span, i);
    late := from > 0 && (|t| <= WARM || true in cold[WARM..]);
    assert |t| > WARM ==> cold[WARM..][0] == cold[WARM];
    var skip := if from > 0 && !late then WARM else 0;
    all, k := t[skip..] + ps, i - (|t| - skip);
    if !late {
      TakeSpan(r.source, log, top, end, ps, t, skip);
      if Pageable(r.source, log) && Reaches(r.source, log, end, i, j, ps) {
        Joined(Whole(Transcript(r.source, log)), t, ps, skip, i, j);
      }
      if OneSpan(r, log, top, limit) {
        InOneSpan(r, log, top, limit);
        SpanNewest(r, log, from, top, limit, t, skip);
      }
    }
  }

  /** What is so of a page that stops short of `top`, where the transcript's turn `j` starts, made of the turns taken. */
  ghost predicate Answers(r: Reader, log: Log, top: Pos, limit: int, j: nat, page: Page, took: seq<Placed>)
  {
    && Named(took) && page.turns == Show(took)
    && (limit > 0 ==> |page.turns| <= limit)
    && (page.more ==> limit > 0 && took != [])
    && (took != [] ==> Taken(r.source, log, top, took[0].pos, took))
    && (Pageable(r.source, log) && EndsAt(r.source, log, top, j) ==>
          IsPage(Whole(Transcript(r.source, log)), j, limit, page))
    && (OneSpan(r, log, top, limit) ==> IsNewest(r, log, top, limit, took, page.more))
  }

  /** The turns of the spans so far, the first of them from the head of the log if `whole`, make a page. */
  lemma PageDone(r: Reader, log: Log, top: Pos, limit: int, i: int, j: nat, ps: seq<Placed>, whole: bool)
    requires Taken(r.source, log, top, if ps == [] then top else ps[0].pos, ps)
    requires !whole ==> limit > 0 && ps != []
    requires OneSpan(r, log, top, limit) ==> IsNewest(r, log, top, limit, Newest(ps, limit), !whole || 0 < limit < |ps|)
    requires Pageable(r.source, log) && EndsAt(r.source, log, top, j) ==>
               var turns := Whole(Transcript(r.source, log));
               0 <= i <= j <= |turns| && ps == turns[i..j] && (i == 0 <==> whole)
    ensures Named(Newest(ps, limit))
    ensures Answers(r, log, top, limit, j, Page(Show(Newest(ps, limit)), !whole || 0 < limit < |ps|), Newest(ps, limit))
  {
    hide Whole, Transcript, Pageable, Show, EndsAt, OneSpan, IsNewest, IsPage, Taken;
    var took := Newest(ps, limit);
    TakenNamed(r.source, log, top, ps);
    if 0 < limit < |ps| {
      TakeLast(r.source, log, top, ps[0].pos, ps, |ps| - limit);
      TakenNamed(r.source, log, top, took);
    }
    if Pageable(r.source, log) && EndsAt(r.source, log, top, j) {
      var turns := Whole(Transcript(r.source, log));
      if 0 < limit < |ps| {
        LastOf(turns, ps, limit, i, j);
      }
      PageIs(turns, j - |took|, j, took, limit, !whole || 0 < limit < |ps|);
    }
  }

  /** The spans of a page, read back one ahead of the other until it is full. */
  method ReadPage(r: Reader, log: Log, top: Pos, limit: int, ghost j: nat)
    returns (page: Page, ghost spans: seq<Stretch>, ghost took: seq<Placed>)
    requires 0 <= top.off <= |log.data| && top.nth >= 0
    ensures Answers(r, log, top, limit, j, page, took)
    ensures page.more ==> |page.turns| == limit || Cost(spans) >= r.Budget()
    ensures Stops(spans, r.Budget()) && Warm(r, spans)
  {
    hide Whole, Transcript, Pageable, Named, EndsAt, Taken, WellFormed, Newest, OneSpan, IsNewest, Reaches, Answers, Show, Cost, Stops;
    spans, took := [], [];
    ghost var good := Pageable(r.source, log) && EndsAt(r.source, log, top, j);
    ghost var i: int := j;
    var ps: seq<Placed> := [];
    var end, span, parsed := top, r.Probe(), 0;
    NothingYet(r.source, log, top, j);
    CostOf([], Stretch(0, 0, false), r.Budget());
    while true
      invariant 0 <= end.off <= |log.data| && end.nth >= 0 && span >= r.Probe()
      invariant Taken(r.source, log, top, end, ps)
      invariant (limit > 0 ==> |ps| < limit) && parsed == Cost(spans)
      invariant Warm(r, spans)
      invariant Stops(spans, r.Budget()) && (spans == [] || spans[|spans| - 1].late || parsed < r.Budget())
      invariant good ==> Reaches(r.source, log, end, i, j, ps)
      invariant OneSpan(r, log, top, limit) ==> ps == []
      decreases end.off, end.nth, |log.data| - span
    {
      var from, late, all, k := Extend(r, log, top, end, limit, span, ps, i, j);
      parsed := parsed + end.off - from;
      CostOf(spans, Stretch(from, end.off, late), r.Budget());
      spans := spans + [Stretch(from, end.off, late)];
      if late {
        span := span * 4;
        continue;
      }
      ps, i, took := all, k, Newest(all, limit);
      NewestIs(ps, limit);
      PageDone(r, log, top, limit, i, j, ps, from == 0);
      if limit > 0 && |ps| > limit {
        return Page(Show(ps[|ps| - limit..]), true), spans, took;
      }
      if from == 0 {
        return Page(Show(ps), false), spans, took;
      }
      if |ps| == limit || parsed >= r.Budget() {
        return Page(Show(ps), true), spans, took;
      }
      NextEnd(r, log, top, limit, ps, i, j);
      end := ps[0].pos;
      if span < SPAN_MAX {
        span := span * 2;
      }
    }
  }

  /**
   `Reader.Before`. The ghost `j` is how many turns the transcript has ahead of
   the cursor; what is said of it holds whenever the cursor names such a place.
   `spans` are the stretches it parsed, `took` the turns it found with their
   places. What a page of one turn, or one had from one span, holds is told for
   any well-formed log and any place on a line of its transcript.
   */
  method Before(r: Reader, log: Log, before: string, limit: int, ghost j: nat)
    returns (res: Result<Page>, ghost spans: seq<Stretch>, ghost took: seq<Placed>)
    ensures res.BadCursor? <==> before != "" && ParseCursor(before).None?
    ensures res.Ok? ==> EndOf(log, before).Some? && Named(took) && res.value.turns == Show(took)
    ensures res.Ok? && limit > 0 ==> |res.value.turns| <= limit
    ensures res.Ok? && res.value.more ==>
              && limit > 0 && took != []
              && (|res.value.turns| == limit || Cost(spans) >= r.Budget())
    ensures Stops(spans, r.Budget()) && Warm(r, spans)
    ensures res.Ok? && took != [] ==> Taken(r.source, log, EndOf(log, before).value, took[0].pos, took)
    ensures Pageable(r.source, log) && CursorAt(r.source, log, before, j) ==>
              res.Ok? && IsPage(Whole(Transcript(r.source, log)), j, limit, res.value)
    ensures res.Ok? && OneSpan(r, log, EndOf(log, before).value, limit) ==>
              IsNewest(r, log, EndOf(log, before).value, limit, took, res.value.more)
  {
    hide Whole, Transcript, Pageable, ParseCursor, IsPage, Named, EndsAt, Show, Cost, Taken, WellFormed, EndOf, OneSpan, IsNewest;
    spans, took := [], [];
    var start := StartAt(log, before);
    if start == None {
      return BadCursor, spans, took;
    }
    var page;
    page, spans, took := ReadPage(r, log, start.value, limit, j);
    return Ok(page), spans, took;
  }

  lemma TakenEnd(source: Source, log: Log, start: Pos, end: Pos, ps: seq<Placed>)
    requires Taken(source, log, start, end, ps)
    ensures WellFormed(source, log) && EndsOnLine(source, log, start) ==> EndsOnLine(source, log, end)
    ensures ps == [] ==> end == start
  {}

  lemma TakenNamed(source: Source, log: Log, start: Pos, ps: seq<Placed>)
    requires Taken(source, log, start, if ps == [] then start else ps[0].pos, ps)
    ensures Named(ps) && (ps != [] ==> Taken(source, log, start, ps[0].pos, ps))
  {}

  lemma InOneSpan(r: Reader, log: Log, start: Pos, limit: int)
    requires OneSpan(r, log, start, limit)
    ensures WellFormed(r.source, log) && EndsOnLine(r.source, log, start) && (limit <= 1 || start.off <= r.Probe())
  {}

  lemma NewestIs(ps: seq<Placed>, limit: int)
    ensures Newest(ps, limit) == if 0 < limit < |ps| then ps[|ps| - limit..] else ps
  {}

  lemma NothingYet(source: Source, log: Log, top: Pos, j: nat)
    ensures Taken(source, log, top, top, [])
    ensures EndsAt(source, log, top, j) ==> Reaches(source, log, top, j, j, [])
  {}

  lemma NextEnd(r: Reader, log: Log, top: Pos, limit: int, ps: seq<Placed>, i: int, j: nat)
    requires Taken(r.source, log, top, if ps == [] then top else ps[0].pos, ps) && ps != []
    ensures ps[0].pos.off >= 0 && ps[0].pos.nth >= 0
    ensures var whole := Whole(Transcript(r.source, log));
            0 <= i <= j <= |whole| && ps == whole[i..j] ==> Reaches(r.source, log, ps[0].pos, i, j, ps)
    ensures OneSpan(r, log, top, limit) ==> limit <= 1 || top.off <= r.Probe()
  {}

  // -------------------------------------------------------------- catch-up

  /** The turns from the one that starts at `p` on, or none when no turn starts there. */
  function From(ps: seq<Placed>, p: Pos): seq<Placed>
  {
    if ps == [] || ps[0].pos == p then ps else From(ps[1..], p)
  }

  lemma {:induction false} FromAt(ps: seq<Placed>, p: Pos, i: nat)
    requires i <= |ps| && (i < |ps| ==> ps[i].pos == p)
    requires forall k :: 0 <= k < i ==> ps[k].pos != p
    ensures From(ps, p) == ps[i..]
    decreases i
  {
    if i > 0 {
      FromAt(ps[1..], p, i - 1);
    }
  }

  /** Past the warm-up turns, a span from ahead of the cursor's turn finds what the whole transcript would. */
  lemma FromSkips(whole: seq<Placed>, i: nat, p: Pos)
    requires Increasing(whole) && i < |whole| && !Precedes(p, whole[i].pos)
    ensures From(whole[i..], p) == From(whole, p)
  {
    if k :| 0 <= k < |whole| && whole[k].pos == p {
      assert k == i || Precedes(whole[k].pos, whole[i].pos) || Precedes(whole[i].pos, whole[k].pos);
      assert k >= i;
      assert forall m :: 0 <= m < k ==> Precedes(whole[m].pos, whole[k].pos);
      FromAt(whole, p, k);
      assert forall m :: 0 <= m < k - i ==> whole[i..][m].pos == whole[i + m].pos;
      FromAt(whole[i..], p, k - i);
    } else {
      FromAt(whole, p, |whole|);
      FromAt(whole[i..], p, |whole| - i);
    }
  }

  /** The kept turns searched for the one the cursor names. */
  method Search(ps: seq<Placed>, p: Pos) returns (rest: seq<Placed>)
    ensures rest == From(ps, p)
  {
    var i := 0;
    while i < |ps|
      invariant i <= |ps|
      invariant forall k :: 0 <= k < i ==> ps[k].pos != p
    {
      if ps[i].pos == p {
        FromAt(ps, p, i);
        return ps[i..];
      }
      i := i + 1;
    }
    FromAt(ps, p, |ps|);
    return [];
  }

  /** One span read on from ahead of the cursor to the end of the log. */
  method ReadOn(r: Reader, log: Log, at: Pos, span: int) returns (start: nat, ps: seq<Placed>, cold: seq<bool>)
    requires span > 0
    ensures |cold| == |ps| && Named(ps) && Marked(r, start, cold)
    ensures start > 0 ==> span < at.off
    ensures WellFormed(r.source, log) ==>
              var whole := Whole(Transcript(r.source, log));
              && |ps| <= |whole| && ps == whole[|whole| - |ps|..]
              && (start == 0 ==> ps == whole)
  {
    hide Whole, Transcript, SpanTurns, WellFormed;
    start := 0;
    if span < at.off {
      start := LineStart(log.data, at.off - span);
    }
    ps, cold := ReadSpan(r, log, start, Pos(|log.data|, 0));
    if WellFormed(r.source, log) {
      TranscriptInOrder(r.source, log);
      SpanIsSlice(Transcript(r.source, log), |log.data|, start, Pos(|log.data|, 0), |Whole(Transcript(r.source, log))|);
    }
  }

  /**
   `Reader.From`: exactly the transcript from the turn at the cursor on, for any
   cursor and any log, or nothing when no turn starts there.
   */
  method ReadFrom(r: Reader, log: Log, from: string) returns (res: Result<seq<Shown>>, ghost start: nat)
    ensures res.BadCursor? <==> ParseCursor(from).None?
    ensures res.Ok? && start > 0 ==> !forall off :: r.missed(start, off)
    ensures WellFormed(r.source, log) && res.Ok? ==>
              var rest := From(Whole(Transcript(r.source, log)), ParseCursor(from).value);
              Named(rest) && res.value == Show(rest)
  {
    hide Whole, Transcript, Cursor, WellFormed, ParseCursor, From;
    var at := ParseCursor(from);
    start := 0;
    if at == None {
      return BadCursor, start;
    }
    var p := at.value;
    var span := r.Probe();
    while true
      invariant span > 0
      decreases p.off - span
    {
      var begin, ps, cold := ReadOn(r, log, p, span);
      start := begin;
      if begin > 0 {
        assert |ps| > WARM ==> cold[WARM..][0] == cold[WARM];
        if |ps| <= WARM || Precedes(p, ps[WARM].pos) || true in cold[WARM..] {
          span := span * 4;
          continue;
        }
        if WellFormed(r.source, log) {
          WholeFrom(r.source, log, ps, p);
        }
        NamedParts(ps, [], WARM);
        ps := ps[WARM..];
      }
      NamedFrom(ps, p);
      var rest := Search(ps, p);
      return Ok(Show(rest)), start;
    }
  }

  lemma {:induction false} NamedFrom(ps: seq<Placed>, p: Pos)
    requires Named(ps)
    ensures Named(From(ps, p))
  {
    if ps != [] && ps[0].pos != p {
      NamedFrom(ps[1..], p);
    }
  }

  lemma WholeFrom(source: Source, log: Log, ps: seq<Placed>, p: Pos)
    requires var whole := Whole(Transcript(source, log)); |ps| <= |whole| && ps == whole[|whole| - |ps|..]
    requires |ps| > WARM && !Precedes(p, ps[WARM].pos)
    ensures From(ps[WARM..], p) == From(Whole(Transcript(source, log)), p)
  {
    hide Whole, Transcript, From;
    var whole := Whole(Transcript(source, log));
    TranscriptInOrder(source, log);
    WholeIncreasing(Transcript(source, log));
    FromSkips(whole, |whole| - |ps| + WARM, p);
    assert ps[WARM..] == whole[|whole| - |ps| + WARM..];
  }

  // ------------------------------------------------------ reading it all back

  /** Every turn's cursor, read back, names that turn. */
  lemma CursorNames(source: Source, log: Log, j: nat)
    requires |log.data| <= Decimal.INT64_MAX && j < |Whole(Transcript(source, log))|
    ensures var p := Whole(Transcript(source, log))[j].pos;
            p.off >= 0 && p.nth >= 0 && Cursor(p) != "" && CursorAt(source, log, Cursor(p), j)
  {
    hide Whole, Transcript;
    var lines := Transcript(source, log);
    TranscriptInOrder(source, log);
    TurnLine(lines, j);
    TurnNth(lines, j);
    ParseOfCursor(Whole(lines)[j].pos);
  }

  lemma TurnNth(lines: seq<Line<Record>>, j: nat)
    requires Sorted(lines) && j < |Whole(lines)|
    ensures Whole(lines)[j].pos.nth <= 1
  {
    ParseAbove(COLD, lines, 0);
  }

  /** Whole transcripts name every turn. */
  lemma WholeNamed(lines: seq<Line<Record>>)
    requires Sorted(lines)
    ensures Named(Whole(lines))
  {
    hide Whole;
    forall j | 0 <= j < |Whole(lines)| ensures Whole(lines)[j].pos.off >= 0 && Whole(lines)[j].pos.nth >= 0 {
      TurnLine(lines, j);
    }
  }

  /** The turns had so far are the last ones of the transcript. */
  predicate Matches(all: seq<Shown>, shown: seq<Shown>)
  {
    |all| <= |shown| && all == shown[|shown| - |all|..]
  }

  /** Pages of `limit` turns, read back from the newest, end `n` turns from the end of the transcript. */
  predicate EndsPage(limit: int, n: int)
  {
    limit > 0 && n >= limit && (n == limit || EndsPage(limit, n - limit))
  }

  /** Such pages end next one limit on, and not before that. */
  lemma {:induction false} NextPage(limit: int, n: int)
    requires limit > 0 && (n == 0 || EndsPage(limit, n))
    ensures EndsPage(limit, n + limit) && forall d :: n < d < n + limit ==> !EndsPage(limit, d)
    decreases n
  {
    if n > limit {
      NextPage(limit, n - limit);
    }
  }

  lemma {:induction false} EveryPage(n: int)
    ensures EndsPage(1, n) <==> n > 0
    decreases n
  {
    if n > 1 {
      EveryPage(n - 1);
    }
  }

  /** Wherever a page ends on turn `n` of the transcript or a later one, reading up to there ends with the turn ahead. */
  ghost predicate PagesJoin(lines: seq<Line<Record>>, limit: int, n: int)
  {
    forall j :: n <= j < |Whole(lines)| && j > 0 && EndsPage(limit, |Whole(lines)| - j) ==> JoinsAt(lines, j)
  }

  /**
   The turns had so far are the transcript's if and only if the pages that ended
   all joined; then they reach back to the turn where the last one ended.
   */
  ghost predicate SoFar(source: Source, log: Log, limit: int, end: Pos, all: seq<Shown>)
  {
    var lines := Transcript(source, log);
    var n := |Whole(lines)| - |all|;
    && Named(Whole(lines))
    && (Matches(all, Show(Whole(lines))) ==>
          EndsAt(source, log, end, n) && (all == [] || EndsPage(limit, |all|)) && PagesJoin(lines, limit, n + 1))
    && (!Matches(all, Show(Whole(lines))) ==> !PagesJoin(lines, limit, 0))
  }

  lemma SameCursor(p: Pos, q: Pos)
    requires 0 <= p.off <= Decimal.INT64_MAX && 0 <= p.nth <= 1 && 0 <= q.off <= Decimal.INT64_MAX && 0 <= q.nth <= 1
    requires Cursor(p) == Cursor(q)
    ensures p == q
  {
    ParseOfCursor(p);
    ParseOfCursor(q);
  }

  lemma MatchesMore(a: seq<Shown>, all: seq<Shown>, shown: seq<Shown>)
    requires Matches(a + all, shown)
    ensures var n := |shown| - |all|; Matches(all, shown) && |a| <= n && a == shown[n - |a|..n]
  {
    var n := |shown| - |all|;
    assert shown[n - |a|..][|a|..] == all && shown[n - |a|..][..|a|] == a;
  }

  lemma OnLog(source: Source, log: Log, p: Pos)
    requires HasLine(Transcript(source, log), p.off)
    ensures 0 <= p.off < |log.data|
  {
    TranscriptInOrder(source, log);
  }

  /** A turn on the log, shown as one of the transcript's is, is that one. */
  lemma SameTurnShown(source: Source, log: Log, x: Placed, i: nat)
    requires |log.data| <= Decimal.INT64_MAX && i < |Whole(Transcript(source, log))|
    requires x.pos.off >= 0 && 0 <= x.pos.nth <= 1 && HasLine(Transcript(source, log), x.pos.off)
    requires Named(Whole(Transcript(source, log)))
    requires Show(Whole(Transcript(source, log)))[i] == Shown(x.turn, Cursor(x.pos))
    ensures Whole(Transcript(source, log))[i] == x
  {
    hide Transcript, Whole, Cursor;
    var lines := Transcript(source, log);
    TranscriptInOrder(source, log);
    OnLog(source, log, x.pos);
    TurnLine(lines, i);
    TurnNth(lines, i);
    OnLog(source, log, Whole(lines)[i].pos);
    SameCursor(x.pos, Whole(lines)[i].pos);
  }

  /** What reading up to turn `n`, or the end, yields: those ahead of it, unless it does not join. */
  lemma AheadIs(source: Source, log: Log, end: Pos, n: nat)
    requires EndsAt(source, log, end, n)
    ensures var lines := Transcript(source, log);
            && n <= |Whole(lines)|
            && (SpanTurns(lines, 0, end) == Whole(lines)[..n] <==> n == 0 || n == |Whole(lines)| || JoinsAt(lines, n))
  {
    hide Transcript, Whole, SpanTurns;
    var lines := Transcript(source, log);
    TranscriptInOrder(source, log);
    if n < |Whole(lines)| {
      EndsShort(source, log, end, n);
      JoinsWhole(lines, n);
    } else {
      SpanIsSlice(lines, |log.data|, 0, end, n);
    }
  }

  lemma EndsShort(source: Source, log: Log, end: Pos, n: nat)
    requires EndsAt(source, log, end, n) && n < |Whole(Transcript(source, log))|
    ensures end == Whole(Transcript(source, log))[n].pos
  {}

  /** A page whose last turn is not the one ahead of where it ends does not match. */
  lemma NoMatch(source: Source, log: Log, ahead: seq<Placed>, limit: int, took: seq<Placed>, all: seq<Shown>)
    requires |log.data| <= Decimal.INT64_MAX && Named(Whole(Transcript(source, log))) && Named(took)
    requires OnLines(Transcript(source, log), took) && took != [] && took == Newest(ahead, limit)
    requires Matches(Show(took) + all, Show(Whole(Transcript(source, log))))
    ensures 0 < |Whole(Transcript(source, log))| - |all| && ahead != []
    ensures ahead[|ahead| - 1] == Whole(Transcript(source, log))[|Whole(Transcript(source, log))| - |all| - 1]
  {
    hide Transcript, Whole, Cursor, HasLine;
    var lines := Transcript(source, log);
    var whole, x := Whole(lines), took[|took| - 1];
    MatchesMore(Show(took), all, Show(whole));
    var n := |whole| - |all|;
    assert Show(whole)[n - 1] == Show(took)[|took| - 1];
    LastOnLine(lines, took);
    SameTurnShown(source, log, x, n - 1);
  }

  lemma LastOnLine(lines: seq<Line<Record>>, took: seq<Placed>)
    requires OnLines(lines, took) && took != []
    ensures var p := took[|took| - 1].pos; p.off >= 0 && 0 <= p.nth <= 1 && HasLine(lines, p.off)
  {}

  /** A page of the turns ahead of turn `n` of the transcript joins on to those from turn `n` on. */
  lemma PageMatches(whole: seq<Placed>, limit: int, n: nat, took: seq<Placed>, all: seq<Shown>)
    requires n <= |whole| && Named(whole) && |all| == |whole| - n && Matches(all, Show(whole))
    requires Named(took) && took == Newest(whole[..n], limit)
    ensures took == whole[n - |took|..n] && Matches(Show(took) + all, Show(whole))
  {
    hide Cursor;
    assert whole[..n][n - |took|..] == whole[n - |took|..n];
    var i := n - |took|;
    assert Show(whole)[i..] == Show(took) + all;
  }

  /** A page that joins: the next one ends a limit further on, and when there is none every page joined. */
  lemma PageKept(source: Source, log: Log, limit: int, n: nat, took: seq<Placed>, more: bool)
    requires var lines := Transcript(source, log);
             && n <= |Whole(lines)| && took == Newest(Whole(lines)[..n], limit) && (more <==> |took| < n)
             && (n == |Whole(lines)| || EndsPage(limit, |Whole(lines)| - n)) && PagesJoin(lines, limit, n + 1)
             && (n == 0 || n == |Whole(lines)| || JoinsAt(lines, n))
    ensures var lines := Transcript(source, log);
            && (more ==>
                  && |took| == limit > 0 && EndsAt(source, log, took[0].pos, n - limit)
                  && EndsPage(limit, |Whole(lines)| - n + limit) && PagesJoin(lines, limit, n - limit + 1))
            && (!more ==> |took| == n && PagesJoin(lines, limit, 0))
  {
    hide Transcript, Whole, JoinsAt;
    var lines := Transcript(source, log);
    if limit > 0 {
      NextPage(limit, |Whole(lines)| - n);
    }
  }

  lemma PagesBroken(lines: seq<Line<Record>>, limit: int, n: nat)
    requires 0 < n < |Whole(lines)| && !JoinsAt(lines, n) && EndsPage(limit, |Whole(lines)| - n)
    ensures !PagesJoin(lines, limit, 0)
  {
    hide Whole, JoinsAt;
  }

  lemma EndsThere(source: Source, log: Log, end: Pos, n: nat, x: Placed)
    requires EndsAt(source, log, end, n) && 0 < n < |Whole(Transcript(source, log))|
    requires var ahead := SpanTurns(Transcript(source, log), 0, end); ahead != [] && ahead[|ahead| - 1] == x
    requires Whole(Transcript(source, log))[n - 1] == x
    ensures JoinsAt(Transcript(source, log), n)
  {
    hide Transcript, Whole, SpanTurns;
    EndsShort(source, log, end, n);
  }

  /** A page that does not join does not match. */
  lemma PageLost(r: Reader, log: Log, limit: int, end: Pos, took: seq<Placed>, more: bool, all: seq<Shown>, n: nat)
    requires |log.data| <= Decimal.INT64_MAX && Named(Whole(Transcript(r.source, log))) && Named(took)
    requires IsNewest(r, log, end, limit, took, more) && OnLines(Transcript(r.source, log), took)
    requires EndsAt(r.source, log, end, n) && n == |Whole(Transcript(r.source, log))| - |all|
    requires 0 < n < |Whole(Transcript(r.source, log))| && !JoinsAt(Transcript(r.source, log), n)
    ensures more ==> took != []
    ensures took != [] ==> !Matches(Show(took) + all, Show(Whole(Transcript(r.source, log))))
    ensures Show(took) + all != Show(Whole(Transcript(r.source, log)))
  {
    hide Transcript, Whole, SpanTurns, Cursor, HasLine, EndsAt, JoinsAt, OnLines, Matches, Show;
    var lines := Transcript(r.source, log);
    var ahead, shown := SpanTurns(lines, 0, end), Show(Whole(lines));
    if took == [] {
      ShowNothing(all);
    } else if Matches(Show(took) + all, shown) {
      NoMatch(r.source, log, ahead, limit, took, all);
      EndsThere(r.source, log, end, n, ahead[|ahead| - 1]);
    }
    if Show(took) + all == shown { AllMatch(shown); }
  }

  lemma AllMatch(shown: seq<Shown>)
    ensures Matches(shown, shown)
  {}

  /** What one more page comes to: the next place with what had been had before it, or the end. */
  ghost predicate PageTells(source: Source, log: Log, limit: int, took: seq<Placed>, more: bool, next: seq<Shown>)
  {
    var lines := Transcript(source, log);
    && Named(Whole(lines))
    && (more ==> took != [] && SoFar(source, log, limit, took[0].pos, next))
    && (!more ==> (next == Show(Whole(lines)) <==> PagesJoin(lines, limit, 0)))
  }

  lemma LostTells(source: Source, log: Log, limit: int, took: seq<Placed>, more: bool, next: seq<Shown>)
    requires Named(Whole(Transcript(source, log))) && !PagesJoin(Transcript(source, log), limit, 0)
    requires next != Show(Whole(Transcript(source, log)))
    requires more ==> took != [] && !Matches(next, Show(Whole(Transcript(source, log))))
    ensures PageTells(source, log, limit, took, more, next)
  {
    hide Transcript, Whole, PagesJoin, Matches, Show, Named;
  }

  lemma KeptTells(r: Reader, log: Log, limit: int, end: Pos, took: seq<Placed>, more: bool, all: seq<Shown>, n: nat)
    requires Named(Whole(Transcript(r.source, log))) && Named(took) && IsNewest(r, log, end, limit, took, more)
    requires var lines := Transcript(r.source, log);
             && |all| + n == |Whole(lines)| && Matches(all, Show(Whole(lines))) && PagesJoin(lines, limit, n + 1)
             && EndsAt(r.source, log, end, n) && (all == [] || EndsPage(limit, |all|))
             && (n == 0 || n == |Whole(lines)| || JoinsAt(lines, n))
    ensures PageTells(r.source, log, limit, took, more, Show(took) + all)
  {
    hide Transcript, Whole, SpanTurns, JoinsAt, EndsAt, PagesJoin, EndsPage, Show, Named, Matches, Newest;
    var whole := Whole(Transcript(r.source, log));
    AheadIs(r.source, log, end, n);
    PageMatches(whole, limit, n, took, all);
    PageKept(r.source, log, limit, n, took, more);
    MatchAll(Show(took) + all, Show(whole));
  }

  lemma MatchAll(all: seq<Shown>, shown: seq<Shown>)
    requires Matches(all, shown)
    ensures |all| <= |shown| && (|all| == |shown| ==> all == shown)
  {}

  /** One more page, of the turns that reading up to `end` yields last. */
  lemma SoFarMore(r: Reader, log: Log, limit: int, end: Pos, took: seq<Placed>, more: bool, all: seq<Shown>)
    requires |log.data| <= Decimal.INT64_MAX
    requires SoFar(r.source, log, limit, end, all) && IsNewest(r, log, end, limit, took, more) && Named(took)
    requires OnLines(Transcript(r.source, log), took)
    ensures PageTells(r.source, log, limit, took, more, Show(took) + all)
  {
    hide Transcript, Whole, SpanTurns, OnLines, PagesJoin, JoinsAt, EndsAt, EndsPage, Show, Named, IsNewest, PageTells, Matches;
    var lines := Transcript(r.source, log);
    var whole, next := Whole(lines), Show(took) + all;
    if Matches(all, Show(whole)) {
      Shorter(all, Show(whole));
      var n: nat := |whole| - |all|;
      AheadIs(r.source, log, end, n);
      if n == 0 || n == |whole| || JoinsAt(lines, n) {
        KeptTells(r, log, limit, end, took, more, all, n);
      } else {
        PageLost(r, log, limit, end, took, more, all, n);
        PagesBroken(lines, limit, n);
        LostTells(r.source, log, limit, took, more, next);
      }
    } else {
      if Matches(next, Show(whole)) { MatchesMore(Show(took), all, Show(whole)); }
      if next == Show(whole) { AllMatch(next); }
      if more { NewestSome(r, log, end, limit, took); }
      LostTells(r.source, log, limit, took, more, next);
    }
  }

  lemma Shorter(all: seq<Shown>, shown: seq<Shown>)
    requires Matches(all, shown)
    ensures |all| <= |shown|
  {}

  lemma NewestSome(r: Reader, log: Log, end: Pos, limit: int, took: seq<Placed>)
    requires IsNewest(r, log, end, limit, took, true)
    ensures took != []
  {
    hide SpanTurns, Transcript;
  }

  /** The cursor a client passes on: of a turn ahead of where the page ended, and on a line. */
  lemma NextCursor(source: Source, log: Log, top: Pos, took: seq<Placed>)
    requires WellFormed(source, log) && |log.data| <= Decimal.INT64_MAX && EndsOnLine(source, log, top)
    requires took != [] && Taken(source, log, top, took[0].pos, took)
    ensures OnLines(Transcript(source, log), took)
    ensures var p := took[0].pos;
            && p.off >= 0 && p.nth >= 0 && Precedes(p, top) && EndsOnLine(source, log, p)
            && Cursor(p) != "" && ParseCursor(Cursor(p)).Some? && EndOf(log, Cursor(p)) == Some(p)
  {
    hide Transcript, Whole, WellFormed, Cursor;
    OnLog(source, log, took[0].pos);
    ParseOfCursor(took[0].pos);
    CursorSomething(took[0].pos);
  }

  lemma CursorSomething(p: Pos)
    requires p.off >= 0 && p.nth >= 0
    ensures Cursor(p) != ""
  {}

  /**
   A client reading back from the newest page, each time passing the cursor of
   the first turn it has, comes to an end, whatever the log. If the log is
   self-contained it has then been given exactly the whole transcript: no turn
   lost, repeated or out of order, whatever the limit, probe and budget. On any
   other log it has if and only if reading up to each turn where a page ends
   finds the turn ahead of it, when the pages are of one turn or had from one
   span each; so one turn at a time it has only if the log is self-contained.
   */
  method PageBack(r: Reader, log: Log, limit: int) returns (all: seq<Shown>)
    requires WellFormed(r.source, log) && |log.data| <= Decimal.INT64_MAX
    ensures Named(Whole(Transcript(r.source, log)))
    ensures SelfContained(Transcript(r.source, log)) ==> all == Show(Whole(Transcript(r.source, log)))
    ensures limit <= 1 || |log.data| <= r.Probe() ==>
              (all == Show(Whole(Transcript(r.source, log))) <==> PagesJoin(Transcript(r.source, log), limit, 0))
    ensures limit == 1 && all == Show(Whole(Transcript(r.source, log))) ==> SelfContained(Transcript(r.source, log))
  {
    hide Whole, Transcript, Cursor, CursorAt, IsPage, ParseCursor, WellFormed, SoFar, EndsOnLine, EndOf, OnLines;
    hide OneSpan, IsNewest, Taken, SelfContained, Show, Named, PagesJoin;
    ghost var lines := Transcript(r.source, log);
    TranscriptInOrder(r.source, log);
    WholeNamed(lines);
    ghost var shown := Show(Whole(lines));
    ghost var direct := limit <= 1 || |log.data| <= r.Probe();
    all := [];
    var before := "";
    ghost var j: nat := |Whole(lines)|;
    ghost var end := Pos(|log.data|, 0);
    EndCursor(r.source, log, limit);
    while true
      invariant EndOf(log, before) == Some(end) && 0 <= end.off <= |log.data| && end.nth >= 0 && EndsOnLine(r.source, log, end)
      invariant before != "" ==> ParseCursor(before).Some?
      invariant SelfContained(lines) ==> j <= |shown| && CursorAt(r.source, log, before, j) && all == shown[j..]
      invariant direct ==> SoFar(r.source, log, limit, end, all)
      decreases end.off, end.nth
    {
      var res, spans, took := Before(r, log, before, limit, j);
      var page := res.value;
      if SelfContained(lines) {
        PageShows(Whole(lines), j, limit, page);
        j := j - |page.turns|;
      }
      ghost var had := all;
      all := page.turns + all;
      TookOnLines(r.source, log, end, took);
      if direct {
        DirectPage(r, log, end, limit);
        SoFarMore(r, log, limit, end, took, page.more, had);
      }
      if !page.more {
        if limit == 1 { EveryPageJoins(lines); }
        return;
      }
      NextCursor(r.source, log, end, took);
      end := took[0].pos;
      if SelfContained(lines) {
        CursorNames(r.source, log, j);
      }
      before := all[0].cursor;
      assert before == Cursor(took[0].pos) by { ShowFirst(took, had); }
    }
  }

  lemma TookOnLines(source: Source, log: Log, top: Pos, took: seq<Placed>)
    requires WellFormed(source, log) && EndsOnLine(source, log, top)
    requires took != [] ==> Taken(source, log, top, took[0].pos, took)
    ensures OnLines(Transcript(source, log), took)
  {
    hide Transcript, WellFormed, EndsOnLine;
  }

  lemma DirectPage(r: Reader, log: Log, end: Pos, limit: int)
    requires WellFormed(r.source, log) && EndsOnLine(r.source, log, end) && (limit <= 1 || end.off <= r.Probe())
    ensures OneSpan(r, log, end, limit)
  {}

  lemma EveryPageJoins(lines: seq<Line<Record>>)
    requires Sorted(lines)
    ensures PagesJoin(lines, 1, 0) <==> SelfContained(lines)
  {
    hide Whole, SelfContained, JoinsAt;
    JoinsExact(lines);
    forall n: int ensures EndsPage(1, n) <==> n > 0 { EveryPage(n); }
  }

  lemma ShowFirst(took: seq<Placed>, had: seq<Shown>)
    requires Named(took) && took != []
    ensures took[0].pos.off >= 0 && took[0].pos.nth >= 0 && Show(took) != [] && (Show(took) + had)[0].cursor == Cursor(took[0].pos)
  {}

  lemma EndCursor(source: Source, log: Log, limit: int)
    ensures CursorAt(source, log, "", |Whole(Transcript(source, log))|)
    ensures EndOf(log, "") == Some(Pos(|log.data|, 0)) && EndsOnLine(source, log, Pos(|log.data|, 0))
    ensures SoFar(source, log, limit, Pos(|log.data|, 0), [])
  {
    TranscriptInOrder(source, log);
    WholeNamed(Transcript(source, log));
  }

  lemma ShowNothing(all: seq<Shown>)
    ensures Named([]) && Show([]) + all == all
  {}

  lemma PageShows(whole: seq<Placed>, j: nat, limit: int, page: Page)
    requires IsPage(whole, j, limit, page) && Named(whole)
    ensures |page.turns| <= j <= |whole| && page.turns == Show(whole)[j - |page.turns|..j]
    ensures page.more <==> |page.turns| < j
    ensures page.more ==> |page.turns| > 0
  {}
}
