/**
 Where a transcript can be cut. A page ends where an older one's turns begin, so
 the older page assembles the log only up to that turn; these lemmas say for
 which turns that loses nothing.
 */
module TurnCuts {
  import opened Lines
  import opened Options
  import opened PiTranscript
  import opened TurnSpans

  /** A failed response whose record changes nothing in the assistant turn it ends. */
  predicate AddsNothing(cur: Option<Turn>, rec: Record)
    requires Fails(rec)
  {
    && PartsOf(rec.blocks.value) == []
    && (cur.None? || cur.value.parts == [] || rec.model == "" || rec.model == cur.value.model)
  }

  /** The line does not report a failure of a turn an earlier line opened, or adds nothing to that turn. */
  predicate CleanAt(lines: seq<Line<Record>>, m: nat)
    requires m < |lines|
  {
    var s := Run(COLD, lines[..m]);
    Fails(lines[m].body) && s.open >= 0 ==> AddsNothing(s.cur, lines[m].body)
  }

  ghost predicate SelfContained(lines: seq<Line<Record>>)
  {
    forall m :: 0 <= m < |lines| ==> CleanAt(lines, m)
  }

  lemma AddsNothingExact(cur: Option<Turn>, rec: Record)
    requires Fails(rec)
    ensures Flushed(Some(Absorb(cur, rec))) == Flushed(cur) <==> AddsNothing(cur, rec)
  {
    if cur.Some? {
      var t := Absorb(cur, rec);
      assert t.parts == cur.value.parts + PartsOf(rec.blocks.value);
      if PartsOf(rec.blocks.value) == [] {
        assert t.parts == cur.value.parts;
      } else {
        assert |t.parts| > |cur.value.parts|;
      }
    }
  }

  /** Stopping short of a line that ends an open turn flushes that turn as the line would, unless the line adds to it. */
  lemma CutStep(s: Scan, l: Line<Record>)
    requires Inv(s, l.off) && s.open >= 0
    requires var out := Step(s, l).1; out != [] && out[|out| - 1].turn.role != Assistant
    ensures var out := Step(s, l).1;
            Flush(s) == out[..|out| - 1] <==> (Fails(l.body) ==> AddsNothing(s.cur, l.body))
  {
    StepOut(s, l);
    var out := Step(s, l).1;
    var done := Feed(s.cur, l.body).1;
    var kept := if Fails(l.body) then Flushed(Some(Absorb(s.cur, l.body))) else Flushed(s.cur);
    assert done == kept + [done[|done| - 1]];
    if Fails(l.body) {
      AddsNothingExact(s.cur, l.body);
    }
    assert Flush(s) == Place(Flushed(s.cur), s.open, s.open, s.last);
    if kept != [] {
      assert out[0] == Placed(kept[0], Pos(s.open, 0));
      assert out[..|out| - 1] == [Placed(kept[0], Pos(s.open, 0))];
    } else {
      assert out[..|out| - 1] == [];
    }
    if Flushed(s.cur) != [] {
      assert Flush(s) == [Placed(Flushed(s.cur)[0], Pos(s.open, 0))];
    }
  }

  /** The whole seen from line `m`: what the lines ahead of it yield, and what the rest does. */
  lemma Halves(lines: seq<Line<Record>>, m: nat)
    requires Sorted(lines) && m <= |lines|
    ensures var s := Run(COLD, lines[..m]);
            && Whole(lines) == Emit(COLD, lines[..m]) + Parse(s, lines[m..])
            && Whole(lines[..m]) == Emit(COLD, lines[..m]) + Flush(s)
            && (m < |lines| ==> Inv(s, lines[m].off))
    ensures forall i :: 0 <= i < |Emit(COLD, lines[..m])| ==>
              m > 0 && 0 <= Emit(COLD, lines[..m])[i].pos.off <= lines[m - 1].off
  {
    hide Step, Feed, Place, Emit, Run, Flush;
    var a, b := lines[..m], lines[m..];
    assert lines == a + b;
    Split(COLD, a, b);
    RunInv(COLD, a, if m < |lines| then lines[m].off else if m > 0 then lines[m - 1].off + 1 else 0);
    EmitBelow(a);
  }

  lemma EmitBelow(lines: seq<Line<Record>>)
    requires Sorted(lines)
    ensures forall i :: 0 <= i < |Emit(COLD, lines)| ==>
              lines != [] && 0 <= Emit(COLD, lines)[i].pos.off <= lines[|lines| - 1].off
  {
    hide Step, Flush;
    ParseAbove(COLD, lines, 0);
    forall i | 0 <= i < |Emit(COLD, lines)|
      ensures lines != [] && 0 <= Emit(COLD, lines)[i].pos.off <= lines[|lines| - 1].off
    {
      assert Emit(COLD, lines)[i] == Parse(COLD, lines)[i];
    }
  }

  /** Cutting at a turn that begins its line yields exactly the turns before it, if and only if the line is clean. */
  lemma CutAt(lines: seq<Line<Record>>, m: nat, j: nat)
    requires Sorted(lines) && m < |lines|
    requires j < |Whole(lines)| && Whole(lines)[j].pos == Pos(lines[m].off, 0)
    ensures Whole(lines[..m]) == Whole(lines)[..j] <==> CleanAt(lines, m)
  {
    hide Step, Feed, Place, Emit, Run, Flush, Increasing, Inv, Parse;
    Halves(lines, m);
    var s, head := Run(COLD, lines[..m]), Emit(COLD, lines[..m]);
    var rest := Parse(s, lines[m..]);
    assert forall i :: 0 <= i < |head| ==> Whole(lines)[i] == head[i];
    var i := j - |head|;
    CutPoint(s, lines[m..], i);
    var cut, whole := Whole(lines[..m]), Whole(lines)[..j];
    assert whole == head + rest[..i];
    assert cut[|head|..] == Flush(s) && whole[|head|..] == rest[..i];
  }

  /** The same, seen from the line the cut falls on. */
  lemma CutPoint(s: Scan, lines: seq<Line<Record>>, i: nat)
    requires lines != [] && Sorted(lines) && Inv(s, lines[0].off)
    requires i < |Parse(s, lines)| && Parse(s, lines)[i].pos == Pos(lines[0].off, 0)
    ensures Flush(s) == Parse(s, lines)[..i]
            <==> (Fails(lines[0].body) && s.open >= 0 ==> AddsNothing(s.cur, lines[0].body))
  {
    hide Step, Feed, Place;
    var l, tail := lines[0], lines[1..];
    var (s', out) := Step(s, l);
    var rest := Parse(s', tail);
    assert Parse(s, lines) == out + rest;
    StepBounds(s, l);
    ParseAbove(s', tail, l.off + 1);
    ParseIncreasing(s, lines, 0);
    if s.open < 0 {
      ParseAbove(s, lines, 0);
      assert !Precedes(Parse(s, lines)[0].pos, Parse(s, lines)[i].pos);
      assert i == 0;
      FlushBounds(s, l.off);
    } else {
      assert forall k :: 0 <= k < |rest| ==> rest[k].pos.off != l.off;
      assert i < |out|;
      CutLast(s, l, i);
      CutStep(s, l);
    }
  }

  lemma CutLast(s: Scan, l: Line<Record>, i: nat)
    requires Inv(s, l.off) && s.open >= 0
    requires i < |Step(s, l).1| && Step(s, l).1[i].pos.off == l.off
    ensures i == |Step(s, l).1| - 1 && Step(s, l).1[i].turn.role != Assistant
  {
    StepOut(s, l);
  }

  /** Cutting partway through a line's turns reads that line whole and drops the turns from the cut on. */
  lemma CutAfter(lines: seq<Line<Record>>, m: nat, j: nat)
    requires Sorted(lines) && m < |lines|
    requires j < |Whole(lines)| && Whole(lines)[j].pos.off == lines[m].off && Whole(lines)[j].pos.nth > 0
    ensures Keep(true, Whole(lines)[j].pos, Whole(lines[..m + 1])) == Whole(lines)[..j]
  {
    hide Step, Feed, Place, Emit, Run, Flush;
    var a, b := lines[..m + 1], lines[m + 1..];
    Halves(lines, m + 1);
    var s, head := Run(COLD, a), Emit(COLD, a);
    var end := Whole(lines)[j].pos;
    var off := if b == [] then lines[m].off + 1 else b[0].off;
    RunInv(COLD, a, off);
    ParseAbove(s, b, off);
    var rest := Parse(s, b);
    assert forall k :: 0 <= k < |rest| ==> rest[k].pos != end;
    assert j < |head|;
    ParseIncreasing(COLD, a, 0);
    assert Whole(a)[j] == head[j] == Whole(lines)[j];
    KeepIs(true, end, Whole(a));
    BelowPrefix(Whole(a), end, j);
    assert Whole(a)[..j] == Whole(lines)[..j];
  }

  ghost predicate OnLine(p: Pos, open: int, lines: seq<Line<Record>>)
  {
    p == Pos(open, 0) || HasLine(lines, p.off)
  }

  lemma StepOnLine(s: Scan, l: Line<Record>)
    requires Inv(s, l.off)
    ensures forall i :: 0 <= i < |Step(s, l).1| ==> OnLine(Step(s, l).1[i].pos, s.open, [l])
    ensures Step(s, l).0.open in {-1, s.open, l.off}
  {
    StepOut(s, l);
    assert [l][0].off == l.off;
  }

  /** Every turn starts on a line of the log. */
  lemma {:induction false} ParseOnLine(s: Scan, lines: seq<Line<Record>>, off: int)
    requires Sorted(lines) && Inv(s, if lines == [] then off else lines[0].off)
    ensures forall i :: 0 <= i < |Parse(s, lines)| ==>
              Parse(s, lines)[i].pos.off >= 0 && OnLine(Parse(s, lines)[i].pos, s.open, lines)
    decreases |lines|
  {
    hide Step, Flush, Place, Flushed;
    ParseAbove(s, lines, off);
    if lines == [] {
      FlushBounds(s, off);
      assert Parse(s, lines) == Flush(s);
    } else {
      var l, tail := lines[0], lines[1..];
      StepBounds(s, l);
      StepOnLine(s, l);
      var (s', out) := Step(s, l);
      var rest := Parse(s', tail);
      assert Parse(s, lines) == out + rest && lines == [l] + tail;
      ParseOnLine(s', tail, l.off + 1);
      assert [l][0].off == l.off;
      forall i | 0 <= i < |Parse(s, lines)| ensures OnLine(Parse(s, lines)[i].pos, s.open, lines) {
        HasLineConcat([l], tail, Parse(s, lines)[i].pos.off);
      }
    }
  }

  /** A turn of the whole starts on the line its offset names. */
  lemma TurnLine(lines: seq<Line<Record>>, j: nat)
    requires Sorted(lines) && j < |Whole(lines)|
    ensures var p := Whole(lines)[j].pos; var m := CountBefore(lines, p.off);
            p.off >= 0 && p.nth >= 0 && m < |lines| && lines[m].off == p.off
  {
    hide Step, Flush, Place, Flushed, Run, Emit, Parse;
    ParseOnLine(COLD, lines, 0);
    ParseAbove(COLD, lines, 0);
    var p := Whole(lines)[j].pos;
    var k :| 0 <= k < |lines| && lines[k].off == p.off;
    assert CountBefore(lines, p.off) == k;
  }

  /** The line that makes a cut lossy yields a turn of its own, and cutting there loses what the line added. */
  lemma DirtyCut(lines: seq<Line<Record>>, m: nat) returns (j: nat)
    requires Sorted(lines) && m < |lines| && !CleanAt(lines, m)
    ensures j < |Whole(lines)| && Whole(lines)[j].pos == Pos(lines[m].off, 0) && Whole(lines)[j].turn.role == Error
    ensures Whole(lines[..m]) != Whole(lines)[..j]
  {
    hide Step, Feed, Place, Emit, Run, Flush, Parse, Inv;
    Halves(lines, m);
    var s, head, l := Run(COLD, lines[..m]), Emit(COLD, lines[..m]), lines[m];
    FailsOut(s, l);
    var out := Step(s, l).1;
    j := |head| + |out| - 1;
    assert lines[m..] == [l] + lines[m + 1..];
    ParseCons(s, l, lines[m + 1..]);
    assert Whole(lines)[j] == out[|out| - 1];
    CutAt(lines, m, j);
  }

  lemma FailsOut(s: Scan, l: Line<Record>)
    requires Inv(s, l.off) && Fails(l.body) && s.open >= 0
    ensures var out := Step(s, l).1;
            out != [] && out[|out| - 1].pos == Pos(l.off, 0) && out[|out| - 1].turn.role == Error
  {
    StepOut(s, l);
  }

  // -------------------------------------------------------------- spans

  /** The lines a span holds: those that start in [from, end), or through the line an `end` partway through one is on. */
  function SpanLinesOf(lines: seq<Line<Record>>, from: int, end: Pos): seq<Line<Record>>
  {
    var k := CountBefore(lines, from);
    var m := CountBefore(lines, if end.nth > 0 then end.off + 1 else end.off);
    if k <= m then lines[k..m] else []
  }

  /** What `readSpan` yields. */
  function SpanTurns(lines: seq<Line<Record>>, from: int, end: Pos): seq<Placed>
  {
    Keep(from == 0, end, Whole(SpanLinesOf(lines, from, end)))
  }

  /** `end` is the end of a log of `size` bytes, or where its turn `j` starts. */
  predicate AtTurn(lines: seq<Line<Record>>, size: int, end: Pos, j: nat)
  {
    || (end == Pos(size, 0) && j == |Whole(lines)| && forall i :: 0 <= i < |lines| ==> lines[i].off < size)
    || (j < |Whole(lines)| && end == Whole(lines)[j].pos
        && (end.nth == 0 && CountBefore(lines, end.off) < |lines| ==> CleanAt(lines, CountBefore(lines, end.off))))
  }

  lemma TurnSpanEnd(lines: seq<Line<Record>>, j: nat)
    requires Sorted(lines) && j < |Whole(lines)|
    requires var end := Whole(lines)[j].pos;
             end.nth == 0 && CountBefore(lines, end.off) < |lines| ==> CleanAt(lines, CountBefore(lines, end.off))
    ensures var end := Whole(lines)[j].pos;
            var m := CountBefore(lines, if end.nth > 0 then end.off + 1 else end.off);
            Keep(true, end, Whole(lines[..m])) == Whole(lines)[..j]
  {
    hide Whole, CleanAt, Keep, Below;
    TurnLine(lines, j);
    var end := Whole(lines)[j].pos;
    var m := CountBefore(lines, end.off);
    if end.nth > 0 {
      CountIs(lines, end.off + 1, m + 1);
      CutAfter(lines, m, j);
    } else {
      CutAt(lines, m, j);
      WholeIncreasing(lines);
      KeepIs(true, end, Whole(lines)[..j]);
      BelowPrefix(Whole(lines)[..j], end, j);
      assert Whole(lines)[..j][..j] == Whole(lines)[..j];
    }
  }

  lemma WholeIncreasing(lines: seq<Line<Record>>)
    requires Sorted(lines)
    ensures Increasing(Whole(lines))
  {
    ParseIncreasing(COLD, lines, 0);
  }

  lemma LogSpanEnd(lines: seq<Line<Record>>, size: int)
    requires Sorted(lines) && forall i :: 0 <= i < |lines| ==> lines[i].off < size
    ensures CountBefore(lines, size) == |lines|
    ensures Keep(true, Pos(size, 0), Whole(lines)) == Whole(lines)
  {
    hide Parse, Keep, Below;
    ParseAbove(COLD, lines, 0);
    KeepIs(true, Pos(size, 0), Whole(lines));
    BelowPrefix(Whole(lines), Pos(size, 0), |Whole(lines)|);
  }

  /** A span from the head of the log yields every turn ahead of its end. */
  lemma TopSpan(lines: seq<Line<Record>>, size: int, end: Pos, j: nat)
    requires Sorted(lines) && AtTurn(lines, size, end, j)
    ensures var m := CountBefore(lines, if end.nth > 0 then end.off + 1 else end.off);
            j <= |Whole(lines)| && Keep(true, end, Whole(lines[..m])) == Whole(lines)[..j]
  {
    hide Whole, CleanAt, Keep;
    if j < |Whole(lines)| && end == Whole(lines)[j].pos {
      TurnSpanEnd(lines, j);
    } else {
      LogSpanEnd(lines, size);
      assert lines[..|lines|] == lines;
    }
  }

  /**
   A span that ends where turn `j` of the transcript starts yields consecutive
   turns of the transcript, the last of them turn `j - 1`; a span from the head
   of the log yields all of them.
   */
  lemma SpanIsSlice(lines: seq<Line<Record>>, size: int, from: nat, end: Pos, j: nat)
    requires Sorted(lines) && AtTurn(lines, size, end, j)
    ensures var span := SpanTurns(lines, from, end);
            && |span| <= j <= |Whole(lines)|
            && span == Whole(lines)[j - |span|..j]
            && (from == 0 ==> |span| == j)
  {
    hide Parse, CleanAt, Keep, Below, Run, Emit;
    TopSpan(lines, size, end, j);
    var k := CountBefore(lines, from);
    var m := CountBefore(lines, if end.nth > 0 then end.off + 1 else end.off);
    if from == 0 {
      assert k == 0;
      assert SpanLinesOf(lines, from, end) == lines[..m];
    } else if k <= m {
      ColdSpan(lines[..m], k, end);
      assert lines[..m][k..] == lines[k..m];
    } else {
      NothingKept(from, end);
    }
  }

  lemma NothingKept(from: nat, end: Pos)
    ensures Keep(from == 0, end, Whole([])) == []
  {
    assert Whole([]) == [];
  }

  /** Nothing read ahead of a turn that begins its line starts past it. */
  lemma CutKeeps(lines: seq<Line<Record>>, m: nat)
    requires Sorted(lines) && m < |lines|
    ensures SpanTurns(lines, 0, Pos(lines[m].off, 0)) == Whole(lines[..m])
  {
    hide Parse, Keep, Below;
    var end := Pos(lines[m].off, 0);
    assert CountBefore(lines, 0) == 0;
    CountIs(lines, end.off, m);
    assert SpanLinesOf(lines, 0, end) == lines[..m];
    ParseAbove(COLD, lines[..m], 0);
    var ps := Whole(lines[..m]);
    assert forall i :: 0 <= i < |ps| ==> Precedes(ps[i].pos, end);
    KeepIs(true, end, ps);
    BelowPrefix(ps, end, |ps|);
  }

  /**
   Reading the log up to any turn of it yields exactly the turns before that
   one, if and only if no failed response adds to a turn an earlier line opened.
   */
  lemma SelfContainedExact(lines: seq<Line<Record>>)
    requires Sorted(lines)
    ensures SelfContained(lines)
            <==> forall j :: 0 <= j < |Whole(lines)| ==> SpanTurns(lines, 0, Whole(lines)[j].pos) == Whole(lines)[..j]
  {
    hide Whole, CleanAt, SpanTurns, Keep;
    if SelfContained(lines) {
      forall j | 0 <= j < |Whole(lines)|
        ensures SpanTurns(lines, 0, Whole(lines)[j].pos) == Whole(lines)[..j]
      {
        SpanIsSlice(lines, 0, 0, Whole(lines)[j].pos, j);
      }
    } else {
      var m :| 0 <= m < |lines| && !CleanAt(lines, m);
      var j := DirtyCut(lines, m);
      CutKeeps(lines, m);
    }
  }

  // ------------------------------------------------------- the turn just ahead

  /** Reading up to turn `j` ends with the turn ahead of it. */
  predicate JoinsAt(lines: seq<Line<Record>>, j: nat)
    requires 0 < j < |Whole(lines)|
  {
    var ahead := SpanTurns(lines, 0, Whole(lines)[j].pos);
    ahead != [] && ahead[|ahead| - 1] == Whole(lines)[j - 1]
  }

  /** Where a failed response adds to the turn it ends, it is that turn which comes out otherwise. */
  lemma DirtyLast(lines: seq<Line<Record>>, m: nat) returns (j: nat)
    requires Sorted(lines) && m < |lines| && !CleanAt(lines, m)
    ensures 0 < j < |Whole(lines)| && Whole(lines)[j].pos == Pos(lines[m].off, 0) && !JoinsAt(lines, j)
  {
    hide *;
    j := DirtyCut(lines, m);
    CutKeeps(lines, m);
    var head, out, rest := DirtyParts(lines, m);
    WholeIncreasing(lines);
    Halves(lines, m);
    LastDiffers(Whole(lines), Whole(lines[..m]), head, out, rest, Flush(Run(COLD, lines[..m])), j);
    LastJoins(lines, j);
  }

  lemma LastJoins(lines: seq<Line<Record>>, j: nat)
    requires 0 < j < |Whole(lines)|
    ensures var ahead := SpanTurns(lines, 0, Whole(lines)[j].pos);
            JoinsAt(lines, j) <==> ahead != [] && ahead[|ahead| - 1] == Whole(lines)[j - 1]
  {}

  lemma LastDiffers(whole: seq<Placed>, cut: seq<Placed>, head: seq<Placed>, out: seq<Placed>, rest: seq<Placed>, open: seq<Placed>, j: nat)
    requires Increasing(whole) && whole == head + out + rest && |out| == 2 && |open| <= 1 && cut == head + open
    requires j < |whole| && whole[j].pos == out[1].pos && cut != whole[..j]
    ensures j > 0 && (cut == [] || cut[|cut| - 1] != whole[j - 1])
  {
    var n := |head|;
    assert whole[n] == out[0] && whole[n + 1] == out[1];
    assert j == n + 1 by {
      assert !Precedes(whole[j].pos, whole[n + 1].pos) && !Precedes(whole[n + 1].pos, whole[j].pos);
    }
    if open != [] {
      assert whole[..j] == head + [out[0]];
      assert cut == head + [open[0]];
    } else if n > 0 {
      assert cut[n - 1] == whole[n - 1];
    }
  }

  /** The log read up to the failed response, what that yields, and the rest. */
  lemma DirtyParts(lines: seq<Line<Record>>, m: nat) returns (head: seq<Placed>, out: seq<Placed>, rest: seq<Placed>)
    requires Sorted(lines) && m < |lines| && !CleanAt(lines, m)
    ensures Whole(lines) == head + out + rest && head == Emit(COLD, lines[..m])
    ensures |out| == 2 && out[1].pos == Pos(lines[m].off, 0) && |Flush(Run(COLD, lines[..m]))| <= 1
  {
    hide Step, Feed, Place, Emit, Run, Flush, Parse, Inv;
    Halves(lines, m);
    DirtyOut(lines, m);
    var s, l := Run(COLD, lines[..m]), lines[m];
    assert lines[m..] == [l] + lines[m + 1..];
    ParseCons(s, l, lines[m + 1..]);
    head, out, rest := Emit(COLD, lines[..m]), Step(s, l).1, Parse(Step(s, l).0, lines[m + 1..]);
  }

  /** A failed response that adds to the turn an earlier line opened yields that turn and its own. */
  lemma DirtyOut(lines: seq<Line<Record>>, m: nat)
    requires Sorted(lines) && m < |lines| && !CleanAt(lines, m)
    ensures var s := Run(COLD, lines[..m]);
            |Step(s, lines[m]).1| == 2 && Step(s, lines[m]).1[1].pos == Pos(lines[m].off, 0) && |Flush(s)| <= 1
  {
    hide Emit, Run, Parse;
    Halves(lines, m);
    var s, l := Run(COLD, lines[..m]), lines[m];
    StepOut(s, l);
  }

  lemma JoinsExact(lines: seq<Line<Record>>)
    requires Sorted(lines)
    ensures SelfContained(lines) <==> forall j :: 0 < j < |Whole(lines)| ==> JoinsAt(lines, j)
  {
    hide Whole, CleanAt, SpanTurns;
    if SelfContained(lines) {
      SelfContainedExact(lines);
      forall j | 0 < j < |Whole(lines)| ensures JoinsAt(lines, j) {
        assert SpanTurns(lines, 0, Whole(lines)[j].pos) == Whole(lines)[..j];
      }
    } else {
      var m :| 0 <= m < |lines| && !CleanAt(lines, m);
      var j := DirtyLast(lines, m);
    }
  }

  /** Reading up to a turn ends with the one ahead of it exactly when it yields all those ahead of it. */
  lemma JoinsWhole(lines: seq<Line<Record>>, j: nat)
    requires Sorted(lines) && j < |Whole(lines)|
    ensures SpanTurns(lines, 0, Whole(lines)[j].pos) == Whole(lines)[..j] <==> j == 0 || JoinsAt(lines, j)
  {
    hide Whole, CleanAt, SpanTurns, Run, Emit;
    TurnLine(lines, j);
    var end := Whole(lines)[j].pos;
    var m := CountBefore(lines, end.off);
    if end.nth > 0 || CleanAt(lines, m) {
      SpanIsSlice(lines, 0, 0, end, j);
    } else {
      var k := DirtyLast(lines, m);
      WholeIncreasing(lines);
      assert k == j;
    }
  }

  /** A span read from partway through the log yields the last of the turns that reading from its head does. */
  lemma SpanSuffix(lines: seq<Line<Record>>, from: nat, end: Pos)
    requires Sorted(lines)
    ensures var span, top := SpanTurns(lines, from, end), SpanTurns(lines, 0, end);
            |span| <= |top| && span == top[|top| - |span|..]
  {
    hide Parse, Keep, Below;
    var k := CountBefore(lines, from);
    var m := CountBefore(lines, if end.nth > 0 then end.off + 1 else end.off);
    assert CountBefore(lines, 0) == 0;
    assert SpanLinesOf(lines, 0, end) == lines[..m];
    if from > 0 && k <= m {
      ColdSpan(lines[..m], k, end);
      assert lines[..m][k..] == lines[k..m];
    } else if from > 0 {
      NothingKept(from, end);
    }
  }

  /** Whatever `end` is, the turns read up to it start on lines of the log. */
  lemma SpanOnLine(lines: seq<Line<Record>>, end: Pos)
    requires Sorted(lines)
    ensures forall i :: 0 <= i < |SpanTurns(lines, 0, end)| ==>
              var p := SpanTurns(lines, 0, end)[i].pos;
              p.off >= 0 && 0 <= p.nth <= 1 && HasLine(lines, p.off)
  {
    hide Parse, Keep, Below, Whole, HasLine;
    var m := CountBefore(lines, if end.nth > 0 then end.off + 1 else end.off);
    assert CountBefore(lines, 0) == 0;
    assert SpanLinesOf(lines, 0, end) == lines[..m];
    HeadOnLine(lines, m);
    KeepIs(true, end, Whole(lines[..m]));
    BelowFrom(Whole(lines[..m]), end);
    var span := SpanTurns(lines, 0, end);
    assert span == Below(Whole(lines[..m]), end);
    assert forall i :: 0 <= i < |span| ==> span[i] in Whole(lines[..m]);
  }

  lemma HeadOnLine(lines: seq<Line<Record>>, m: nat)
    requires Sorted(lines) && m <= |lines|
    ensures forall x :: x in Whole(lines[..m]) ==> x.pos.off >= 0 && 0 <= x.pos.nth <= 1 && HasLine(lines, x.pos.off)
  {
    hide Parse;
    ParseOnLine(COLD, lines[..m], 0);
    ParseAbove(COLD, lines[..m], 0);
    forall at | HasLine(lines[..m], at) ensures HasLine(lines, at) {
      assert lines == lines[..m] + lines[m..];
      HasLineConcat(lines[..m], lines[m..], at);
    }
  }

  lemma {:induction false} BelowFrom(ps: seq<Placed>, end: Pos)
    ensures forall x :: x in Below(ps, end) ==> x in ps
    decreases |ps|
  {
    if ps != [] {
      BelowFrom(ps[1..], end);
    }
  }

  // -------------------------------------------------------------- growth

  /** An open turn only gains parts, and keeps what names it. */
  lemma OpenGrows(cur: Option<Turn>, rec: Record)
    requires Open(cur) && Flushed(cur) != []
    ensures var (cur', out) := Feed(cur, rec);
            || (out == [] && Flushed(cur') != [] && SameTurn(cur.value, cur'.value))
            || (out != [] && SameTurn(cur.value, out[0]))
  {}

  predicate SameTurn(t: Turn, t': Turn)
  {
    && t.role == t'.role && t.uuid == t'.uuid && t.time == t'.time && t.content == t'.content
    && |t.parts| <= |t'.parts|
  }

  lemma {:induction false} OpenTurnStays(s: Scan, lines: seq<Line<Record>>, off: int)
    requires Sorted(lines) && Inv(s, if lines == [] then off else lines[0].off) && Flush(s) != []
    ensures Parse(s, lines) != []
    ensures Parse(s, lines)[0].pos == Pos(s.open, 0) && SameTurn(s.cur.value, Parse(s, lines)[0].turn)
    decreases |lines|
  {
    if lines != [] {
      hide Feed, Place;
      var l, tail := lines[0], lines[1..];
      StepBounds(s, l);
      StepOut(s, l);
      OpenGrows(s.cur, l.body);
      var (s', out) := Step(s, l);
      assert Parse(s, lines) == out + Parse(s', tail);
      if out == [] {
        OpenTurnStays(s', tail, l.off + 1);
      }
    }
  }

  /**
   Lines added to a log change no turn but the last, which keeps its place:
   every cursor stays valid and every turn before the last stays as it was.
   */
  lemma Growth(lines: seq<Line<Record>>, more: seq<Line<Record>>)
    requires Sorted(lines + more)
    ensures var was, now := Whole(lines), Whole(lines + more);
            && |was| <= |now|
            && (forall i :: 0 <= i < |was| ==> now[i].pos == was[i].pos && SameTurn(was[i].turn, now[i].turn))
            && (forall i :: 0 <= i < |was| - 1 ==> now[i] == was[i])
  {
    hide Step, Feed, Place, Flush, Emit, Run, Inv, SameTurn;
    var all := lines + more;
    var m := |lines|;
    assert all[..m] == lines && all[m..] == more;
    Halves(all, m);
    var s, head := Run(COLD, lines), Emit(COLD, lines);
    var off := if more == [] then (if m > 0 then lines[m - 1].off + 1 else 0) else more[0].off;
    assert more != [] && m > 0 ==> all[m - 1].off < all[m].off;
    RunSorted(lines, off);
    FlushBounds(s, off);
    if Flush(s) != [] {
      OpenTurnStays(s, more, off);
      OpenFlush(s);
    }
    forall t: Turn ensures SameTurn(t, t) { SameItself(t); }
  }

  lemma SameItself(t: Turn)
    ensures SameTurn(t, t)
  {}

  lemma RunSorted(lines: seq<Line<Record>>, off: int)
    requires Sorted(lines) && off >= 0 && (lines != [] ==> lines[|lines| - 1].off < off)
    ensures Inv(Run(COLD, lines), off)
  {
    RunInv(COLD, lines, off);
  }

  lemma OpenFlush(s: Scan)
    requires Flush(s) != []
    ensures s.cur.Some? && Flush(s)[0].turn == s.cur.value
  {}

  // ------------------------------------------------------ a cut that loses

  /** A turn that calls a tool, then fails partway through its answer. */
  const ASKED := Line(0, UserMessage("u", 1, "go"))
  const CALLED := Line(10, AssistantMessage("a", 2, "", Some([ToolCallBlock("c", "bash", "ls", "")]), ""))
  const FAILED := Line(20, AssistantMessage("e", 3, "", Some([TextBlock("partial")]), "boom"))

  const AFTER_CALL := Scan(Some(Turn(Assistant, "", "a", 2, 2, "", [Part(ToolPart, "", "bash", "ls", "", "c", false)])),
                           10, Pos(0, 0))

  lemma CallSteps()
    ensures Step(COLD, ASKED) == (Scan(None, -1, Pos(0, 0)), [Placed(NewTurn(User, "go", "u", 1, 1), Pos(0, 0))])
    ensures Step(Scan(None, -1, Pos(0, 0)), CALLED) == (AFTER_CALL, [])
  {
    var user := NewTurn(User, "go", "u", 1, 1);
    assert Flushed(None) + [user] == [user] && Feed(None, ASKED.body) == (None, [user]);
    StepCold(COLD, ASKED);
    StepOut(COLD, ASKED);
    assert Step(COLD, ASKED).1 == [Placed(user, Pos(0, 0))];
    var part := Part(ToolPart, "", "bash", "ls", "", "c", false);
    assert PartsOf(CALLED.body.blocks.value) == [part] && [] + [part] == [part];
    assert Absorb(None, CALLED.body).parts == [part];
  }

  lemma FailedStep()
    ensures var out := Step(AFTER_CALL, FAILED).1;
            |out| == 2 && |out[0].turn.parts| == 2 && out[1].pos == Pos(20, 0) && Step(AFTER_CALL, FAILED).0.cur == None
  {
    assert PartsOf(FAILED.body.blocks.value) == [Part(TextPart, "partial", "", "", "", "", false)];
    StepOut(AFTER_CALL, FAILED);
  }

  /** The page before the error turn lacks the text streamed before the failure. */
  lemma FailedReplyIsCut()
    ensures var lines := [ASKED, CALLED, FAILED];
            && Sorted(lines) && !SelfContained(lines)
            && |Whole(lines)| == 3 && Whole(lines)[2].pos == Pos(20, 0) && |Whole(lines)[1].turn.parts| == 2
            && |Whole(lines[..2])| == 2 && |Whole(lines[..2])[1].turn.parts| == 1
  {
    hide Step, Feed, Place, Run, Emit, Parse;
    var lines := [ASKED, CALLED, FAILED];
    var s1 := Scan(None, -1, Pos(0, 0));
    CallSteps();
    FailedStep();
    assert lines == [ASKED] + [CALLED, FAILED] && [CALLED, FAILED] == [CALLED] + [FAILED] && [FAILED] == [FAILED] + [];
    ParseCons(COLD, ASKED, [CALLED, FAILED]);
    ParseCons(s1, CALLED, [FAILED]);
    ParseCons(AFTER_CALL, FAILED, []);
    assert lines[..2] == [ASKED] + [CALLED] && [CALLED] == [CALLED] + [];
    ParseCons(COLD, ASKED, [CALLED]);
    ParseCons(s1, CALLED, []);
    ParseEnd(AFTER_CALL);
    ParseEnd(Step(AFTER_CALL, FAILED).0);
    assert !CleanAt(lines, 2);
  }

  lemma ParseEnd(s: Scan)
    ensures Run(s, []) == s && Parse(s, []) == Flush(s)
  {}
}
