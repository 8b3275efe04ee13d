/**
 What a transcript is, and when a piece of it read cold agrees with the whole.

 The whole transcript is one fold of the assembler over the log's lines, each
 turn named by where it starts. A span folds only the lines it holds, from a
 fresh assembler. The lemmas say which of the whole's turns a span yields.
 */
module TurnSpans {
  import opened Lines
  import opened Options
  import opened PiTranscript

  /** Where a turn starts: its first line, and how many turns that line yielded ahead of it. */
  datatype Pos = Pos(off: int, nth: int)

  predicate Precedes(p: Pos, q: Pos)
  {
    p.off < q.off || (p.off == q.off && p.nth < q.nth)
  }

  datatype Placed = Placed(turn: Turn, pos: Pos)

  /** The reader's state between lines: the assembler's open turn, where it began, the last turn placed. */
  datatype Scan = Scan(cur: Option<Turn>, open: int, last: Pos)

  const COLD := Scan(None, -1, Pos(-1, 0))

  function PlaceAt(off: int, last: Pos): Pos
  {
    Pos(off, if last.off == off then last.nth + 1 else 0)
  }

  /** An assistant turn is placed where it was opened, any other on the line that yields it. */
  function Place(turns: seq<Turn>, open: int, off: int, last: Pos): (ps: seq<Placed>)
    ensures |ps| == |turns|
    ensures forall i :: 0 <= i < |ps| ==> ps[i].turn == turns[i]
  {
    if turns == [] then [] else
      var p := PlaceAt(if turns[0].role == Assistant then open else off, last);
      [Placed(turns[0], p)] + Place(turns[1..], open, off, p)
  }

  function Step(s: Scan, l: Line<Record>): (Scan, seq<Placed>)
  {
    var open := if s.open < 0 then l.off else s.open;
    var (cur, completed) := Feed(s.cur, l.body);
    if completed == [] then (Scan(cur, open, s.last), [])
    else
      var out := Place(completed, open, l.off, s.last);
      (Scan(cur, -1, out[|out| - 1].pos), out)
  }

  function Run(s: Scan, lines: seq<Line<Record>>): Scan
    decreases |lines|
  {
    if lines == [] then s else Run(Step(s, lines[0]).0, lines[1..])
  }

  function Emit(s: Scan, lines: seq<Line<Record>>): seq<Placed>
    decreases |lines|
  {
    if lines == [] then [] else Step(s, lines[0]).1 + Emit(Step(s, lines[0]).0, lines[1..])
  }

  function Flush(s: Scan): seq<Placed>
  {
    Place(Flushed(s.cur), s.open, s.open, s.last)
  }

  function Parse(s: Scan, lines: seq<Line<Record>>): seq<Placed>
  {
    Emit(s, lines) + Flush(Run(s, lines))
  }

  /** The transcript: every turn of the log, parsed from its first line. */
  function Whole(lines: seq<Line<Record>>): seq<Placed>
  {
    Parse(COLD, lines)
  }

  /** What a span keeps of the turns it assembles: those before `end`, from its first user turn on unless it is whole. */
  function Keep(whole: bool, end: Pos, ps: seq<Placed>): (kept: seq<Placed>)
    ensures forall i :: 0 <= i < |kept| ==> Precedes(kept[i].pos, end)
    decreases |ps|
  {
    if ps == [] then []
    else if !Precedes(ps[0].pos, end) || (!whole && ps[0].turn.role != User) then Keep(whole, end, ps[1..])
    else [ps[0]] + Keep(true, end, ps[1..])
  }

  // ---------------------------------------------------------------- invariant

  /** What holds of the state ahead of a line at `off`. */
  predicate Inv(s: Scan, off: int)
  {
    && Open(s.cur)
    && -1 <= s.open < off
    && s.last.off < off
    && s.last.nth >= 0
    && (s.open < 0 ==> s.cur.None?)
    && (s.open >= 0 ==> s.last.off < s.open)
  }

  /** Exactly what one line yields and where it is placed. */
  lemma StepOut(s: Scan, l: Line<Record>)
    requires Inv(s, l.off)
    ensures var (s', out) := Step(s, l);
            var open := if s.open < 0 then l.off else s.open;
            var (cur, done) := Feed(s.cur, l.body);
            && (forall off :: off > l.off ==> Inv(s', off))
            && |out| == |done| <= 2
            && (forall i :: 0 <= i < |out| ==> out[i].turn == done[i])
            && (out == [] ==> s' == Scan(cur, open, s.last))
            && (out != [] ==> s'.open == -1 && s'.cur.None?)
            && (|out| >= 1 && done[0].role == Assistant ==> out[0].pos == Pos(open, 0))
            && (|out| == 1 && done[0].role != Assistant ==> out[0].pos == Pos(l.off, 0))
            && (|out| == 2 ==> done[0].role == Assistant && done[1].role != Assistant
                               && out[1].pos == Pos(l.off, if open == l.off then 1 else 0))
  {
    FeedShape(s.cur, l.body);
    var open := if s.open < 0 then l.off else s.open;
    var (cur, done) := Feed(s.cur, l.body);
    if |done| == 2 {
      assert done == [done[0], done[1]];
      assert Place(done, open, l.off, s.last)[1..] == Place(done[1..], open, l.off, Pos(open, 0));
    }
  }

  lemma {:induction false} Split(s: Scan, a: seq<Line<Record>>, b: seq<Line<Record>>)
    ensures Run(s, a + b) == Run(Run(s, a), b)
    ensures Emit(s, a + b) == Emit(s, a) + Emit(Run(s, a), b)
    ensures Parse(s, a + b) == Emit(s, a) + Parse(Run(s, a), b)
    decreases |a|
  {
    hide Step;
    if a == [] {
      assert a + b == b;
    } else {
      assert (a + b)[1..] == a[1..] + b;
      Split(Step(s, a[0]).0, a[1..], b);
    }
  }

  lemma ParseCons(s: Scan, l: Line<Record>, tail: seq<Line<Record>>)
    ensures Parse(s, [l] + tail) == Step(s, l).1 + Parse(Step(s, l).0, tail)
    ensures Run(s, [l] + tail) == Run(Step(s, l).0, tail)
  {
    assert ([l] + tail)[1..] == tail;
  }

  lemma {:induction false} RunInv(s: Scan, lines: seq<Line<Record>>, off: int)
    requires Sorted(lines)
    requires lines != [] ==> Inv(s, lines[0].off) && lines[|lines| - 1].off < off
    requires lines == [] ==> Inv(s, off)
    ensures Inv(Run(s, lines), off)
    decreases |lines|
  {
    if lines != [] {
      StepOut(s, lines[0]);
      RunInv(Step(s, lines[0]).0, lines[1..], off);
    }
  }

  predicate Increasing(ps: seq<Placed>)
  {
    forall i, j :: 0 <= i < j < |ps| ==> Precedes(ps[i].pos, ps[j].pos)
  }

  /** A turn starts either where one was already open or on a line still to come. */
  predicate Bounded(ps: seq<Placed>, open: int, lines: seq<Line<Record>>)
  {
    forall i :: 0 <= i < |ps| ==>
      && 0 <= ps[i].pos.nth <= 1
      && ((ps[i].pos == Pos(open, 0) && open >= 0)
          || (lines != [] && lines[0].off <= ps[i].pos.off <= lines[|lines| - 1].off))
  }

  lemma StepBounds(s: Scan, l: Line<Record>)
    requires Inv(s, l.off)
    ensures forall off :: off > l.off ==> Inv(Step(s, l).0, off)
    ensures Step(s, l).1 != [] ==> Step(s, l).0.open == -1
    ensures Step(s, l).1 == [] ==> Step(s, l).0.last == s.last && Step(s, l).0.open == if s.open < 0 then l.off else s.open
    ensures Bounded(Step(s, l).1, s.open, [l]) && s.last.off < l.off
    ensures forall i :: 0 <= i < |Step(s, l).1| ==> Step(s, l).1[i].pos.off <= l.off
    ensures Increasing(Step(s, l).1)
    ensures forall i :: 0 <= i < |Step(s, l).1| ==> Precedes(s.last, Step(s, l).1[i].pos)
  {
    StepOut(s, l);
  }

  lemma FlushBounds(s: Scan, off: int)
    requires Inv(s, off)
    ensures |Flush(s)| <= 1
    ensures Flush(s) != [] ==> s.open >= 0 && Flush(s)[0].pos == Pos(s.open, 0) && Precedes(s.last, Flush(s)[0].pos)
  {}

  lemma IncreasingConcat(a: seq<Placed>, b: seq<Placed>)
    requires Increasing(a) && Increasing(b)
    requires forall i, j :: 0 <= i < |a| && 0 <= j < |b| ==> Precedes(a[i].pos, b[j].pos)
    ensures Increasing(a + b)
  {}

  /** A turn starts past the last one placed: where one is open, or on a line still to come. */
  lemma {:induction false} ParseAbove(s: Scan, lines: seq<Line<Record>>, off: int)
    requires Sorted(lines) && Inv(s, if lines == [] then off else lines[0].off)
    ensures Bounded(Parse(s, lines), s.open, lines)
    ensures forall i :: 0 <= i < |Parse(s, lines)| ==> Precedes(s.last, Parse(s, lines)[i].pos)
    decreases |lines|
  {
    hide Step, Flush, Place, Flushed, Inv, Parse, Sorted;
    if lines == [] {
      FlushBounds(s, off);
      ParseNone(s);
    } else {
      var l, tail := lines[0], lines[1..];
      assert lines == [l] + tail;
      StepBounds(s, l);
      ParseCons(s, l, tail);
      SortedTail(lines);
      var (s', out) := Step(s, l);
      ParseAbove(s', tail, l.off + 1);
      var rest := Parse(s', tail);
      forall i | 0 <= i < |rest|
        ensures Bounded([rest[i]], s.open, lines) && Precedes(s.last, rest[i].pos)
      {
        assert Bounded([rest[i]], s'.open, tail);
      }
    }
  }

  lemma ParseNone(s: Scan)
    ensures Parse(s, []) == Flush(s)
  {}

  lemma SortedTail(lines: seq<Line<Record>>)
    requires Sorted(lines) && lines != []
    ensures Sorted(lines[1..])
    ensures lines[1..] != [] ==> lines[0].off < lines[1..][0].off && lines[1..][|lines| - 2] == lines[|lines| - 1]
    ensures lines[0].off <= lines[|lines| - 1].off
  {}

  /** No two turns start in the same place, and turns come in the order they start. */
  lemma {:induction false} ParseIncreasing(s: Scan, lines: seq<Line<Record>>, off: int)
    requires Sorted(lines) && Inv(s, if lines == [] then off else lines[0].off)
    ensures Increasing(Parse(s, lines))
    decreases |lines|
  {
    hide Step, Flush, Place, Flushed, Inv;
    if lines == [] {
      FlushBounds(s, off);
      assert Parse(s, lines) == Flush(s);
    } else {
      var l, tail := lines[0], lines[1..];
      StepBounds(s, l);
      var (s', out) := Step(s, l);
      var rest := Parse(s', tail);
      assert Parse(s, lines) == out + rest;
      ParseIncreasing(s', tail, l.off + 1);
      ParseAbove(s', tail, l.off + 1);
      IncreasingConcat(out, rest);
    }
  }

  // ---------------------------------------------------------- reading cold

  /** What is left of a span's turns from its first user turn on. */
  function FromUser(ps: seq<Placed>): seq<Placed>
    decreases |ps|
  {
    if ps == [] || ps[0].turn.role == User then ps else FromUser(ps[1..])
  }

  function Below(ps: seq<Placed>, end: Pos): seq<Placed>
    decreases |ps|
  {
    if ps == [] then [] else (if Precedes(ps[0].pos, end) then [ps[0]] else []) + Below(ps[1..], end)
  }

  predicate NoUser(ps: seq<Placed>)
  {
    forall i :: 0 <= i < |ps| ==> ps[i].turn.role != User
  }

  lemma {:induction false} FromUserSkips(a: seq<Placed>, b: seq<Placed>)
    requires NoUser(a)
    ensures FromUser(a + b) == FromUser(b)
    decreases |a|
  {
    if a == [] {
      assert a + b == b;
    } else {
      assert (a + b)[1..] == a[1..] + b;
      FromUserSkips(a[1..], b);
    }
  }

  lemma {:induction false} FromUserIsSuffix(ps: seq<Placed>)
    ensures |FromUser(ps)| <= |ps| && FromUser(ps) == ps[|ps| - |FromUser(ps)|..]
    decreases |ps|
  {
    if ps != [] && ps[0].turn.role != User {
      FromUserIsSuffix(ps[1..]);
    }
  }

  predicate Resets(rec: Record)
  {
    rec.UserMessage? && rec.text != ""
  }

  lemma FeedReset(cur: Option<Turn>, rec: Record)
    requires Resets(rec)
    ensures Feed(cur, rec) == (None, Flushed(cur) + [NewTurn(User, rec.text, rec.id, rec.ts, rec.ts)])
  {}

  lemma FlushedShape(s: Scan)
    requires Open(s.cur)
    ensures |Flushed(s.cur)| <= 1 && |Flush(s)| == |Flushed(s.cur)| && NoUser(Flush(s)) && NoUser([])
    ensures Flushed(s.cur) != [] ==> Flushed(s.cur)[0].role == Assistant && Flush(s)[0].turn == Flushed(s.cur)[0]
  {}

  lemma StepReset(s: Scan, l: Line<Record>)
    requires Inv(s, l.off) && Resets(l.body)
    ensures Step(s, l) == (Scan(None, -1, Pos(l.off, 0)),
                           Flush(s) + [Placed(NewTurn(User, l.body.text, l.body.id, l.body.ts, l.body.ts), Pos(l.off, 0))])
  {
    FlushedShape(s);
    FeedReset(s.cur, l.body);
    ResetPlaced(Flushed(s.cur), NewTurn(User, l.body.text, l.body.id, l.body.ts, l.body.ts), s, l.off);
    hide Feed, Flush, Place, Resets, NoUser, NewTurn, Flushed;
  }

  lemma ResetPlaced(kept: seq<Turn>, user: Turn, s: Scan, off: int)
    requires Inv(s, off) && |kept| <= 1 && user.role == User && (kept != [] ==> kept[0].role == Assistant && s.open >= 0)
    ensures var open := if s.open < 0 then off else s.open;
            Place(kept + [user], open, off, s.last) == Place(kept, s.open, s.open, s.last) + [Placed(user, Pos(off, 0))]
  {
    hide Place;
    PlaceFirst([], user, s, off, s.last);
    if kept != [] {
      assert kept + [user] == [kept[0]] + [user] && kept == [kept[0]] + [];
      PlaceFirst([user], kept[0], s, off, s.last);
      PlaceFirst([], user, s, off, Pos(s.open, 0));
      PlaceFirst([], kept[0], s, s.open, s.last);
    } else {
      assert kept + [user] == [user] + [] == [user];
    }
  }

  lemma PlaceFirst(rest: seq<Turn>, t: Turn, s: Scan, off: int, last: Pos)
    ensures var open := if s.open < 0 then off else s.open;
            var p := PlaceAt(if t.role == Assistant then open else off, last);
            Place([t] + rest, open, off, last) == [Placed(t, p)] + Place(rest, open, off, p)
    ensures Place([], if s.open < 0 then off else s.open, off, last) == []
    ensures Place([], s.open, s.open, last) == []
  {
    assert ([t] + rest)[1..] == rest;
  }

  lemma OtherNoUser(s: Scan, l: Line<Record>)
    requires Inv(s, l.off) && !Resets(l.body)
    ensures NoUser(Step(s, l).1)
  {
    FeedShape(s.cur, l.body);
    hide Feed, PlaceAt;
  }

  /** A user's line leaves every assembler in the same state; any other yields no user turn. */
  lemma StepCold(s: Scan, l: Line<Record>)
    requires Inv(s, l.off)
    ensures !Resets(l.body) ==> NoUser(Step(s, l).1)
    ensures Resets(l.body) ==>
              var (s', out) := Step(s, l);
              && s' == Scan(None, -1, Pos(l.off, 0))
              && out != [] && NoUser(out[..|out| - 1])
              && out[|out| - 1] == Placed(NewTurn(User, l.body.text, l.body.id, l.body.ts, l.body.ts), Pos(l.off, 0))
  {
    hide Step, Flush, Resets, NewTurn, NoUser, Flushed;
    if Resets(l.body) {
      StepReset(s, l);
      FlushedShape(s);
      assert (Flush(s) + [Step(s, l).1[|Flush(s)|]])[..|Flush(s)|] == Flush(s);
    } else {
      OtherNoUser(s, l);
    }
  }

  /**
   A user line with text is where an assembler can be started afresh: the turns of
   any lines are those of the lines ahead of it, then those a new assembler makes
   of it and the rest, placed alike, whatever turn was open.
   */
  lemma {:induction false} UserResets(s: Scan, before: seq<Line<Record>>, l: Line<Record>, rest: seq<Line<Record>>)
    requires Sorted(before + [l] + rest) && Resets(l.body) && Inv(s, (before + [l])[0].off)
    ensures Parse(s, before + [l] + rest) == Parse(s, before) + Parse(COLD, [l] + rest)
  {
    hide Step, Resets, Emit, Run, Flush;
    var n := Run(s, before);
    assert before + [l] + rest == before + ([l] + rest) && (before + [l] + rest)[|before|] == l;
    assert forall i :: 0 <= i < |before| ==> (before + [l] + rest)[i] == before[i];
    Split(s, before, [l] + rest);
    RunInv(s, before, l.off);
    ParseCons(n, l, rest);
    ParseCons(COLD, l, rest);
    StepReset(n, l);
    StepReset(COLD, l);
    FlushCold();
  }

  lemma FlushCold()
    ensures Flush(COLD) == []
  {}

  lemma StepFromUser(s: Scan, l: Line<Record>, rest: seq<Placed>)
    requires Inv(s, l.off)
    ensures !Resets(l.body) ==> FromUser(Step(s, l).1 + rest) == FromUser(rest)
    ensures Resets(l.body) ==>
              Step(s, l).0 == Scan(None, -1, Pos(l.off, 0))
              && FromUser(Step(s, l).1 + rest)
              == [Placed(NewTurn(User, l.body.text, l.body.id, l.body.ts, l.body.ts), Pos(l.off, 0))] + rest
  {
    hide Step;
    StepCold(s, l);
    var out := Step(s, l).1;
    if Resets(l.body) {
      var u := out[|out| - 1];
      FromUserSkips(out[..|out| - 1], [u] + rest);
      assert out + rest == out[..|out| - 1] + ([u] + rest);
    } else {
      FromUserSkips(out, rest);
    }
  }

  lemma FlushFromUser(s: Scan, off: int)
    requires Inv(s, off)
    ensures FromUser(Parse(s, [])) == []
  {
    assert NoUser(Flush(s));
    FromUserSkips(Flush(s), []);
    assert Parse(s, []) == Flush(s) + [];
  }

  /** Two readers that start in different states agree from the first user turn on. */
  lemma {:induction false} ColdAgrees(s1: Scan, s2: Scan, lines: seq<Line<Record>>, off: int)
    requires Sorted(lines)
    requires Inv(s1, if lines == [] then off else lines[0].off)
    requires Inv(s2, if lines == [] then off else lines[0].off)
    ensures FromUser(Parse(s1, lines)) == FromUser(Parse(s2, lines))
    decreases |lines|
  {
    hide Step, Place, Flush, Flushed, Inv, FromUser, Parse, Resets;
    if lines == [] {
      FlushFromUser(s1, off);
      FlushFromUser(s2, off);
    } else {
      var l, tail := lines[0], lines[1..];
      var n1, n2 := Step(s1, l).0, Step(s2, l).0;
      assert lines == [l] + tail;
      ParseCons(s1, l, tail);
      ParseCons(s2, l, tail);
      StepFromUser(s1, l, Parse(n1, tail));
      StepFromUser(s2, l, Parse(n2, tail));
      if !Resets(l.body) {
        StepBounds(s1, l);
        StepBounds(s2, l);
        ColdAgrees(n1, n2, tail, l.off + 1);
      }
    }
  }

  lemma {:induction false} KeepIs(whole: bool, end: Pos, ps: seq<Placed>)
    ensures Keep(true, end, ps) == Below(ps, end)
    ensures Keep(false, end, ps) == FromUser(Below(ps, end))
    decreases |ps|
  {
    if ps != [] {
      KeepIs(whole, end, ps[1..]);
      if Precedes(ps[0].pos, end) {
        assert Below(ps, end)[1..] == Below(ps[1..], end);
      }
    }
  }

  lemma {:induction false} KeepConcat(whole: bool, end: Pos, a: seq<Placed>, b: seq<Placed>)
    ensures Keep(whole, end, a + b) == Keep(whole, end, a) + Keep(whole || Keep(whole, end, a) != [], end, b)
    decreases |a|
  {
    if a == [] {
      assert a + b == b;
    } else {
      assert (a + b)[1..] == a[1..] + b;
      KeepConcat(if Precedes(a[0].pos, end) && (whole || a[0].turn.role == User) then true else whole, end, a[1..], b);
    }
  }

  lemma {:induction false} BelowPrefix(ps: seq<Placed>, end: Pos, n: nat)
    requires n <= |ps|
    requires forall i :: 0 <= i < n ==> Precedes(ps[i].pos, end)
    requires forall i :: n <= i < |ps| ==> !Precedes(ps[i].pos, end)
    ensures Below(ps, end) == ps[..n]
    decreases |ps|
  {
    if ps != [] {
      BelowPrefix(ps[1..], end, if n > 0 then n - 1 else 0);
    }
  }

  /** Dropping what lies ahead of the first user turn commutes with cutting at the end. */
  lemma {:induction false} FromUserBelow(ps: seq<Placed>, end: Pos)
    requires Increasing(ps)
    ensures FromUser(Below(ps, end)) == Below(FromUser(ps), end)
    decreases |ps|
  {
    if ps != [] && !Precedes(ps[0].pos, end) {
      BelowPrefix(ps, end, 0);
      FromUserIsSuffix(ps);
      BelowPrefix(FromUser(ps), end, 0);
    } else if ps != [] && ps[0].turn.role != User {
      FromUserBelow(ps[1..], end);
      assert Below(ps, end)[1..] == Below(ps[1..], end);
    }
  }

  lemma {:induction false} BelowConcat(a: seq<Placed>, b: seq<Placed>, end: Pos)
    ensures Below(a + b, end) == Below(a, end) + Below(b, end)
    decreases |a|
  {
    if a == [] {
      assert a + b == b;
    } else {
      assert (a + b)[1..] == a[1..] + b;
      BelowConcat(a[1..], b, end);
    }
  }

  lemma ColdKeep(s: Scan, b: seq<Line<Record>>, off: int, end: Pos)
    requires Sorted(b) && Inv(s, if b == [] then off else b[0].off) && 0 <= off
    ensures Keep(false, end, Whole(b)) == FromUser(Below(Parse(s, b), end))
  {
    hide Step, Emit, Run, Flush, FromUser, Below, Keep, Parse, Increasing;
    ColdAgrees(COLD, s, b, off);
    KeepIs(false, end, Whole(b));
    ParseIncreasing(COLD, b, off);
    ParseIncreasing(s, b, off);
    FromUserBelow(Whole(b), end);
    FromUserBelow(Parse(s, b), end);
  }

  /** A span cut out of the middle keeps a tail of what the same lines yield when read from the top. */
  lemma ColdSpan(lines: seq<Line<Record>>, k: nat, end: Pos)
    requires Sorted(lines) && k <= |lines|
    ensures var top := Keep(true, end, Whole(lines));
            var span := Keep(false, end, Whole(lines[k..]));
            |span| <= |top| && span == top[|top| - |span|..]
  {
    hide Step, Emit, Run, Flush, FromUser, Below, Keep, Parse, Increasing, Feed;
    var a, b := lines[..k], lines[k..];
    var off := if k < |lines| then lines[k].off else if k > 0 then lines[k - 1].off + 1 else 0;
    var s := Run(COLD, a);
    RunInv(COLD, a, off);
    assert lines == a + b;
    Split(COLD, a, b);
    ColdKeep(s, b, off, end);
    SuffixKept(Emit(COLD, a), Parse(s, b), end);
  }

  lemma SuffixKept(head: seq<Placed>, rest: seq<Placed>, end: Pos)
    ensures var top, span := Keep(true, end, head + rest), FromUser(Below(rest, end));
            |span| <= |top| && span == top[|top| - |span|..]
  {
    hide Keep, FromUser, Below;
    KeepIs(true, end, head + rest);
    BelowConcat(head, rest, end);
    FromUserIsSuffix(Below(rest, end));
  }
}
