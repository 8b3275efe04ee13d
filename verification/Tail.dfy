/**
 Following a log as it grows: the session tailer's reading loop, and the pi
 runtime's poll. Both hand on each complete line once.
 */
module Tail {
  import opened Options
  import opened Lines
  import opened CompleteLines

  const RETURN: byte := 13

  /** `bytes.TrimRight(line, "\r\n")` */
  function TrimRight(s: Bytes): (r: Bytes)
    ensures r <= s && (r != [] ==> r[|r| - 1] != NEWLINE && r[|r| - 1] != RETURN)
  {
    if s != [] && (s[|s| - 1] == NEWLINE || s[|s| - 1] == RETURN) then TrimRight(s[..|s| - 1]) else s
  }

  /** Only newlines and carriage returns are cut off, and all those at the end. */
  lemma {:induction false} RightTrimmed(s: Bytes)
    ensures var r := TrimRight(s);
            && r <= s && (forall i :: |r| <= i < |s| ==> s[i] == 10 || s[i] == 13)
            && (r != [] ==> r[|r| - 1] != 10 && r[|r| - 1] != 13)
  {
    if s != [] && (s[|s| - 1] == NEWLINE || s[|s| - 1] == RETURN) {
      RightTrimmed(s[..|s| - 1]);
    }
  }

  /** One character of white space as `unicode.IsSpace` has it, in UTF-8. */
  predicate IsSpace(s: Bytes)
  {
    || (|s| == 1 && (9 <= s[0] <= 13 || s[0] == 32))
    || (|s| == 2 && s[0] == 0xC2 && (s[1] == 0x85 || s[1] == 0xA0))
    || (|s| == 3 && s[0] == 0xE1 && s[1] == 0x9A && s[2] == 0x80)
    || (|s| == 3 && s[0] == 0xE2 && s[1] == 0x80 && (0x80 <= s[2] <= 0x8A || s[2] == 0xA8 || s[2] == 0xA9 || s[2] == 0xAF))
    || (|s| == 3 && s[0] == 0xE2 && s[1] == 0x81 && s[2] == 0x9F)
    || (|s| == 3 && s[0] == 0xE3 && s[1] == 0x80 && s[2] == 0x80)
  }

  /** How many bytes of white space text starts with: one character's, or none. */
  function SpaceAhead(s: Bytes): (n: nat)
    ensures n <= |s| && (n > 0 ==> IsSpace(s[..n]))
  {
    if |s| >= 1 && IsSpace(s[..1]) then 1
    else if |s| >= 2 && IsSpace(s[..2]) then 2
    else if |s| >= 3 && IsSpace(s[..3]) then 3
    else 0
  }

  function SpaceBehind(s: Bytes): (n: nat)
    ensures n <= |s| && (n > 0 ==> IsSpace(s[|s| - n..]))
  {
    if |s| >= 1 && IsSpace(s[|s| - 1..]) then 1
    else if |s| >= 2 && IsSpace(s[|s| - 2..]) then 2
    else if |s| >= 3 && IsSpace(s[|s| - 3..]) then 3
    else 0
  }

  function TrimStart(s: Bytes): (r: Bytes)
    ensures SpaceAhead(r) == 0
    decreases |s|
  {
    if SpaceAhead(s) > 0 then TrimStart(s[SpaceAhead(s)..]) else s
  }

  function TrimEnd(s: Bytes): (r: Bytes)
    ensures r <= s && SpaceBehind(r) == 0
    decreases |s|
  {
    if SpaceBehind(s) > 0 then TrimEnd(s[..|s| - SpaceBehind(s)]) else s
  }

  /** `bytes.TrimSpace` */
  function TrimSpace(s: Bytes): (r: Bytes)
    ensures SpaceBehind(r) == 0
  {
    TrimEnd(TrimStart(s))
  }

  /** White space and nothing else. */
  ghost predicate Blank(s: Bytes)
    decreases |s|
  {
    s == [] || exists n :: 1 <= n <= |s| && IsSpace(s[..n]) && Blank(s[n..])
  }

  lemma {:induction false} StartTrimmed(s: Bytes) returns (n: nat)
    ensures n <= |s| && s[n..] == TrimStart(s) && Blank(s[..n])
    decreases |s|
  {
    n := SpaceAhead(s);
    if n > 0 {
      var m := StartTrimmed(s[n..]);
      assert s[n..][m..] == s[n + m..];
      assert s[..n + m][..n] == s[..n] && s[..n + m][n..] == s[n..][..m];
      n := n + m;
    } else {
      assert s[0..] == s && s[..0] == [];
    }
  }

  lemma {:induction false} BlankThen(a: Bytes, b: Bytes)
    requires Blank(a) && Blank(b)
    ensures Blank(a + b)
    decreases |a|
  {
    hide IsSpace;
    if a == [] {
      assert a + b == b;
    } else {
      var n :| 1 <= n <= |a| && IsSpace(a[..n]) && Blank(a[n..]);
      BlankThen(a[n..], b);
      BlankNext(a[..n], a[n..] + b);
      assert a[..n] + (a[n..] + b) == a + b;
    }
  }

  lemma BlankNext(c: Bytes, rest: Bytes)
    requires IsSpace(c) && c != [] && Blank(rest)
    ensures Blank(c + rest)
  {
    hide IsSpace;
    assert (c + rest)[..|c|] == c && (c + rest)[|c|..] == rest;
  }

  lemma BlankNothing()
    ensures Blank([])
  {}

  lemma {:induction false} EndTrimmed(s: Bytes)
    ensures TrimEnd(s) <= s && Blank(s[|TrimEnd(s)|..])
    decreases |s|
  {
    hide IsSpace, SpaceBehind, Blank;
    BlankNothing();
    var n := SpaceBehind(s);
    if n > 0 {
      var k := |s| - n;
      EndTrimmed(s[..k]);
      var r := |TrimEnd(s)|;
      BlankNext(s[k..], []);
      assert s[k..] + [] == s[k..];
      BlankThen(s[..k][r..], s[k..]);
      assert s[r..] == s[..k][r..] + s[k..];
    } else {
      assert s[|s|..] == [];
    }
  }

  /** Trimming takes white space off both ends and nothing else, and leaves none there. */
  lemma TrimmedSpace(s: Bytes) returns (n: nat, m: nat)
    ensures n <= m <= |s| && TrimSpace(s) == s[n..m] && Blank(s[..n]) && Blank(s[m..])
    ensures SpaceBehind(TrimSpace(s)) == 0
  {
    hide IsSpace, SpaceBehind, Blank;
    n := StartTrimmed(s);
    var t := TrimStart(s);
    EndTrimmed(t);
    m := n + |TrimSpace(s)|;
    assert s[n..m] == t[..m - n] && s[m..] == t[m - n..];
  }

  /** What is handed on of the lines: each one trimmed, those that are empty or rejected left out. */
  function Forwarded(lines: seq<Line<Bytes>>, trim: Bytes -> Bytes, keep: Bytes -> bool): seq<Bytes>
  {
    if lines == [] then []
    else
      var line := trim(lines[|lines| - 1].body);
      Forwarded(lines[..|lines| - 1], trim, keep) + (if line != [] && keep(line) then [line] else [])
  }

  lemma {:induction false} ForwardedConcat(a: seq<Line<Bytes>>, b: seq<Line<Bytes>>, trim: Bytes -> Bytes, keep: Bytes -> bool)
    ensures Forwarded(a + b, trim, keep) == Forwarded(a, trim, keep) + Forwarded(b, trim, keep)
    decreases |b|
  {
    if b == [] {
      assert a + b == a;
    } else {
      assert (a + b)[..|a + b| - 1] == a + b[..|b| - 1];
      ForwardedConcat(a, b[..|b| - 1], trim, keep);
    }
  }

  // ------------------------------------------------------------- the tailer

  /** How the tailer knows a turn's end, `aborted` never when it has no test for it; following content only it looks for none. */
  datatype Marks = Marks(contentOnly: bool, complete: Bytes -> bool, aborted: Bytes -> bool)

  datatype Event = Content(line: Bytes) | Failed | Ended(reason: string)

  /**
   What a tailer has told: its events, the completions still to skip, how many
   more lines it can send before its send is cancelled under it, and whether it
   ended the turn.
   */
  datatype Tale = Tale(events: seq<Event>, skip: nat, patience: Option<nat>, ended: bool)

  function Exit(t: Tale): Tale
  {
    t.(events := t.events + [Ended("")], ended := true)
  }

  /** One line heard: another turn's completion, this one's, an abort, or content. */
  function Heard(t: Tale, line: Bytes, m: Marks): Tale
  {
    if t.ended then t
    else if !m.contentOnly && m.complete(line) then
      if t.skip > 0 then t.(events := t.events + [Content(line)], skip := t.skip - 1) else Exit(t)
    else if !m.contentOnly && m.aborted(line) then
      t.(events := t.events + [Content(line), Failed, Ended("turn_aborted")], ended := true)
    else if t.patience == Some(0) then Exit(t)
    else t.(events := t.events + [Content(line)], patience := if t.patience.Some? then Some(t.patience.value - 1) else None)
  }

  function HeardAll(t: Tale, lines: seq<Bytes>, m: Marks): Tale
  {
    if lines == [] then t else Heard(HeardAll(t, lines[..|lines| - 1], m), lines[|lines| - 1], m)
  }

  lemma {:induction false} HeardConcat(t: Tale, a: seq<Bytes>, b: seq<Bytes>, m: Marks)
    ensures HeardAll(t, a + b, m) == HeardAll(HeardAll(t, a, m), b, m)
    decreases |b|
  {
    if b == [] {
      assert a + b == a;
    } else {
      assert (a + b)[..|a + b| - 1] == a + b[..|b| - 1];
      HeardConcat(t, a, b[..|b| - 1], m);
    }
  }

  lemma {:induction false} HeardEnded(t: Tale, lines: seq<Bytes>, m: Marks)
    requires t.ended
    ensures HeardAll(t, lines, m) == t
  {
    if lines != [] {
      HeardEnded(t, lines[..|lines| - 1], m);
    }
  }

  lemma HeardOne(t: Tale, lines: seq<Bytes>, line: Bytes, m: Marks)
    ensures HeardAll(t, lines + [line], m) == Heard(HeardAll(t, lines, m), line, m)
  {
    assert (lines + [line])[..|lines|] == lines;
  }

  /** The line ends the turn, when so many completions came before it. */
  predicate Stops(line: Bytes, m: Marks, before: nat, skip: nat)
  {
    !m.contentOnly && if m.complete(line) then before >= skip else m.aborted(line)
  }

  function Completions(lines: seq<Bytes>, m: Marks): (n: nat)
  {
    if lines == [] then 0 else Completions(lines[..|lines| - 1], m) + if m.complete(lines[|lines| - 1]) then 1 else 0
  }

  /** None of the lines ends the turn. */
  ghost predicate NoStop(lines: seq<Bytes>, m: Marks, skip: nat)
  {
    forall i :: 0 <= i < |lines| ==> !Stops(lines[i], m, Completions(lines[..i], m), skip)
  }

  function Contents(lines: seq<Bytes>): (events: seq<Event>)
    ensures |events| == |lines|
  {
    seq(|lines|, i requires 0 <= i < |lines| => Content(lines[i]))
  }

  /**
   A tailer that is not cancelled under a send goes on exactly as long as no line
   ends the turn, and until then has told each line, once and in order.
   */
  lemma {:induction false} ToldUntilStop(lines: seq<Bytes>, m: Marks, skip: nat)
    ensures var t := HeardAll(Tale([], skip, None, false), lines, m);
            && (!t.ended <==> NoStop(lines, m, skip))
            && (!t.ended ==>
                  && t.events == Contents(lines) && t.patience == None
                  && (!m.contentOnly ==> t.skip == skip - Completions(lines, m)))
    decreases |lines|
  {
    if lines != [] {
      hide NoStop, Stops, Heard, Contents;
      var k := |lines| - 1;
      ToldUntilStop(lines[..k], m, skip);
      NoStopNext(lines, m, skip);
      ContentsNext(lines);
      HeardStop(HeardAll(Tale([], skip, None, false), lines[..k], m), lines[k], m, Completions(lines[..k], m), skip);
    }
  }

  lemma NoStopNext(lines: seq<Bytes>, m: Marks, skip: nat)
    requires lines != []
    ensures var k := |lines| - 1;
            NoStop(lines, m, skip) <==> NoStop(lines[..k], m, skip) && !Stops(lines[k], m, Completions(lines[..k], m), skip)
  {
    hide Stops, Completions;
    var k := |lines| - 1;
    var head := lines[..k];
    assert forall i :: 0 <= i < k ==> head[..i] == lines[..i] && head[i] == lines[i];
    if NoStop(lines, m, skip) {
      assert forall i :: 0 <= i < k ==> !Stops(lines[i], m, Completions(lines[..i], m), skip);
    }
  }

  lemma ContentsNext(lines: seq<Bytes>)
    requires lines != []
    ensures Contents(lines) == Contents(lines[..|lines| - 1]) + [Content(lines[|lines| - 1])]
  {}

  /** What one line makes of a tailer that has not ended its turn. */
  lemma HeardStop(t: Tale, line: Bytes, m: Marks, before: nat, skip: nat)
    requires !t.ended ==> t.patience == None && (!m.contentOnly ==> t.skip == skip - before)
    ensures var u := Heard(t, line, m);
            && (t.ended ==> u == t)
            && (!t.ended ==> (u.ended <==> Stops(line, m, before, skip)))
            && (!t.ended && !u.ended ==>
                  && u.events == t.events + [Content(line)] && u.patience == None
                  && (!m.contentOnly ==> u.skip == t.skip - if m.complete(line) then 1 else 0))
            && (!t.ended && u.ended ==>
                  u.events == t.events + if m.complete(line) then [Ended("")] else [Content(line), Failed, Ended("turn_aborted")])
  {}

  /** The first line that ends the turn: the events are the lines ahead of it, and the end it stands for, whatever follows. */
  lemma ToldAtStop(lines: seq<Bytes>, e: nat, m: Marks, skip: nat)
    requires e < |lines| && NoStop(lines[..e], m, skip) && Stops(lines[e], m, Completions(lines[..e], m), skip)
    ensures var t := HeardAll(Tale([], skip, None, false), lines, m);
            t.ended && t.events == Contents(lines[..e]) +
              if m.complete(lines[e]) then [Ended("")] else [Content(lines[e]), Failed, Ended("turn_aborted")]
  {
    hide NoStop, Stops, Heard, HeardAll, Contents, Completions;
    var start, head, tail := Tale([], skip, None, false), lines[..e], lines[e + 1..];
    ToldUntilStop(head, m, skip);
    HeardStop(HeardAll(start, head, m), lines[e], m, Completions(head, m), skip);
    HeardOne(start, head, lines[e], m);
    assert head + [lines[e]] + tail == lines;
    HeardConcat(start, head + [lines[e]], tail, m);
    HeardEnded(HeardAll(start, head + [lines[e]], m), tail, m);
  }

  /** The turn was ended ahead of some line, before any line did, with all ahead of it told. */
  ghost predicate CutShort(t: Tale, lines: seq<Bytes>, m: Marks, skip: nat)
  {
    t.ended && exists q :: 0 <= q < |lines| && NoStop(lines[..q], m, skip) && t.events == Contents(lines[..q]) + [Ended("")]
  }

  predicate SameTold(t: Tale, u: Tale)
  {
    t.events == u.events && t.ended == u.ended && t.skip == u.skip
  }

  lemma HeardSame(t: Tale, u: Tale, line: Bytes, m: Marks)
    requires SameTold(t, u) && (!u.ended ==> u.patience == None)
    ensures var t', u' := Heard(t, line, m), Heard(u, line, m);
            SameTold(t', u') || (!u.ended && t'.ended && t'.events == u.events + [Ended("")])
  {}

  lemma CutAt(t: Tale, lines: seq<Bytes>, q: nat, m: Marks, skip: nat)
    requires q < |lines| && t.ended && NoStop(lines[..q], m, skip) && t.events == Contents(lines[..q]) + [Ended("")]
    ensures CutShort(t, lines, m, skip)
  {
    hide NoStop, Contents;
  }

  lemma CutBefore(t: Tale, lines: seq<Bytes>, k: nat, m: Marks, skip: nat)
    requires k <= |lines| && CutShort(t, lines[..k], m, skip)
    ensures t.ended && CutShort(t, lines, m, skip)
  {
    hide NoStop, Contents;
    var q: nat :| q < k && NoStop(lines[..k][..q], m, skip) && t.events == Contents(lines[..k][..q]) + [Ended("")];
    assert lines[..k][..q] == lines[..q];
    CutAt(t, lines, q, m, skip);
  }

  /** A tailer cancelled under a send tells what one that is not would, or ends the turn short. */
  lemma {:induction false} ToldOrCut(lines: seq<Bytes>, m: Marks, skip: nat, patience: nat)
    ensures var t := HeardAll(Tale([], skip, Some(patience), false), lines, m);
            var u := HeardAll(Tale([], skip, None, false), lines, m);
            SameTold(t, u) || CutShort(t, lines, m, skip)
    decreases |lines|
  {
    if lines != [] {
      hide NoStop, Contents, CutShort, SameTold, Heard, Completions;
      var k := |lines| - 1;
      var head := lines[..k];
      var t := HeardAll(Tale([], skip, Some(patience), false), head, m);
      var u := HeardAll(Tale([], skip, None, false), head, m);
      ToldOrCut(head, m, skip, patience);
      ToldUntilStop(head, m, skip);
      if SameTold(t, u) {
        HeardSame(t, u, lines[k], m);
        if !SameTold(Heard(t, lines[k], m), Heard(u, lines[k], m)) {
          CutAt(Heard(t, lines[k], m), lines, k, m, skip);
        }
      } else {
        CutBefore(t, lines, k, m, skip);
        HeardEnded(t, [lines[k]], m);
        HeardOne(t, [], lines[k], m);
        HeardNothing(t, m);
      }
    }
  }

  // ---------------------------------------------------------- reading as it grows

  function Concat(chunks: seq<Bytes>): Bytes
  {
    if chunks == [] then [] else Concat(chunks[..|chunks| - 1]) + chunks[|chunks| - 1]
  }

  /** The lines that end in what was added to a log, trimmed, the empty ones left out. */
  function Since(data: Bytes, more: Bytes): seq<Bytes>
    requires data <= more
  {
    Forwarded(Complete(more, LastBreak(data, 0)), TrimRight, _ => true)
  }

  /** The part of a line that is still to end. */
  function Pending(data: Bytes): Bytes
  {
    data[LastBreak(data, 0)..]
  }

  /** What one more chunk completes: with a newline, the line it ends; without one, nothing. */
  lemma SinceGrown(data: Bytes, now: Bytes, chunk: Bytes, newline: bool)
    requires data <= now
    requires newline ==> chunk != [] && chunk[|chunk| - 1] == NEWLINE
    requires forall i :: 0 <= i < (if newline then |chunk| - 1 else |chunk|) ==> chunk[i] != NEWLINE
    ensures var more, line := now + chunk, TrimRight(Pending(now) + chunk);
            && Since(data, more) == (if newline && line != [] then Since(data, now) + [line] else Since(data, now))
            && Pending(more) == if newline then [] else Pending(now) + chunk
  {
    hide LinesIn, LastBreak, Forwarded, TrimRight;
    var more, from, b := now + chunk, LastBreak(data, 0), LastBreak(now, 0);
    assert more[b..] == now[b..] + chunk;
    assert forall i :: b <= i < |now| ==> more[i] == now[i];
    BreakIs(more, 0, if newline then |more| else b);
    BreakOn(data, now);
    CompleteGrows(now, more, from);
    BreakIs(more, b, if newline then |more| else b);
    if newline {
      LastLine(more, b);
      ForwardedConcat(Complete(now, from), [Line(b, more[b..])], TrimRight, _ => true);
      ForwardedOne(Line(b, more[b..]), TrimRight, _ => true);
    } else {
      NoLines(more, b);
      assert Complete(now, from) + [] == Complete(now, from);
    }
  }

  lemma BreakOn(data: Bytes, now: Bytes)
    requires data <= now
    ensures LastBreak(now, LastBreak(data, 0)) == LastBreak(now, 0)
  {
    hide LinesIn;
    CompleteGrows(data, now, 0);
  }

  lemma SinceNothing(data: Bytes)
    ensures Since(data, data) == []
  {
    hide LinesIn;
    BreakOn(data, data);
    NoLines(data, LastBreak(data, 0));
  }

  /** Lines completed in two steps are those of each. */
  lemma SinceSplit(data: Bytes, now: Bytes, more: Bytes)
    requires data <= now <= more
    ensures Since(data, more) == Since(data, now) + Since(now, more)
  {
    hide LinesIn, LastBreak, Forwarded, TrimRight;
    CompleteGrows(now, more, LastBreak(data, 0));
    BreakOn(data, now);
    BreakOn(data, more);
    BreakOn(now, more);
    ForwardedConcat(Complete(now, LastBreak(data, 0)), Complete(more, LastBreak(now, 0)), TrimRight, _ => true);
  }

  /** `tailTurn`'s read to the end of what the file holds: the lines it completes are heard, until one ends the turn. */
  method ReadThrough(was: Tale, ghost data: Bytes, held: Bytes, poll: Bytes, m: Marks) returns (t: Tale, pending: Bytes)
    requires held == Pending(data) && !was.ended
    ensures t == HeardAll(was, Since(data, data + poll), m)
    ensures !t.ended ==> pending == Pending(data + poll)
  {
    hide Since, Pending, Heard, HeardAll, TrimRight;
    t, pending := was, held;
    var at := 0;
    ghost var now := data;
    SinceNothing(data);
    HeardNothing(was, m);
    while true
      invariant at <= |poll| && now == data + poll[..at] && !t.ended
      invariant t == HeardAll(was, Since(data, now), m) && pending == Pending(now)
      decreases |poll| - at
    {
      var n, newline := ReadBytes(poll, at);
      var chunk := poll[at..at + n];
      assert data + poll[..at + n] == now + chunk;
      SinceGrown(data, now, chunk, newline);
      pending := pending + chunk;
      ghost var lines := Since(data, now);
      now := now + chunk;
      at := at + n;
      if !newline {
        assert poll[..at] == poll;
        return;
      }
      var line := TrimRight(pending);
      pending := [];
      if line != [] {
        HeardOne(was, lines, line, m);
        t := Hear(t, line, m);
        if t.ended {
          EndedThere(was, data, now, data + poll, m);
          return;
        }
      }
    }
  }

  lemma HeardNothing(t: Tale, m: Marks)
    ensures HeardAll(t, [], m) == t
  {}

  lemma EndedThere(was: Tale, data: Bytes, now: Bytes, more: Bytes, m: Marks)
    requires data <= now <= more && HeardAll(was, Since(data, now), m).ended
    ensures HeardAll(was, Since(data, more), m) == HeardAll(was, Since(data, now), m)
  {
    hide Since, HeardAll;
    SinceSplit(data, now, more);
    HeardConcat(was, Since(data, now), Since(now, more), m);
    HeardEnded(HeardAll(was, Since(data, now), m), Since(now, more), m);
  }

  /** What the loop does with one line. */
  method Hear(was: Tale, line: Bytes, m: Marks) returns (t: Tale)
    requires !was.ended
    ensures t == Heard(was, line, m)
  {
    t := was;
    if !m.contentOnly && m.complete(line) {
      if t.skip > 0 {
        return t.(skip := t.skip - 1, events := t.events + [Content(line)]);
      }
      return Exit(t);
    }
    if !m.contentOnly && m.aborted(line) {
      t := t.(events := t.events + [Content(line)]);
      t := t.(events := t.events + [Failed]);
      return t.(events := t.events + [Ended("turn_aborted")], ended := true);
    }
    if t.patience == Some(0) {
      return Exit(t);
    }
    if t.patience.Some? {
      t := t.(patience := Some(t.patience.value - 1));
    }
    t := t.(events := t.events + [Content(line)]);
  }

  /**
   `tailTurn`: at each poll it reads what the file has gained, however that falls,
   holding back the part of a line that is still to end. Once it finds itself
   cancelled it drains what there is, whatever its patience, and ends the turn.
   */
  method TailTurn(polls: seq<Bytes>, drain: Option<Bytes>, m: Marks, skip: nat, patience: Option<nat>) returns (t: Tale)
    ensures var data := Concat(polls);
            var heard := HeardAll(Tale([], skip, patience, false), Since([], data), m);
            if heard.ended || drain.None? then t == heard
            else
              var rest := HeardAll(heard.(patience := None), Since(data, data + drain.value), m);
              t == if rest.ended then rest else Exit(rest)
  {
    hide Since, Pending, Heard, HeardAll;
    ghost var start := Tale([], skip, patience, false);
    ghost var data: Bytes := [];
    var pending: Bytes := [];
    t := Tale([], skip, patience, false);
    PendingNothing();
    SinceNothing([]);
    HeardNothing(start, m);
    for i := 0 to |polls|
      invariant data == Concat(polls[..i]) && !t.ended
      invariant t == HeardAll(start, Since([], data), m) && pending == Pending(data)
    {
      assert polls[..i + 1][..i] == polls[..i];
      SinceSplit([], data, data + polls[i]);
      HeardConcat(start, Since([], data), Since(data, data + polls[i]), m);
      t, pending := ReadThrough(t, data, pending, polls[i], m);
      data := data + polls[i];
      if t.ended {
        ConcatOn(polls, i + 1);
        EndedThere(start, [], data, Concat(polls), m);
        return;
      }
    }
    assert polls[..|polls|] == polls;
    if drain.Some? {
      t, pending := ReadThrough(t.(patience := None), data, pending, drain.value, m);
      if !t.ended {
        t := Exit(t);
      }
    }
  }

  lemma PendingNothing()
    ensures Pending([]) == []
  {}

  lemma {:induction false} ConcatOn(chunks: seq<Bytes>, i: nat)
    requires i <= |chunks|
    ensures Concat(chunks[..i]) <= Concat(chunks)
    decreases |chunks| - i
  {
    if i < |chunks| {
      assert chunks[..i + 1][..i] == chunks[..i];
      ConcatOn(chunks, i + 1);
    } else {
      assert chunks[..i] == chunks;
    }
  }

  /** `ReadBytes('\n')`: up to a newline, or all there is. */
  method ReadBytes(poll: Bytes, at: nat) returns (n: nat, newline: bool)
    requires at <= |poll|
    ensures at + n <= |poll| && (newline ==> n > 0 && poll[at + n - 1] == NEWLINE) && (!newline ==> at + n == |poll|)
    ensures forall i :: at <= i < (if newline then at + n - 1 else at + n) ==> poll[i] != NEWLINE
  {
    n, newline := 0, false;
    while at + n < |poll| && !newline
      invariant at + n <= |poll| && (newline ==> n > 0 && poll[at + n - 1] == NEWLINE)
      invariant forall i :: at <= i < (if newline then at + n - 1 else at + n) ==> poll[i] != NEWLINE
      decreases |poll| - at - n, !newline
    {
      newline := poll[at + n] == NEWLINE;
      n := n + 1;
    }
  }

  lemma ForwardedOne(line: Line<Bytes>, trim: Bytes -> Bytes, keep: Bytes -> bool)
    ensures Forwarded([line], trim, keep) == if trim(line.body) != [] && keep(trim(line.body)) then [trim(line.body)] else []
  {
    assert [line][..0] == [];
  }

  /**
   `tailPiJSONL`: one poll of the log, from an offset a poll before left; `keep`
   is what it takes for a record. With `patience`, it is cancelled once it has
   sent that many: the offset then stays, so nothing it did not send is passed.
   */
  method PollPi(data: Bytes, offset: nat, keep: Bytes -> bool, patience: Option<nat>)
    returns (out: seq<Bytes>, next: nat, grew: bool, cancelled: bool)
    ensures var from := if offset > |data| then 0 else offset;
            var all := Forwarded(Complete(data, from), TrimSpace, keep);
            && cancelled == (patience.Some? && patience.value < |all|)
            && out == (if cancelled then all[..patience.value] else all)
            && next == (if cancelled then from else LastBreak(data, from))
            && grew == (!cancelled && LastBreak(data, from) > from)
  {
    hide LinesIn, LastBreak, Forwarded;
    var from := if offset > |data| then 0 else offset;
    var last := |data|;
    while last > from && data[last - 1] != NEWLINE
      invariant from <= last <= |data| && forall i :: last <= i < |data| ==> data[i] != NEWLINE
    {
      last := last - 1;
    }
    BreakIs(data, from, last);
    if last == from {
      NoneForwarded(data, from, keep);
      return [], from, false, false;
    }
    out, cancelled := SendLines(data, from, last, keep, patience);
    next, grew := if cancelled then from else last, !cancelled;
  }

  /** The lines of a stretch sent one by one, until one is one too many. */
  method SendLines(data: Bytes, from: nat, last: nat, keep: Bytes -> bool, patience: Option<nat>)
    returns (out: seq<Bytes>, cancelled: bool)
    requires from < last <= |data| && data[last - 1] == NEWLINE
    ensures var all := Forwarded(LinesIn(data, from, last), TrimSpace, keep);
            && cancelled == (patience.Some? && patience.value < |all|)
            && out == (if cancelled then all[..patience.value] else all)
  {
    hide LinesIn, LineEnd, Forwarded, TrimSpace;
    NoneForwarded(data, from, keep);
    out, cancelled := [], false;
    var at := from;
    while at < last
      invariant from <= at <= last && (at == from || data[at - 1] == NEWLINE)
      invariant out == Forwarded(LinesIn(data, from, at), TrimSpace, keep)
      invariant patience.Some? ==> |out| <= patience.value
    {
      var e := LineEnd(data, at, last);
      OneForwarded(data, from, at, last, keep);
      RestForwarded(data, from, e, last, keep);
      var line := TrimSpace(data[at..e]);
      if line != [] && keep(line) {
        if patience == Some(|out|) {
          cancelled := true;
          return;
        }
        out := out + [line];
      }
      at := e;
    }
  }

  lemma RestForwarded(data: Bytes, from: nat, at: nat, last: nat, keep: Bytes -> bool)
    requires from <= at <= last <= |data| && (at == from || data[at - 1] == NEWLINE)
    ensures Forwarded(LinesIn(data, from, at), TrimSpace, keep) <= Forwarded(LinesIn(data, from, last), TrimSpace, keep)
  {
    hide LinesIn, TrimSpace;
    if at == from {
      NoneForwarded(data, from, keep);
    } else {
      LinesSplit(data, from, at, last);
      ForwardedConcat(LinesIn(data, from, at), LinesIn(data, at, last), TrimSpace, keep);
    }
  }

  lemma NoneForwarded(data: Bytes, from: nat, keep: Bytes -> bool)
    requires from <= |data|
    ensures Forwarded(LinesIn(data, from, from), TrimSpace, keep) == []
  {}

  lemma OneForwarded(data: Bytes, from: nat, at: nat, last: nat, keep: Bytes -> bool)
    requires from <= at < last <= |data| && (at == from || data[at - 1] == NEWLINE) && data[last - 1] == NEWLINE
    ensures var e := LineEnd(data, at, last);
            var line := TrimSpace(data[at..e]);
            && data[e - 1] == NEWLINE
            && Forwarded(LinesIn(data, from, e), TrimSpace, keep) ==
               Forwarded(LinesIn(data, from, at), TrimSpace, keep) + (if line != [] && keep(line) then [line] else [])
  {
    hide LinesIn, LineEnd, Forwarded, TrimSpace;
    var e := LineEnd(data, at, last);
    LineEndCut(data, at, e, last);
    OneIn(data, at, e);
    if at == from {
      NoLines(data, from);
    } else {
      LinesSplit(data, from, at, e);
    }
    ForwardedConcat(LinesIn(data, from, at), [Line(at, data[at..e])], TrimSpace, keep);
    assert LinesIn(data, from, at) + [Line(at, data[at..e])] == LinesIn(data, from, e);
    ForwardedOne(Line(at, data[at..e]), TrimSpace, keep);
  }

  lemma OneIn(data: Bytes, at: nat, e: nat)
    requires at < e <= |data| && LineEnd(data, at, e) == e
    ensures LinesIn(data, at, e) == [Line(at, data[at..e])]
  {
    NoLines(data, e);
  }

  /** Sizes at which a growing log is polled. */
  ghost predicate Growing(logs: seq<Bytes>)
  {
    forall i :: 0 <= i < |logs| - 1 ==> logs[i] <= logs[i + 1]
  }

  /** What a run of pi polls hands on, from an empty log on: each complete line once, in order, whatever the sizes it was seen at. */
  method PollsPi(logs: seq<Bytes>, keep: Bytes -> bool) returns (out: seq<Bytes>, offset: nat)
    requires logs != [] && Growing(logs)
    ensures var data := logs[|logs| - 1];
            out == Forwarded(Complete(data, 0), TrimSpace, keep) && offset == LastBreak(data, 0)
  {
    hide LinesIn, LastBreak, Forwarded;
    var grew, cancelled;
    out, offset, grew, cancelled := PollPi(logs[0], 0, keep, None);
    for i := 1 to |logs|
      invariant out == Forwarded(Complete(logs[i - 1], 0), TrimSpace, keep) && offset == LastBreak(logs[i - 1], 0)
    {
      assert logs[i - 1] <= logs[i - 1 + 1];
      CompleteGrows(logs[i - 1], logs[i], 0);
      var more, next, g, c := PollPi(logs[i], offset, keep, None);
      ForwardedConcat(Complete(logs[i - 1], 0), Complete(logs[i], offset), TrimSpace, keep);
      out, offset := out + more, next;
    }
  }
}
