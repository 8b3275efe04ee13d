/**
 What a transcript says: its turns say what its records do, each text once and
 in order, and the turns that are no replies are the records' own.
 */
module TurnContents {
  import opened Lines
  import opened Options
  import opened PiTranscript
  import opened TurnSpans

  // ------------------------------------------------------------- replies

  /** What the assistant's texts in a run of turns say, in order. */
  function Said(turns: seq<Turn>): seq<string>
  {
    if turns == [] then [] else Said(turns[..|turns| - 1]) + TextsOf(turns[|turns| - 1].parts)
  }

  /** The texts a record says. */
  function SaidBy(rec: Record): seq<string>
  {
    if rec.AssistantMessage? && rec.blocks.Some? then Spoken(rec.blocks.value) else []
  }

  /** What the assistant records of a log say, in order. */
  function SaidIn(lines: seq<Line<Record>>): seq<string>
  {
    if lines == [] then [] else SaidIn(lines[..|lines| - 1]) + SaidBy(lines[|lines| - 1].body)
  }

  function TurnsOf(ps: seq<Placed>): (turns: seq<Turn>)
    ensures |turns| == |ps|
  {
    seq(|ps|, i requires 0 <= i < |ps| => ps[i].turn)
  }

  /** A tool result that has a text's place: its call's id is the last part's under that id, which is a text that says something else. */
  ghost predicate Overwrites(cur: Option<Turn>, rec: Record)
  {
    rec.ToolResult? && exists i: nat :: Answers(PartsIn(cur), i, rec.callID) && PartsIn(cur)[i].partType == TextPart && PartsIn(cur)[i].content != rec.content
  }

  lemma {:induction false} SaidConcat(a: seq<Turn>, b: seq<Turn>)
    ensures Said(a + b) == Said(a) + Said(b)
    decreases |b|
  {
    if b == [] {
      assert a + b == a;
    } else {
      assert (a + b)[..|a + b| - 1] == a + b[..|b| - 1];
      SaidConcat(a, b[..|b| - 1]);
    }
  }

  lemma SaidOne(t: Turn)
    ensures Said([t]) == TextsOf(t.parts) && Said([]) == []
  {
    assert [t][..0] == [];
  }

  lemma SaidFlushed(cur: Option<Turn>)
    ensures Said(Flushed(cur)) == TextsOf(PartsIn(cur))
  {
    if Flushed(cur) != [] {
      SaidOne(cur.value);
    }
  }

  /** One part put in the place of another changes what is said exactly when one of them is a text and they do not say the same. */
  lemma Replaced(parts: seq<Part>, i: nat, p: Part)
    requires i < |parts| && p.partType == parts[i].partType
    ensures TextsOf(parts[i := p]) == TextsOf(parts) <==> p.partType != TextPart || p.content == parts[i].content
  {
    var head, tail := parts[..i], parts[i + 1..];
    assert parts == head + ([parts[i]] + tail) && parts[i := p] == head + ([p] + tail);
    TextsConcat(head, [parts[i]] + tail);
    TextsConcat(head, [p] + tail);
    TextsConcat([parts[i]], tail);
    TextsConcat([p], tail);
    assert [p][..0] == [] && [parts[i]][..0] == [];
    if p.partType == TextPart && p.content != parts[i].content {
      var k := |TextsOf(head)|;
      assert TextsOf(parts)[k] == parts[i].content && TextsOf(parts[i := p])[k] == p.content;
    }
  }

  /** What is said goes on, by exactly the texts of the record, if and only if it is no result that overwrites one. */
  lemma FeedSays(cur: Option<Turn>, rec: Record)
    requires Open(cur)
    ensures var (next, out) := Feed(cur, rec);
            Said(out) + TextsOf(PartsIn(next)) == TextsOf(PartsIn(cur)) + SaidBy(rec) <==> !Overwrites(cur, rec)
  {
    hide Feed, TextsOf, Said, Spoken, CallsOf, Called;
    var (next, out) := Feed(cur, rec);
    if rec.AssistantMessage? {
      AssistantSays(cur, rec);
    } else if rec.ToolResult? {
      ResultSays(cur, rec);
    } else {
      OwnSays(cur, rec);
    }
  }

  lemma AssistantSays(cur: Option<Turn>, rec: Record)
    requires rec.AssistantMessage? && Open(cur)
    ensures var (next, out) := Feed(cur, rec); Said(out) + TextsOf(PartsIn(next)) == TextsOf(PartsIn(cur)) + SaidBy(rec)
  {
    hide Feed, TextsOf, Said, CallsOf, Called;
    var (next, out) := Feed(cur, rec);
    AssistantFed(cur, rec);
    SaidNothing(NewTurn(Error, "", "", 0, 0));
    if out != [] {
      SaidOne(out[|out| - 1]);
      SaidOne(out[0]);
      SaidConcat(out[..|out| - 1], [out[|out| - 1]]);
      assert out == out[..|out| - 1] + [out[|out| - 1]];
      if |out| == 2 {
        assert out[..1] == [out[0]];
      } else {
        assert out[..0] == [];
      }
    }
  }

  lemma SaidNothing(t: Turn)
    requires t.parts == []
    ensures TextsOf([]) == [] && Said([]) == [] && Said([t]) == [] && Spoken([]) == []
  {
    SaidOne(t);
  }

  lemma ResultSays(cur: Option<Turn>, rec: Record)
    requires rec.ToolResult? && Open(cur)
    ensures var (next, out) := Feed(cur, rec);
            Said(out) + TextsOf(PartsIn(next)) == TextsOf(PartsIn(cur)) + SaidBy(rec) <==> !Overwrites(cur, rec)
  {
    hide Feed, TextsOf, Said, CallsOf, Continues;
    var (next, out) := Feed(cur, rec);
    var parts := PartsIn(cur);
    ResultFed(cur, rec);
    SaidNothing(NewTurn(Error, "", "", 0, 0));
    var i := LastCall(parts, rec.callID);
    if i >= 0 {
      assert Answers(parts, i, rec.callID);
      var p := next.value.parts[i];
      assert next.value.parts == parts[i := p];
      Replaced(parts, i, p);
      assert [] + TextsOf(next.value.parts) == TextsOf(next.value.parts) && TextsOf(parts) + [] == TextsOf(parts);
      assert Overwrites(cur, rec) <==> parts[i].partType == TextPart && parts[i].content != rec.content;
    } else {
      var p := Part(ToolPart, rec.content, rec.toolName, "", "", rec.callID, rec.isError);
      TextsConcat(parts, [p]);
      NoText(p);
      assert !Overwrites(cur, rec);
    }
  }

  lemma NoText(p: Part)
    requires p.partType == ToolPart
    ensures TextsOf([p]) == []
  {
    assert [p][..0] == [];
  }

  lemma OwnSays(cur: Option<Turn>, rec: Record)
    requires !rec.AssistantMessage? && !rec.ToolResult? && Open(cur)
    ensures var (next, out) := Feed(cur, rec); Said(out) + TextsOf(PartsIn(next)) == TextsOf(PartsIn(cur)) + SaidBy(rec)
  {
    hide *;
    OwnCases(cur, rec);
    OwnQuiet(rec);
    SaidFlushed(cur);
    SaidConcat(Flushed(cur), OwnTurn(rec));
    NothingIn();
    var was := TextsOf(PartsIn(cur));
    assert was + [] == was == [] + was;
  }

  lemma NothingIn()
    ensures TextsOf(PartsIn(None)) == [] && Said([]) == []
  {}

  lemma OwnCases(cur: Option<Turn>, rec: Record)
    requires !rec.AssistantMessage? && !rec.ToolResult? && Open(cur)
    ensures SaidBy(rec) == []
    ensures Feed(cur, rec) == (cur, []) || Feed(cur, rec) == (None, Flushed(cur) + OwnTurn(rec))
  {
    hide Feed, OwnTurn, Flushed;
    OwnFed(cur, rec);
    FlushedIs(cur);
  }

  lemma FlushedIs(cur: Option<Turn>)
    ensures Flushed(cur) == if PartsIn(cur) != [] then [cur.value] else []
  {}

  /** A turn of a record's own says nothing as a reply. */
  lemma OwnQuiet(rec: Record)
    ensures Said(OwnTurn(rec)) == []
  {
    hide Said;
    if OwnTurn(rec) != [] {
      SaidNothing(OwnTurn(rec)[0]);
      assert OwnTurn(rec) == [OwnTurn(rec)[0]];
    } else {
      SaidNothing(NewTurn(Error, "", "", 0, 0));
    }
  }

  /** No tool result of the lines overwrites a text. */
  ghost predicate Unwritten(s: Scan, lines: seq<Line<Record>>)
  {
    forall m :: 0 <= m < |lines| ==> !Overwrites(Run(s, lines[..m]).cur, lines[m].body)
  }

  lemma UnwrittenTail(s: Scan, lines: seq<Line<Record>>)
    requires lines != [] && Unwritten(s, lines)
    ensures !Overwrites(s.cur, lines[0].body) && Unwritten(Step(s, lines[0]).0, lines[1..])
  {
    hide Step, Overwrites;
    assert lines[..0] == [] && Run(s, []) == s;
    forall m | 0 <= m < |lines| - 1 ensures !Overwrites(Run(Step(s, lines[0]).0, lines[1..][..m]).cur, lines[1..][m].body) {
      assert lines[..m + 1][1..] == lines[1..][..m] && lines[..m + 1][0] == lines[0];
      assert !Overwrites(Run(s, lines[..m + 1]).cur, lines[m + 1].body);
    }
  }

  lemma StepSays(s: Scan, l: Line<Record>)
    requires Inv(s, l.off) && !Overwrites(s.cur, l.body)
    ensures var (s', out) := Step(s, l);
            Said(TurnsOf(out)) + TextsOf(PartsIn(s'.cur)) == TextsOf(PartsIn(s.cur)) + SaidBy(l.body)
  {
    hide Feed, Said, TextsOf, SaidBy, Overwrites;
    StepOut(s, l);
    FeedSays(s.cur, l.body);
    assert TurnsOf(Step(s, l).1) == Feed(s.cur, l.body).1;
  }

  lemma {:induction false} SaidInCons(l: Line<Record>, lines: seq<Line<Record>>)
    ensures SaidIn([l] + lines) == SaidBy(l.body) + SaidIn(lines)
    decreases |lines|
  {
    hide SaidBy;
    var all := [l] + lines;
    if lines == [] {
      assert all[..0] == [];
    } else {
      var k := |lines| - 1;
      assert all[..|all| - 1] == [l] + lines[..k];
      SaidInCons(l, lines[..k]);
    }
  }

  lemma TurnsConcat(a: seq<Placed>, b: seq<Placed>)
    ensures TurnsOf(a + b) == TurnsOf(a) + TurnsOf(b)
  {}

  lemma {:induction false} ParseSays(s: Scan, lines: seq<Line<Record>>, off: int)
    requires Sorted(lines) && Inv(s, if lines == [] then off else lines[0].off) && Unwritten(s, lines)
    ensures Said(TurnsOf(Parse(s, lines))) == TextsOf(PartsIn(s.cur)) + SaidIn(lines)
    decreases |lines|
  {
    hide Step, Said, TextsOf, SaidBy, Overwrites, Unwritten, Flushed, Place, TurnsOf;
    if lines == [] {
      ParseNone(s);
      FlushSays(s);
    } else {
      var l, tail := lines[0], lines[1..];
      assert lines == [l] + tail;
      StepBounds(s, l);
      SortedTail(lines);
      UnwrittenTail(s, lines);
      StepSays(s, l);
      ParseSays(Step(s, l).0, tail, l.off + 1);
      ParseCons(s, l, tail);
      TurnsConcat(Step(s, l).1, Parse(Step(s, l).0, tail));
      SaidConcat(TurnsOf(Step(s, l).1), TurnsOf(Parse(Step(s, l).0, tail)));
      SaidInCons(l, tail);
      Chain(Said(TurnsOf(Step(s, l).1)), TextsOf(PartsIn(Step(s, l).0.cur)), SaidIn(tail), TextsOf(PartsIn(s.cur)), SaidBy(l.body));
    }
  }

  lemma Chain(out: seq<string>, open: seq<string>, rest: seq<string>, was: seq<string>, said: seq<string>)
    requires out + open == was + said
    ensures out + (open + rest) == was + (said + rest)
  {
    assert out + (open + rest) == (out + open) + rest;
  }

  lemma FlushSays(s: Scan)
    ensures Said(TurnsOf(Flush(s))) == TextsOf(PartsIn(s.cur))
  {
    SaidFlushed(s.cur);
    assert TurnsOf(Flush(s)) == Flushed(s.cur);
  }

  /**
   The turns of a transcript say exactly the texts of its assistant records, each
   of them once and in order, when no tool result overwrites one.
   */
  lemma EveryTextOnce(lines: seq<Line<Record>>)
    requires Sorted(lines) && Unwritten(COLD, lines)
    ensures Said(TurnsOf(Whole(lines))) == SaidIn(lines)
  {
    hide Said, Unwritten, Parse;
    ParseSays(COLD, lines, 0);
    SaidNothing(NewTurn(Error, "", "", 0, 0));
  }

  // ------------------------------------------------ results that name a call

  /** The texts of an open turn are under no call's id. */
  predicate TextsUnnamed(cur: Option<Turn>)
  {
    forall i :: 0 <= i < |PartsIn(cur)| && PartsIn(cur)[i].partType == TextPart ==> PartsIn(cur)[i].toolUseID == ""
  }

  lemma FeedUnnamed(cur: Option<Turn>, rec: Record)
    requires TextsUnnamed(cur)
    ensures TextsUnnamed(Feed(cur, rec).0)
  {
    hide PartsOf, Touch;
    match rec {
      case AssistantMessage(_, _, _, blocks, _) =>
        if blocks.Some? {
          BlocksRead(blocks.value);
          var parts := Absorb(cur, rec).parts;
          assert parts == PartsIn(cur) + PartsOf(blocks.value);
          TouchParts(Absorb(cur, rec), rec.ts);
        } else {
          assert Absorb(cur, rec).parts == PartsIn(cur);
        }
      case ToolResult(_, _, _, _, _) => AnswerUnnamed(cur, rec);
      case _ =>
    }
  }

  lemma TouchParts(t: Turn, ts: int)
    ensures Touch(t, ts).parts == t.parts
  {}

  lemma AnswerUnnamed(cur: Option<Turn>, rec: Record)
    requires rec.ToolResult? && TextsUnnamed(cur)
    ensures TextsUnnamed(Some(Answer(cur, rec)))
  {
    var i := LastCall(PartsIn(cur), rec.callID);
    var parts := Answer(cur, rec).parts;
    assert i >= 0 ==> parts == PartsIn(cur)[i := parts[i]] && parts[i].partType == PartsIn(cur)[i].partType;
    assert forall j :: 0 <= j < |PartsIn(cur)| && j != i ==> parts[j] == PartsIn(cur)[j];
  }

  lemma {:induction false} RunUnnamed(s: Scan, lines: seq<Line<Record>>)
    requires TextsUnnamed(s.cur)
    ensures TextsUnnamed(Run(s, lines).cur)
    decreases |lines|
  {
    hide Feed, TextsUnnamed;
    if lines != [] {
      FeedUnnamed(s.cur, lines[0].body);
      RunUnnamed(Step(s, lines[0]).0, lines[1..]);
    }
  }

  /** Results that name their call overwrite no text. */
  lemma NamedResults(lines: seq<Line<Record>>)
    requires forall m :: 0 <= m < |lines| && lines[m].body.ToolResult? ==> lines[m].body.callID != ""
    ensures Unwritten(COLD, lines)
  {
    hide Run;
    forall m | 0 <= m < |lines| ensures !Overwrites(Run(COLD, lines[..m]).cur, lines[m].body) {
      RunUnnamed(COLD, lines[..m]);
    }
  }

  /** A result that names no call takes the place of the reply's last text. */
  lemma TextLost()
    ensures var said := Line(0, AssistantMessage("a", 1, "", Some([TextBlock("hello")]), ""));
            var result := Line(10, ToolResult(2, "", "", "done", false));
            SaidIn([said, result]) == ["hello"] && Said(TurnsOf(Whole([said, result]))) == ["done"]
  {
    var said := Line(0, AssistantMessage("a", 1, "", Some([TextBlock("hello")]), ""));
    var result := Line(10, ToolResult(2, "", "", "done", false));
    var hello := Part(TextPart, "hello", "", "", "", "", false);
    var done := Part(TextPart, "done", "", "", "", "", false);
    var t := Turn(Assistant, "", "a", 1, 1, "", [hello]);
    var u := Turn(Assistant, "", "a", 1, 2, "", [done]);
    LostSaid(said, result);
    LostSteps(said, result, t, u);
    ParseCons(COLD, said, [result]);
    ParseCons(Step(COLD, said).0, result, []);
    assert [result] + [] == [result] && [said] + [result] == [said, result];
    ParseNone(Scan(Some(u), 0, Pos(-1, 0)));
    LostFlush(u, done);
  }

  lemma LostSaid(said: Line<Record>, result: Line<Record>)
    requires said.body == AssistantMessage("a", 1, "", Some([TextBlock("hello")]), "") && result.body.ToolResult?
    ensures SaidIn([said, result]) == ["hello"]
  {
    var b := TextBlock("hello");
    assert [said, result][..1] == [said] && [said][..0] == [] && [b][..0] == [];
    assert SaidIn([said]) == SaidIn([]) + SaidBy(said.body);
    assert Spoken([b]) == Spoken([]) + SpokenIn(b);
  }

  lemma LostSteps(said: Line<Record>, result: Line<Record>, t: Turn, u: Turn)
    requires said == Line(0, AssistantMessage("a", 1, "", Some([TextBlock("hello")]), ""))
    requires result == Line(10, ToolResult(2, "", "", "done", false))
    requires t == Turn(Assistant, "", "a", 1, 1, "", [Part(TextPart, "hello", "", "", "", "", false)])
    requires u == Turn(Assistant, "", "a", 1, 2, "", [Part(TextPart, "done", "", "", "", "", false)])
    ensures Step(COLD, said) == (Scan(Some(t), 0, Pos(-1, 0)), [])
    ensures Step(Scan(Some(t), 0, Pos(-1, 0)), result) == (Scan(Some(u), 0, Pos(-1, 0)), [])
  {
    var b := TextBlock("hello");
    assert [b][1..] == [] && PartsOf([b]) == BlockParts(b) + PartsOf([]) == t.parts;
    assert [] + t.parts == t.parts;
    assert Absorb(None, said.body) == t.(endTime := 0);
    assert LastCall(t.parts, "") == 0;
    assert t.parts[0 := u.parts[0]] == u.parts;
  }

  lemma LostFlush(u: Turn, done: Part)
    requires u.parts == [done] && done.partType == TextPart
    ensures Said(TurnsOf(Flush(Scan(Some(u), 0, Pos(-1, 0))))) == [done.content]
  {
    FlushSays(Scan(Some(u), 0, Pos(-1, 0)));
    assert [done][..0] == [];
  }

  // ------------------------------------------------------------- own turns

  /** The turns that are no replies. */
  function Others(turns: seq<Turn>): seq<Turn>
  {
    if turns == [] then []
    else Others(turns[..|turns| - 1]) + if turns[|turns| - 1].role == Assistant then [] else [turns[|turns| - 1]]
  }

  /** The turns a log's records are by themselves, in order. */
  function OwnIn(lines: seq<Line<Record>>): seq<Turn>
  {
    if lines == [] then [] else OwnIn(lines[..|lines| - 1]) + OwnTurn(lines[|lines| - 1].body)
  }

  lemma {:induction false} OthersConcat(a: seq<Turn>, b: seq<Turn>)
    ensures Others(a + b) == Others(a) + Others(b)
    decreases |b|
  {
    if b == [] {
      assert a + b == a;
    } else {
      assert (a + b)[..|a + b| - 1] == a + b[..|b| - 1];
      OthersConcat(a, b[..|b| - 1]);
    }
  }

  lemma {:induction false} NoOthers(turns: seq<Turn>)
    requires forall i :: 0 <= i < |turns| ==> turns[i].role == Assistant
    ensures Others(turns) == []
  {
    if turns != [] {
      NoOthers(turns[..|turns| - 1]);
    }
  }

  lemma OwnOthers(rec: Record)
    ensures Others(OwnTurn(rec)) == OwnTurn(rec)
  {
    hide Others;
    if OwnTurn(rec) != [] {
      assert OwnTurn(rec) == [OwnTurn(rec)[0]];
      OneOther(OwnTurn(rec)[0]);
    } else {
      NoOthers([]);
    }
  }

  lemma OneOther(t: Turn)
    requires t.role != Assistant
    ensures Others([t]) == [t]
  {
    assert [t][..0] == [];
  }

  lemma FeedOthers(cur: Option<Turn>, rec: Record)
    requires Open(cur)
    ensures Others(Feed(cur, rec).1) == OwnTurn(rec)
  {
    hide Feed, OwnTurn, Others;
    OwnFed(cur, rec);
    var out := Feed(cur, rec).1;
    var k := |out| - |OwnTurn(rec)|;
    assert out == out[..k] + OwnTurn(rec);
    OthersConcat(out[..k], OwnTurn(rec));
    NoOthers(out[..k]);
    OwnOthers(rec);
  }

  lemma {:induction false} OwnInCons(l: Line<Record>, lines: seq<Line<Record>>)
    ensures OwnIn([l] + lines) == OwnTurn(l.body) + OwnIn(lines)
    decreases |lines|
  {
    hide OwnTurn;
    var all := [l] + lines;
    if lines == [] {
      assert all[..0] == [];
    } else {
      var k := |lines| - 1;
      assert all[..|all| - 1] == [l] + lines[..k];
      OwnInCons(l, lines[..k]);
    }
  }

  lemma {:induction false} ParseOthers(s: Scan, lines: seq<Line<Record>>, off: int)
    requires Sorted(lines) && Inv(s, if lines == [] then off else lines[0].off)
    ensures Others(TurnsOf(Parse(s, lines))) == OwnIn(lines)
    decreases |lines|
  {
    hide Feed, Others, OwnTurn, Place, TurnsOf, Flushed;
    if lines == [] {
      ParseNone(s);
      FlushOthers(s);
    } else {
      var l, tail := lines[0], lines[1..];
      assert lines == [l] + tail;
      StepBounds(s, l);
      SortedTail(lines);
      StepTurns(s, l);
      FeedOthers(s.cur, l.body);
      ParseOthers(Step(s, l).0, tail, l.off + 1);
      ParseCons(s, l, tail);
      TurnsConcat(Step(s, l).1, Parse(Step(s, l).0, tail));
      OthersConcat(TurnsOf(Step(s, l).1), TurnsOf(Parse(Step(s, l).0, tail)));
      OwnInCons(l, tail);
    }
  }

  lemma StepTurns(s: Scan, l: Line<Record>)
    requires Inv(s, l.off)
    ensures TurnsOf(Step(s, l).1) == Feed(s.cur, l.body).1
  {
    hide Feed;
    StepOut(s, l);
  }

  lemma FlushOthers(s: Scan)
    requires Open(s.cur)
    ensures Others(TurnsOf(Flush(s))) == []
  {
    assert TurnsOf(Flush(s)) == Flushed(s.cur);
    NoOthers(Flushed(s.cur));
  }

  /** Apart from replies, a transcript's turns are exactly the turns its records are by themselves, in order. */
  lemma OwnTurnsOnce(lines: seq<Line<Record>>)
    requires Sorted(lines)
    ensures Others(TurnsOf(Whole(lines))) == OwnIn(lines)
  {
    hide Others, Parse;
    ParseOthers(COLD, lines, 0);
  }
}
