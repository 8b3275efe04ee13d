/**
 The pi transcript assembler: log records in, display turns out. A record is the
 decoded form of one log line; a time of 0 is the unset time.
 */
module PiTranscript {
  import opened Options

  datatype Role = User | Assistant | System | Error

  datatype PartType = TextPart | ToolPart

  datatype Part = Part(partType: PartType, content: string, toolName: string, toolTarget: string, toolInput: string,
                       toolUseID: string, toolError: bool)

  datatype Turn = Turn(role: Role, content: string, uuid: string, time: int, endTime: int, model: string,
                       parts: seq<Part>)

  datatype Block =
    | TextBlock(text: string)
    | ToolCallBlock(id: string, name: string, target: string, input: string)
    | OtherBlock

  datatype Record =
    | Compaction(id: string, ts: int)
    | CustomMessage(id: string, ts: int, display: bool, text: string)
    | UserMessage(id: string, ts: int, text: string)
      // blocks is None when the content does not parse; failure is the message of an
      // "error" or "aborted" stop, empty for any other.
    | AssistantMessage(id: string, ts: int, model: string, blocks: Option<seq<Block>>, failure: string)
    | ToolResult(ts: int, callID: string, toolName: string, content: string, isError: bool)
    | Other

  function NewTurn(role: Role, content: string, uuid: string, time: int, endTime: int): Turn
  {
    Turn(role, content, uuid, time, endTime, "", [])
  }

  function Touch(t: Turn, ts: int): Turn
  {
    if ts != 0 then t.(endTime := ts) else t
  }

  /** What `Flush` hands over: an assistant shell with nothing in it is no turn. */
  function Flushed(cur: Option<Turn>): seq<Turn>
  {
    if cur.Some? && cur.value.parts != [] then [cur.value] else []
  }

  function BlockParts(b: Block): seq<Part>
  {
    match b
    case TextBlock(text) => if text == "" then [] else [Part(TextPart, text, "", "", "", "", false)]
    case ToolCallBlock(id, name, target, input) =>
      if name == "" then [] else [Part(ToolPart, "", name, target, input, id, false)]
    case OtherBlock => []
  }

  function PartsOf(blocks: seq<Block>): seq<Part>
  {
    if blocks == [] then [] else BlockParts(blocks[0]) + PartsOf(blocks[1..])
  }

  lemma PartsStep(blocks: seq<Block>, i: nat)
    requires i < |blocks|
    ensures PartsOf(blocks[i..]) == BlockParts(blocks[i]) + PartsOf(blocks[i + 1..])
  {
    assert blocks[i..][1..] == blocks[i + 1..];
  }

  lemma NoParts(blocks: seq<Block>)
    requires blocks == []
    ensures PartsOf(blocks) == []
  {}

  lemma Regroup<T>(a: seq<T>, b: seq<T>, c: seq<T>)
    ensures a + (b + c) == a + b + c
  {}

  /** The assistant turn an assistant record is part of, with the record's model and blocks in it. */
  function Absorb(cur: Option<Turn>, rec: Record): Turn
    requires rec.AssistantMessage?
  {
    var t := if cur.Some? then cur.value else NewTurn(Assistant, "", rec.id, rec.ts, 0);
    var named := if rec.model != "" then t.(model := rec.model) else t;
    if rec.blocks.None? then named else named.(parts := named.parts + PartsOf(rec.blocks.value))
  }

  /** The last part whose tool call `callID` names, or -1. */
  function LastCall(parts: seq<Part>, callID: string): (i: int)
    ensures -1 <= i < |parts|
    ensures i >= 0 ==> parts[i].toolUseID == callID
    ensures forall j :: i < j < |parts| ==> parts[j].toolUseID != callID
  {
    if parts == [] then -1
    else if parts[|parts| - 1].toolUseID == callID then |parts| - 1
    else LastCall(parts[..|parts| - 1], callID)
  }

  /** A tool result fills in the call it answers; an orphaned one becomes a tool part. */
  function Answer(cur: Option<Turn>, rec: Record): Turn
    requires rec.ToolResult?
  {
    var t := if cur.Some? then cur.value else NewTurn(Assistant, "", "", rec.ts, 0);
    var i := LastCall(t.parts, rec.callID);
    var parts :=
      if i >= 0 then
        var p := t.parts[i];
        t.parts[i := p.(toolName := if p.toolName == "" then rec.toolName else p.toolName,
                        content := rec.content, toolError := rec.isError)]
      else t.parts + [Part(ToolPart, rec.content, rec.toolName, "", "", rec.callID, rec.isError)];
    Touch(t.(parts := parts), rec.ts)
  }

  /** A record that ends the open assistant turn by reporting that the response failed. */
  predicate Fails(rec: Record)
  {
    rec.AssistantMessage? && rec.blocks.Some? && rec.failure != ""
  }

  /** One line's effect: the assistant turn left open, and the turns the line completes. */
  function Feed(cur: Option<Turn>, rec: Record): (r: (Option<Turn>, seq<Turn>))
  {
    match rec
    case Compaction(id, ts) => (None, Flushed(cur) + [NewTurn(System, "Context compacted", id, ts, 0)])
    case CustomMessage(id, ts, display, text) =>
      if !display || text == "" then (cur, []) else (None, Flushed(cur) + [NewTurn(System, text, id, ts, 0)])
    case UserMessage(id, ts, text) =>
      (None, Flushed(cur) + if text != "" then [NewTurn(User, text, id, ts, ts)] else [])
    case AssistantMessage(id, ts, _, blocks, failure) =>
      var t := Absorb(cur, rec);
      if blocks.None? then (Some(t), [])
      else if failure != "" then (None, Flushed(Some(t)) + [NewTurn(Error, failure, id, ts, ts)])
      else (Some(Touch(t, ts)), [])
    case ToolResult(ts, _, _, _, _) => (Some(Answer(cur, rec)), [])
    case Other => (cur, [])
  }

  /** Every turn left open is an assistant turn, and says nothing but in its parts. */
  predicate Open(cur: Option<Turn>)
  {
    cur.Some? ==> cur.value.role == Assistant && cur.value.content == ""
  }

  /** What a line completes: at most the open assistant turn, then at most one turn of its own. */
  lemma FeedShape(cur: Option<Turn>, rec: Record)
    requires Open(cur)
    ensures var (cur', out) := Feed(cur, rec);
            && Open(cur')
            && (out != [] ==> cur'.None?)
            && |out| <= 2
            && (forall i :: 0 <= i < |out| ==> out[i].role == Assistant ==> i == 0)
            && (|out| == 2 ==> out[0].role == Assistant)
            && (forall i :: 0 <= i < |out| ==> out[i].role == User ==> i == |out| - 1 && rec.UserMessage? && rec.text != "")
  {}

  // --------------------------------------------------- what a record comes to

  /** What the text parts say, in order. */
  function TextsOf(parts: seq<Part>): seq<string>
  {
    if parts == [] then []
    else TextsOf(parts[..|parts| - 1]) + if parts[|parts| - 1].partType == TextPart then [parts[|parts| - 1].content] else []
  }

  function SpokenIn(b: Block): seq<string>
  {
    if b.TextBlock? && b.text != "" then [b.text] else []
  }

  /** The texts of a record that are not empty, in order. */
  function Spoken(blocks: seq<Block>): seq<string>
  {
    if blocks == [] then [] else Spoken(blocks[..|blocks| - 1]) + SpokenIn(blocks[|blocks| - 1])
  }

  datatype Call = Call(id: string, name: string, target: string, input: string)

  /** The calls the tool parts stand for, in order. */
  function CallsOf(parts: seq<Part>): seq<Call>
  {
    if parts == [] then []
    else
      var p := parts[|parts| - 1];
      CallsOf(parts[..|parts| - 1]) + if p.partType == ToolPart then [Call(p.toolUseID, p.toolName, p.toolTarget, p.toolInput)] else []
  }

  function CalledIn(b: Block): seq<Call>
  {
    if b.ToolCallBlock? && b.name != "" then [Call(b.id, b.name, b.target, b.input)] else []
  }

  /** The calls of a record that name a tool, in order. */
  function Called(blocks: seq<Block>): seq<Call>
  {
    if blocks == [] then [] else Called(blocks[..|blocks| - 1]) + CalledIn(blocks[|blocks| - 1])
  }

  lemma {:induction false} TextsConcat(a: seq<Part>, b: seq<Part>)
    ensures TextsOf(a + b) == TextsOf(a) + TextsOf(b) && CallsOf(a + b) == CallsOf(a) + CallsOf(b)
    decreases |b|
  {
    if b == [] {
      assert a + b == a;
    } else {
      assert (a + b)[..|a + b| - 1] == a + b[..|b| - 1];
      TextsConcat(a, b[..|b| - 1]);
    }
  }

  lemma {:induction false} PartsLast(blocks: seq<Block>)
    requires blocks != []
    ensures PartsOf(blocks) == PartsOf(blocks[..|blocks| - 1]) + BlockParts(blocks[|blocks| - 1])
  {
    hide BlockParts;
    if |blocks| > 1 {
      var tail := blocks[1..];
      PartsLast(tail);
      assert tail[..|tail| - 1] == blocks[..|blocks| - 1][1..];
    }
  }

  /** A tool part as a call leaves it, and a text part, carry nothing else. */
  predicate Plain(p: Part)
  {
    && !p.toolError
    && (p.partType == ToolPart ==> p.content == "")
    && (p.partType == TextPart ==> p.toolName == "" && p.toolTarget == "" && p.toolInput == "" && p.toolUseID == "")
  }

  /** The parts of a record say its texts that are not empty and make its calls that name a tool, in order. */
  lemma {:induction false} BlocksRead(blocks: seq<Block>)
    ensures TextsOf(PartsOf(blocks)) == Spoken(blocks) && CallsOf(PartsOf(blocks)) == Called(blocks)
    ensures forall i :: 0 <= i < |PartsOf(blocks)| ==> Plain(PartsOf(blocks)[i])
    decreases |blocks|
  {
    if blocks != [] {
      var k := |blocks| - 1;
      BlocksRead(blocks[..k]);
      PartsLast(blocks);
      TextsConcat(PartsOf(blocks[..k]), BlockParts(blocks[k]));
      OneBlock(blocks[k]);
    }
  }

  lemma OneBlock(b: Block)
    ensures TextsOf(BlockParts(b)) == SpokenIn(b) && CallsOf(BlockParts(b)) == CalledIn(b)
    ensures forall i :: 0 <= i < |BlockParts(b)| ==> Plain(BlockParts(b)[i])
  {}

  function PartsIn(cur: Option<Turn>): seq<Part>
  {
    if cur.Some? then cur.value.parts else []
  }

  /** The assistant turn a record belongs to: the one open, or one it opens under its id at its time. */
  predicate Continues(cur: Option<Turn>, t: Turn, id: string, ts: int)
  {
    && t.role == Assistant && t.content == ""
    && t.uuid == (if cur.Some? then cur.value.uuid else id) && t.time == (if cur.Some? then cur.value.time else ts)
  }

  /** The parts gained say and call what the blocks do, after those there were. */
  ghost predicate Gains(was: seq<Part>, now: seq<Part>, blocks: seq<Block>)
  {
    && was <= now && TextsOf(now) == TextsOf(was) + Spoken(blocks) && CallsOf(now) == CallsOf(was) + Called(blocks)
  }

  /**
   An assistant record: its turn gains its texts and calls, takes its model, and
   ends at its time; one that failed ends that turn, if it holds anything, and
   adds an error turn of its own.
   */
  lemma AssistantFed(cur: Option<Turn>, rec: Record)
    requires rec.AssistantMessage? && Open(cur)
    ensures var (next, out) := Feed(cur, rec);
            var blocks := if rec.blocks.Some? then rec.blocks.value else [];
            if rec.blocks.None? || rec.failure == "" then
              && out == [] && next.Some? && Continues(cur, next.value, rec.id, rec.ts)
              && Gains(PartsIn(cur), next.value.parts, blocks)
              && (rec.model != "" ==> next.value.model == rec.model)
              && (rec.model == "" && cur.Some? ==> next.value.model == cur.value.model)
              && next.value.endTime == (if rec.blocks.Some? && rec.ts != 0 then rec.ts else if cur.Some? then cur.value.endTime else 0)
            else
              && next == None && 1 <= |out| <= 2
              && out[|out| - 1] == Turn(Error, rec.failure, rec.id, rec.ts, rec.ts, "", [])
              && (|out| == 2 <==> PartsIn(cur) != [] || Spoken(blocks) != [] || Called(blocks) != [])
              && (|out| == 2 ==> Continues(cur, out[0], rec.id, rec.ts) && Gains(PartsIn(cur), out[0].parts, blocks))
  {
    AbsorbGains(cur, rec);
    var t := Absorb(cur, rec);
    SomethingSaid(t.parts);
    SomethingSaid(PartsIn(cur));
    hide Absorb, TextsOf, CallsOf, Spoken, Called;
  }

  lemma AbsorbGains(cur: Option<Turn>, rec: Record)
    requires rec.AssistantMessage? && Open(cur)
    ensures var t := Absorb(cur, rec);
            && Continues(cur, t, rec.id, rec.ts)
            && Gains(PartsIn(cur), t.parts, if rec.blocks.Some? then rec.blocks.value else [])
            && (rec.model != "" ==> t.model == rec.model)
            && (rec.model == "" && cur.Some? ==> t.model == cur.value.model)
            && t.endTime == if cur.Some? then cur.value.endTime else 0
  {
    hide PartsOf, TextsOf, CallsOf;
    var blocks := if rec.blocks.Some? then rec.blocks.value else [];
    BlocksRead(blocks);
    NoParts([]);
    TextsConcat(PartsIn(cur), PartsOf(blocks));
    assert PartsIn(cur) + [] == PartsIn(cur);
    assert PartsIn(cur) + PartsOf(blocks) == Absorb(cur, rec).parts;
  }

  /** Every part says something or calls something. */
  lemma SomethingSaid(parts: seq<Part>)
    ensures parts != [] <==> TextsOf(parts) != [] || CallsOf(parts) != []
  {}

  /** The last part under a call's id, if there is one. */
  ghost predicate Answers(parts: seq<Part>, i: nat, callID: string)
  {
    i < |parts| && parts[i].toolUseID == callID && forall j :: i < j < |parts| ==> parts[j].toolUseID != callID
  }

  /**
   A tool result sets the content and the error flag of the last part under its
   call's id, and the tool's name if that had none, and no other; when there is
   none it adds a part of its own.
   */
  lemma ResultFed(cur: Option<Turn>, rec: Record)
    requires rec.ToolResult? && Open(cur)
    ensures var (next, out) := Feed(cur, rec);
            && out == [] && next.Some? && Continues(cur, next.value, "", rec.ts)
            && next.value.endTime == (if rec.ts != 0 then rec.ts else if cur.Some? then cur.value.endTime else 0)
            && (cur.Some? ==> next.value.model == cur.value.model)
            && (forall i: nat :: Answers(PartsIn(cur), i, rec.callID) ==>
                  var was := PartsIn(cur)[i];
                  next.value.parts == PartsIn(cur)[i := Part(was.partType, rec.content,
                                                             if was.toolName == "" then rec.toolName else was.toolName,
                                                             was.toolTarget, was.toolInput, rec.callID, rec.isError)])
            && ((forall i :: 0 <= i < |PartsIn(cur)| ==> PartsIn(cur)[i].toolUseID != rec.callID) ==>
                  next.value.parts == PartsIn(cur) + [Part(ToolPart, rec.content, rec.toolName, "", "", rec.callID, rec.isError)])
  {
    var parts := PartsIn(cur);
    var k := LastCall(parts, rec.callID);
    assert forall i: nat :: Answers(parts, i, rec.callID) ==> i == k;
  }

  /** The turn a record is by itself: what its user asked, what was told, or how a response failed. */
  function OwnTurn(rec: Record): seq<Turn>
  {
    match rec
    case Compaction(id, ts) => [Turn(System, "Context compacted", id, ts, 0, "", [])]
    case CustomMessage(id, ts, display, text) => if display && text != "" then [Turn(System, text, id, ts, 0, "", [])] else []
    case UserMessage(id, ts, text) => if text != "" then [Turn(User, text, id, ts, ts, "", [])] else []
    case AssistantMessage(id, ts, _, blocks, failure) =>
      if blocks.Some? && failure != "" then [Turn(Error, failure, id, ts, ts, "", [])] else []
    case _ => []
  }

  /** A record completes the turn it is by itself, after the open one if that holds anything; any that is neither leaves it open. */
  lemma OwnFed(cur: Option<Turn>, rec: Record)
    requires Open(cur)
    ensures var (next, out) := Feed(cur, rec);
            && |OwnTurn(rec)| <= |out| && out[|out| - |OwnTurn(rec)|..] == OwnTurn(rec)
            && (forall i :: 0 <= i < |out| - |OwnTurn(rec)| ==> out[i].role == Assistant)
            && (OwnTurn(rec) != [] || rec.UserMessage? ==> next == None)
            && (OwnTurn(rec) == [] && !rec.UserMessage? ==> out == [])
            && (!rec.AssistantMessage? && (OwnTurn(rec) != [] || rec.UserMessage?) ==>
                  out == (if PartsIn(cur) != [] then [cur.value] else []) + OwnTurn(rec))
            && (!rec.AssistantMessage? && !rec.ToolResult? && OwnTurn(rec) == [] && !rec.UserMessage? ==> next == cur)
  {
    OwnAfter(cur, rec);
    hide Feed, OwnTurn, Flushed;
    var ahead := if rec.AssistantMessage? then Flushed(Some(Absorb(cur, rec))) else Flushed(cur);
    Ending(ahead, OwnTurn(rec));
  }

  lemma Ending(a: seq<Turn>, b: seq<Turn>)
    ensures (a + b)[|a|..] == b && forall i :: 0 <= i < |a| ==> (a + b)[i] == a[i]
  {}

  lemma OwnAfter(cur: Option<Turn>, rec: Record)
    requires Open(cur)
    ensures var (next, out) := Feed(cur, rec);
            var ahead := if rec.AssistantMessage? then Flushed(Some(Absorb(cur, rec))) else Flushed(cur);
            && (forall i :: 0 <= i < |ahead| ==> ahead[i].role == Assistant)
            && Flushed(cur) == (if PartsIn(cur) != [] then [cur.value] else [])
            && (OwnTurn(rec) != [] || rec.UserMessage? ==> next == None && out == ahead + OwnTurn(rec))
            && (OwnTurn(rec) == [] && !rec.UserMessage? ==> out == [])
            && (!rec.AssistantMessage? && !rec.ToolResult? && OwnTurn(rec) == [] && !rec.UserMessage? ==> next == cur)
  {
    hide PartsOf, Answer, Touch;
  }

  class Assembler {
    var cur: Option<Turn>
    var model: string

    constructor ()
      ensures cur == None && model == ""
    {
      cur, model := None, "";
    }

    method Flush() returns (t: Option<Turn>)
      modifies this
      ensures cur == None && model == old(model)
      ensures (if t.Some? then [t.value] else []) == Flushed(old(cur))
    {
      t := cur;
      cur := None;
      if t.Some? && |t.value.parts| == 0 {
        t := None;
      }
    }

    /** Appends an assistant record's blocks to the open turn, one by one. */
    method AddBlocks(blocks: seq<Block>) returns (parts: seq<Part>)
      requires cur.Some?
      modifies this`cur
      ensures parts == PartsOf(blocks)
      ensures cur == Some(old(cur).value.(parts := old(cur).value.parts + parts))
    {
      hide PartsOf, BlockParts;
      parts := [];
      var i := 0;
      assert cur.value.parts + [] == cur.value.parts;
      assert blocks[0..] == blocks;
      while i < |blocks|
        invariant i <= |blocks|
        invariant parts + PartsOf(blocks[i..]) == PartsOf(blocks)
        invariant cur == Some(old(cur).value.(parts := old(cur).value.parts + parts))
      {
        var added := BlockParts(blocks[i]);
        cur := Some(cur.value.(parts := cur.value.parts + added));
        PartsStep(blocks, i);
        Regroup(old(cur).value.parts, parts, added);
        Regroup(parts, added, PartsOf(blocks[i + 1..]));
        parts := parts + added;
        i := i + 1;
      }
      NoParts(blocks[i..]);
      assert parts + [] == parts;
    }

    /** Scans the open turn's parts from the last for the call a result answers. */
    method AddResult(rec: Record) returns (p: Part)
      requires rec.ToolResult?
      modifies this`cur
      ensures cur == Some(Answer(old(cur), rec))
      ensures p in cur.value.parts && p.content == rec.content && p.toolUseID == rec.callID && p.toolError == rec.isError
    {
      if cur == None {
        cur := Some(NewTurn(Assistant, "", "", rec.ts, 0));
      }
      var t := cur.value;
      var i := |t.parts| - 1;
      while i >= 0
        invariant -1 <= i < |t.parts|
        invariant cur == Some(t)
        invariant forall j :: i < j < |t.parts| ==> t.parts[j].toolUseID != rec.callID
      {
        if t.parts[i].toolUseID == rec.callID {
          p := t.parts[i];
          p := p.(toolName := if p.toolName == "" then rec.toolName else p.toolName,
                  content := rec.content, toolError := rec.isError);
          cur := Some(Touch(t.(parts := t.parts[i := p]), rec.ts));
          assert cur.value.parts[i] == p;
          return;
        }
        i := i - 1;
      }
      p := Part(ToolPart, rec.content, rec.toolName, "", "", rec.callID, rec.isError);
      cur := Some(Touch(t.(parts := t.parts + [p]), rec.ts));
      assert cur.value.parts[|t.parts|] == p;
    }

    /** The turns the record completes, and the parts it adds or fills in, as streamed live. */
    method FeedLineParts(rec: Record) returns (completed: seq<Turn>, parts: seq<Part>)
      modifies this
      ensures (cur, completed) == Feed(old(cur), rec)
      ensures model == if rec.AssistantMessage? && rec.model != "" then rec.model else old(model)
      ensures rec.AssistantMessage? && rec.blocks.Some? ==>
                parts == PartsOf(rec.blocks.value) && TextsOf(parts) == Spoken(rec.blocks.value) && CallsOf(parts) == Called(rec.blocks.value)
      ensures rec.ToolResult? ==> |parts| == 1 && parts[0] in cur.value.parts
      ensures rec.ToolResult? ==> parts[0].content == rec.content && parts[0].toolUseID == rec.callID && parts[0].toolError == rec.isError
    {
      hide TextsOf, CallsOf, Spoken, Called;
      completed, parts := [], [];
      assert Flushed(cur) + [] == Flushed(cur);
      match rec
      case Compaction(id, ts) =>
        var t := Flush();
        completed := (if t.Some? then [t.value] else []) + [NewTurn(System, "Context compacted", id, ts, 0)];
      case CustomMessage(id, ts, display, text) =>
        if display && text != "" {
          var t := Flush();
          completed := (if t.Some? then [t.value] else []) + [NewTurn(System, text, id, ts, 0)];
        }
      case UserMessage(id, ts, text) =>
        var t := Flush();
        completed := if t.Some? then [t.value] else [];
        if text != "" {
          completed := completed + [NewTurn(User, text, id, ts, ts)];
        }
      case AssistantMessage(id, ts, name, blocks, failure) =>
        if cur == None {
          cur := Some(NewTurn(Assistant, "", id, ts, 0));
        }
        if name != "" {
          model := name;
          cur := Some(cur.value.(model := name));
        }
        if blocks.None? {
          return;
        }
        parts := AddBlocks(blocks.value);
        BlocksRead(blocks.value);
        assert cur == Some(Absorb(old(cur), rec));
        if failure != "" {
          var t := Flush();
          completed := (if t.Some? then [t.value] else []) + [NewTurn(Error, failure, id, ts, ts)];
        } else {
          cur := Some(Touch(cur.value, ts));
        }
      case ToolResult(_, _, _, _, _) =>
        var p := AddResult(rec);
        parts := [p];
      case Other =>
    }
  }
}
