/**
 What a router session is told of the turns it dispatched: notes queued as they
 land, folded in front of its next prompt, and stripped from it again for show.
 */
module Relay {
  import opened Options
  import opened Text

  const MAX_QUEUED := 32
  const EXCERPT := 600
  const END := "[end of session replies; the user has already seen them]"
  const SHORT_END := "[end of session replies]"
  const MARK := "[session "
  const BREAK := "\n\n"

  datatype Note = Note(sessionID: string, reply: string, failure: Option<string>)

  /** `relayNoteText` */
  function NoteText(note: Note): (s: string)
    ensures MARK <= s
  {
    if note.failure.Some? then MARK + note.sessionID + " failed] " + note.failure.value
    else
      var reply := Trim(note.reply);
      MARK + note.sessionID + (
        if reply == "" then " replied] (empty reply)"
        else if |reply| > EXCERPT then " replied] " + reply[..EXCERPT] + "\n[\U{2026} truncated; read_session_transcript for the rest]"
        else " replied] " + reply)
  }

  /**
   A note names its session and tells the failure, or the reply without the space
   around it: that there was none, all of it, or its first 600 characters and that
   it was cut.
   */
  lemma NoteIs(note: Note, reply: string)
    requires reply == Trim(note.reply)
    ensures note.failure.Some? ==> NoteText(note) == "[session " + note.sessionID + " failed] " + note.failure.value
    ensures note.failure.None? && reply == "" ==> NoteText(note) == "[session " + note.sessionID + " replied] (empty reply)"
    ensures note.failure.None? && 0 < |reply| <= 600 ==> NoteText(note) == "[session " + note.sessionID + " replied] " + reply
    ensures note.failure.None? && |reply| > 600 ==>
              var cut := "\n[\U{2026} truncated; read_session_transcript for the rest]";
              NoteText(note) == "[session " + note.sessionID + " replied] " + reply[..600] + cut
  {
    hide Trim;
    var head := MARK + note.sessionID;
    if note.failure.None? && |reply| > 600 {
      var cut := "\n[\U{2026} truncated; read_session_transcript for the rest]";
      Regrouped(head, " replied] ", reply[..600], cut);
    } else if note.failure.None? {
      Regrouped(head, " replied] ", reply, []);
    }
  }

  lemma Regrouped(a: string, b: string, c: string, d: string)
    ensures a + (b + c + d) == a + b + c + d && a + (b + c) == a + b + c
  {}

  /** The notes, each followed by a blank line. */
  function Body(notes: seq<Note>): string
  {
    if notes == [] then "" else Body(notes[..|notes| - 1]) + NoteText(notes[|notes| - 1]) + BREAK
  }

  function Folded(notes: seq<Note>, text: string): string
  {
    if notes == [] then text else Body(notes) + END + BREAK + text
  }

  predicate At(s: string, w: string, i: nat)
  {
    i + |w| <= |s| && s[i..i + |w|] == w
  }

  ghost predicate Contains(s: string, w: string)
  {
    exists i: nat :: At(s, w, i)
  }

  /** The first place `w` occurs from `from` on, or the length and more when there is none. */
  function Find(s: string, w: string, from: nat): (i: nat)
    requires from <= |s|
    ensures from <= i && (forall j: nat :: from <= j < i ==> !At(s, w, j))
    ensures At(s, w, i) || (i > |s| && forall j: nat :: from <= j ==> !At(s, w, j))
    decreases |s| - from
  {
    if At(s, w, from) then from else if from == |s| then |s| + 1 else Find(s, w, from + 1)
  }

  /** What follows the first occurrence (`strings.Cut`). */
  function After(s: string, w: string): (r: Option<string>)
    ensures r.Some? <==> Contains(s, w)
    ensures r.Some? ==> |r.value| + |w| <= |s|
  {
    var i := Find(s, w, 0);
    if i <= |s| then
      assert At(s, w, i);
      Some(s[i + |w|..])
    else None
  }

  function Separator(end: string): string
  {
    BREAK + end + BREAK
  }

  /** `stripRelayNotes` */
  function Strip(prompt: string): string
  {
    if !(MARK <= prompt) then prompt
    else
      var long := After(prompt, Separator(END));
      if long.Some? then long.value
      else
        var short := After(prompt, Separator(SHORT_END));
        if short.Some? then short.value else prompt
  }

  class Router {
    var relayIn: map<string, seq<Note>>

    constructor ()
      ensures relayIn == map[]
    {
      relayIn := map[];
    }

    function Queue(id: string): seq<Note>
      reads this
    {
      if id in relayIn then relayIn[id] else []
    }

    /** `queueRelay` */
    method QueueRelay(routerID: string, note: Note)
      modifies this
      ensures relayIn == if routerID == "" then old(relayIn) else old(relayIn)[routerID := Newest(old(Queue(routerID)) + [note])]
    {
      if routerID == "" {
        return;
      }
      var notes := Queue(routerID) + [note];
      if |notes| > MAX_QUEUED {
        notes := notes[|notes| - MAX_QUEUED..];
      }
      relayIn := relayIn[routerID := notes];
    }

    /** `foldRelays` */
    method FoldRelays(id: string, text: string) returns (prompt: string)
      modifies this
      ensures prompt == Folded(old(Queue(id)), text) && relayIn == old(relayIn) - {id}
    {
      hide NoteText, Body;
      var notes := Queue(id);
      relayIn := relayIn - {id};
      if |notes| == 0 {
        return text;
      }
      prompt := "";
      NoBody();
      for i := 0 to |notes|
        invariant prompt == Body(notes[..i]) && relayIn == old(relayIn) - {id}
      {
        BodyNext(notes, i);
        prompt := prompt + NoteText(notes[i]) + BREAK;
      }
      assert notes[..|notes|] == notes;
      prompt := prompt + END + BREAK + text;
    }
  }

  lemma NoBody()
    ensures Body([]) == ""
  {}

  lemma BodyNext(notes: seq<Note>, i: nat)
    requires i < |notes|
    ensures Body(notes[..i + 1]) == Body(notes[..i]) + NoteText(notes[i]) + BREAK
  {
    hide NoteText;
    assert notes[..i + 1][..i] == notes[..i];
  }

  // ------------------------------------------------------ the newest notes

  function Newest<T>(s: seq<T>): seq<T>
  {
    if |s| > MAX_QUEUED then s[|s| - MAX_QUEUED..] else s
  }

  function Landed<T>(s: seq<T>): seq<T>
  {
    if s == [] then [] else Newest(Landed(s[..|s| - 1]) + [s[|s| - 1]])
  }

  /** However many notes land, the queue holds the newest of them, 32 at most. */
  lemma {:induction false} HoldsNewest<T>(s: seq<T>)
    ensures Landed(s) == if |s| > 32 then s[|s| - 32..] else s
  {
    if s != [] {
      HoldsNewest(s[..|s| - 1]);
      assert s == s[..|s| - 1] + [s[|s| - 1]];
    }
  }

  // ------------------------------------------------- folding and stripping

  /** A word without the character cannot lie across it. */
  lemma NotAcross(s: string, c: char, t: string, w: string, i: nat)
    requires c !in w && At(s + [c] + t, w, i) && w != []
    ensures At(s, w, i) || (i > |s| && At(t, w, i - |s| - 1))
  {
    var all := s + [c] + t;
    assert forall k :: i <= k < i + |w| ==> all[k] == all[i..i + |w|][k - i] && all[k] in w;
    assert all[|s|] == c;
    assert i + |w| <= |s| ==> s[i..i + |w|] == all[i..i + |w|];
    assert i > |s| ==> t[i - |s| - 1..i - |s| - 1 + |w|] == all[i..i + |w|];
  }

  lemma EndIsOneLine()
    ensures '\n' !in END && END != []
  {
    assert '\n' !in "[end of session " && '\n' !in "replies; the user ";
    assert '\n' !in "has already seen " && '\n' !in "them]";
  }

  /** A separator holds the end line. */
  lemma InSeparator(s: string, end: string, i: nat)
    ensures At(s, Separator(end), i) ==> At(s, end, i + 2)
  {
    var w := Separator(end);
    assert w[2..2 + |end|] == end;
    if At(s, w, i) {
      assert s[i + 2..i + 2 + |end|] == s[i..i + |w|][2..2 + |end|];
    }
  }

  /** Where the end marker occurs in folded notes: inside one, or where it was put. */
  lemma EndPlaces(body: string, text: string, i: nat)
    requires At(body + BREAK + END + BREAK + text, END, i) && i < |body| + 2
    ensures At(body, END, i)
  {
    EndIsOneLine();
    var rest := END + BREAK + text;
    assert body + BREAK + END + BREAK + text == (body + ['\n']) + ['\n'] + rest;
    NotAcross(body + ['\n'], '\n', rest, END, i);
    assert body + ['\n'] == body + ['\n'] + [];
    NotAcross(body, '\n', [], END, i);
  }

  /**
   Folded notes strip to the typed text exactly when the separator does not
   already occur among the notes.
   */
  lemma StripOfFold(notes: seq<Note>, text: string)
    requires notes != []
    ensures Strip(Folded(notes, text)) == text <==> !Contains(Body(notes), Separator(END))
  {
    hide NoteText, Find, At, Contains, After, Separator, Body;
    var body := BodyText(notes);
    MarkFirst(notes, text);
    FoldedIs(notes, text);
    if Contains(body + BREAK, Separator(END)) {
      CutEarly(body, text);
    } else {
      CutThere(body, text);
    }
  }

  /** The notes without the blank line that closes the last. */
  ghost function BodyText(notes: seq<Note>): string
    requires notes != []
  {
    Body(notes[..|notes| - 1]) + NoteText(notes[|notes| - 1])
  }

  lemma FoldedIs(notes: seq<Note>, text: string)
    requires notes != []
    ensures Body(notes) == BodyText(notes) + BREAK && Folded(notes, text) == BodyText(notes) + Separator(END) + text
  {
    hide NoteText, Separator;
    Regroup(BodyText(notes), END, text);
  }

  lemma Regroup(body: string, end: string, text: string)
    ensures body + BREAK + end + BREAK + text == body + Separator(end) + text
  {}

  /** The first occurrence is where the marker was put. */
  lemma CutThere(body: string, text: string)
    requires !Contains(body + BREAK, Separator(END))
    ensures After(body + Separator(END) + text, Separator(END)) == Some(text)
  {
    var w := Separator(END);
    var all := body + w + text;
    assert all[|body|..|body| + |w|] == w;
    assert At(all, w, |body|);
    var i := Find(all, w, 0);
    if i < |body| { EarlySeparator(body, text, i); }
    assert all[|body| + |w|..] == text;
  }

  /** The first occurrence is an earlier one, and leaves more than the typed text. */
  lemma CutEarly(body: string, text: string)
    requires Contains(body + BREAK, Separator(END))
    ensures var r := After(body + Separator(END) + text, Separator(END)); r.Some? && |r.value| > |text|
  {
    var w := Separator(END);
    var j: nat :| At(body + BREAK, w, j);
    SeparatorEarly(body, text, j);
    assert Find(body + w + text, w, 0) <= j;
  }

  /** An occurrence among the notes is one in the prompt, before the one put there. */
  lemma SeparatorEarly(body: string, text: string, j: nat)
    ensures At(body + BREAK, Separator(END), j) ==> j < |body| && At(body + Separator(END) + text, Separator(END), j)
  {
    var w := Separator(END);
    if At(body + BREAK, w, j) {
      assert (body + w + text)[j..j + |w|] == (body + BREAK)[j..j + |w|];
    }
  }

  lemma EarlySeparator(body: string, text: string, i: nat)
    requires At(body + Separator(END) + text, Separator(END), i) && i < |body|
    ensures At(body + BREAK, Separator(END), i)
  {
    var w := Separator(END);
    var all := body + w + text;
    Regroup(body, END, text);
    InSeparator(all, END, i);
    EndPlaces(body, text, i + 2);
    assert all[i..i + |w|] == (body + BREAK)[i..i + |w|];
  }

  lemma {:induction false} MarkFirst(notes: seq<Note>, text: string)
    requires notes != []
    ensures MARK <= Body(notes) && MARK <= Folded(notes, text)
  {
    hide NoteText;
    if |notes| > 1 {
      MarkFirst(notes[..|notes| - 1], text);
    }
  }

  /** Notes that never hold the end marker never hold the separator: what was typed always comes back. */
  lemma StripOfCleanFold(notes: seq<Note>, text: string)
    requires forall k :: 0 <= k < |notes| ==> !Contains(NoteText(notes[k]), END)
    ensures notes != [] ==> Strip(Folded(notes, text)) == text
  {
    hide NoteText, Strip, Separator, Body, At;
    if notes != [] {
      StripOfFold(notes, text);
      forall i: nat ensures !At(Body(notes), Separator(END), i) {
        InSeparator(Body(notes), END, i);
        CleanBody(notes, i + 2);
      }
    }
  }

  lemma {:induction false} CleanBody(notes: seq<Note>, i: nat)
    requires forall k :: 0 <= k < |notes| ==> !Contains(NoteText(notes[k]), END)
    ensures !At(Body(notes), END, i)
  {
    hide NoteText;
    EndIsOneLine();
    if notes != [] && At(Body(notes), END, i) {
      var k := |notes| - 1;
      var head, note := Body(notes[..k]), NoteText(notes[k]);
      assert Body(notes) == head + note + ['\n'] + ['\n'];
      NotAcross(head + note, '\n', ['\n'], END, i);
      CleanBody(notes[..k], i);
      assert !Contains(note, END);
      NotAcrossNotes(notes[..k], note, i);
    }
  }

  lemma NotAcrossNotes(notes: seq<Note>, note: string, i: nat)
    requires At(Body(notes) + note, END, i)
    ensures At(Body(notes), END, i) || Contains(note, END)
  {
    hide NoteText;
    EndIsOneLine();
    if notes == [] {
      assert Body(notes) + note == note;
    } else {
      var k := |notes| - 1;
      var head := Body(notes[..k]) + NoteText(notes[k]) + ['\n'];
      assert Body(notes) == head + ['\n'];
      NotAcross(head, '\n', note, END, i);
      if At(head, END, i) { assert At(Body(notes), END, i) by { assert Body(notes)[i..i + |END|] == head[i..i + |END|]; } }
    }
  }

  /** A prompt nothing was folded into is shown as it is, unless it opens and is separated as folded notes are. */
  lemma StripTyped(text: string)
    ensures Strip(text) == text <==> !(MARK <= text && (Contains(text, Separator(END)) || Contains(text, Separator(SHORT_END))))
  {}
}
