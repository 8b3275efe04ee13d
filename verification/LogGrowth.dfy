/**
 A log that grows by whole lines: when its transcript only gets longer, and what
 that leaves of the turns and cursors a client already has.
 */
module LogGrowth {
  import opened Lines
  import opened PiTranscript
  import opened Branch
  import opened TurnSpans
  import opened TurnCuts
  import opened PiLog

  function Grown(log: Log, more: Bytes): Log
  {
    log.(data := log.data + more)
  }

  /** The entries of the lines appended. */
  function Added(log: Log, more: Bytes): seq<Node>
  {
    Entries(Grown(log, more), |log.data|, |log.data + more|)
  }

  /** What is appended hangs, at its own root, off the entry the log ended with. */
  predicate HangsOn(log: Log, more: Bytes)
  {
    Wanted(Added(log, more), LastId(AllEntries(Grown(log, more)))) == LastId(AllEntries(log))
  }

  lemma DecodeSame(a: Log, b: Log, raw: seq<Line<Bytes>>)
    requires a.decode == b.decode
    ensures Decode(a, raw) == Decode(b, raw)
  {}

  lemma EntriesGrow(log: Log, more: Bytes)
    requires StartsLine(log.data, |log.data|)
    ensures AllEntries(Grown(log, more)) == AllEntries(log) + Added(log, more)
  {
    hide LinesIn, Decode;
    var old_, new_ := LinesIn(log.data, 0, |log.data|), LinesIn(log.data + more, |log.data|, |log.data + more|);
    LinesAppend(log.data, more, 0);
    DecodeConcat(Grown(log, more), old_, new_);
    DecodeSame(log, Grown(log, more), old_);
  }

  /** The grown log's branch: the part of it that is in the log as it was, and the part of it that is appended. */
  lemma BranchParts(log: Log, more: Bytes)
    requires StartsLine(log.data, |log.data|)
    ensures var leaf := LastId(AllEntries(Grown(log, more)));
            Transcript(ActiveBranch, Grown(log, more))
            == Values(Trace(AllEntries(log), Wanted(Added(log, more), leaf))) + Values(Trace(Added(log, more), leaf))
  {
    hide Entries, Trace, Wanted, LastId;
    EntriesGrow(log, more);
    TraceSplit(AllEntries(log), Added(log, more), LastId(AllEntries(Grown(log, more))));
  }

  lemma {:induction false} NoIdPast<T(!new)>(entries: seq<Entry<T>>, q: nat)
    requires Tree(entries) && q < |entries| && entries[q].id == LastId(entries) != ""
    ensures forall p :: q < p < |entries| ==> entries[p].id == ""
    decreases |entries|
  {
    var k := |entries| - 1;
    if entries[k].id == "" {
      NoIdPast(entries[..k], q);
    }
  }

  /** A branch that holds the branch to the last entry ends with it: nothing in the log hangs off that entry. */
  lemma BranchToLast(entries: seq<Node>, w: string, n: nat, hi: int)
    requires InOrder(entries, 0, hi) && Tree(entries)
    requires var t, u := Trace(entries, LastId(entries)), Trace(entries, w);
             0 < n == |t| <= |u| && t[n - 1].value.off == u[n - 1].value.off
    ensures w == LastId(entries)
  {
    hide Trace, Wanted, LastId;
    var t, u := Trace(entries, LastId(entries)), Trace(entries, w);
    TraceIn(entries, LastId(entries));
    TraceIn(entries, w);
    TraceLinked(entries, LastId(entries));
    TraceLinked(entries, w);
    SameEntry(entries, t[n - 1], u[n - 1], hi);
    if n < |u| {
      TraceInOrder(entries, w, 0, hi);
      assert u[n - 1] in entries && u[n] in entries;
      NothingAfter(entries, u[n - 1], u[n], hi);
      assert false;
    }
  }

  lemma SameEntry(entries: seq<Node>, a: Node, b: Node, hi: int)
    requires InOrder(entries, 0, hi) && a in entries && b in entries && a.value.off == b.value.off
    ensures a == b
  {
    var i :| 0 <= i < |entries| && entries[i] == a;
    var j :| 0 <= j < |entries| && entries[j] == b;
    assert i == j;
  }

  /** Nothing past the last entry that has an id has one. */
  lemma NothingAfter(entries: seq<Node>, a: Node, b: Node, hi: int)
    requires InOrder(entries, 0, hi) && Tree(entries)
    requires a in entries && b in entries && a.id == LastId(entries) != "" && a.value.off < b.value.off
    ensures b.id == ""
  {
    var i :| 0 <= i < |entries| && entries[i] == a;
    var j :| 0 <= j < |entries| && entries[j] == b;
    NoIdPast(entries, i);
  }

  lemma PrefixWithin(t: seq<Line<Record>>, u: seq<Line<Record>>, v: seq<Line<Record>>, size: int)
    requires t <= u + v
    requires forall i :: 0 <= i < |t| ==> t[i].off < size
    requires forall i :: 0 <= i < |v| ==> v[i].off >= size
    ensures |t| <= |u| && t == u[..|t|]
  {
    if |u| < |t| {
      PastIt(t, u, v);
      assert false;
    }
    assert forall i :: 0 <= i < |t| ==> t[i] == (u + v)[i];
  }

  lemma PastIt(t: seq<Line<Record>>, u: seq<Line<Record>>, v: seq<Line<Record>>)
    requires t <= u + v && |u| < |t|
    ensures v != [] && t[|u|] == v[0]
  {
    assert t[|u|] == (u + v)[|u|];
  }

  /**
   A branching log's transcript is kept and only added to if and only if what is
   appended hangs on the entry the log ended with.
   */
  lemma BranchKeptExactly(log: Log, more: Bytes)
    requires StartsLine(log.data, |log.data|) && WellFormed(ActiveBranch, Grown(log, more))
    requires Transcript(ActiveBranch, log) != []
    ensures Transcript(ActiveBranch, log) <= Transcript(ActiveBranch, Grown(log, more)) <==> HangsOn(log, more)
  {
    hide Entries, Trace, Wanted, LastId;
    BranchParts(log, more);
    EntriesGrow(log, more);
    var entries, leaf := AllEntries(log), LastId(AllEntries(Grown(log, more)));
    var w := Wanted(Added(log, more), leaf);
    if Transcript(ActiveBranch, log) <= Transcript(ActiveBranch, Grown(log, more)) {
      var size := |log.data|;
      EntriesInOrder(log, 0, size);
      EntriesInOrder(Grown(log, more), size, |log.data + more|);
      TraceInOrder(entries, LastId(entries), 0, size);
      TraceInOrder(Added(log, more), leaf, size, |log.data + more|);
      PrefixWithin(Transcript(ActiveBranch, log), Values(Trace(entries, w)), Values(Trace(Added(log, more), leaf)), size);
      TreeStart(entries, Added(log, more));
      SameLast(entries, w, size);
    }
  }

  lemma TreeStart<T(!new)>(a: seq<Entry<T>>, b: seq<Entry<T>>)
    requires Tree(a + b)
    ensures Tree(a)
  {
    assert forall i :: 0 <= i < |a| ==> a[i] == (a + b)[i];
  }

  lemma SameLast(entries: seq<Node>, w: string, hi: int)
    requires InOrder(entries, 0, hi) && Tree(entries)
    requires var t, u := Values(Trace(entries, LastId(entries))), Values(Trace(entries, w)); 0 < |t| <= |u| && t == u[..|t|]
    ensures w == LastId(entries)
  {
    hide Trace, LastId;
    var n := |Trace(entries, LastId(entries))|;
    assert Values(Trace(entries, LastId(entries)))[n - 1] == Values(Trace(entries, w))[n - 1];
    BranchToLast(entries, w, n, hi);
  }

  /**
   A log that ends its last line may grow, a branching one along its branch: no
   turn but the last changes, that one at most gains parts, and every cursor
   names the turn it did.
   */
  lemma LogGrows(source: Source, log: Log, more: Bytes)
    requires StartsLine(log.data, |log.data|) && (source == ActiveBranch ==> HangsOn(log, more))
    ensures Transcript(source, log) <= Transcript(source, Grown(log, more))
    ensures var was, now := Whole(Transcript(source, log)), Whole(Transcript(source, Grown(log, more)));
            && |was| <= |now|
            && (forall i :: 0 <= i < |was| ==> now[i].pos == was[i].pos && SameTurn(was[i].turn, now[i].turn))
            && (forall i :: 0 <= i < |was| - 1 ==> now[i] == was[i])
  {
    hide Whole, Entries, Trace, Wanted, LastId;
    EntriesGrow(log, more);
    BranchParts(log, more);
    var added := if source == EveryLine then Added(log, more) else Trace(Added(log, more), LastId(AllEntries(Grown(log, more))));
    assert Transcript(source, Grown(log, more)) == Transcript(source, log) + Values(added);
    TranscriptInOrder(source, Grown(log, more));
    Growth(Transcript(source, log), Values(added));
  }

  // ----------------------------------------------------- a branch that moves

  /** Three user messages, one to a line: a root, and two that hang off it. */
  const BRANCHED := Log([65, 10, 66, 10], raw =>
    if raw == [65, 10] then Decoded("a", "", UserMessage("a", 0, "a"))
    else if raw == [66, 10] then Decoded("b", "a", UserMessage("b", 0, "b"))
    else Decoded("c", "a", UserMessage("c", 0, "c")))

  lemma TwoBytes(data: Bytes, from: nat)
    requires from + 2 <= |data| && data[from] != NEWLINE && data[from + 1] == NEWLINE
    ensures LineEnd(data, from, |data|) == from + 2
  {
    assert LineEnd(data, from + 1, |data|) == from + 2;
  }

  /** The second reply to the root takes the branch from the first: a turn the log had is gone from its transcript. */
  lemma BranchMoves()
    ensures StartsLine(BRANCHED.data, 4) && WellFormed(ActiveBranch, Grown(BRANCHED, [67, 10])) && !HangsOn(BRANCHED, [67, 10])
    ensures var was, now := Transcript(ActiveBranch, BRANCHED), Transcript(ActiveBranch, Grown(BRANCHED, [67, 10]));
            && was == [Line(0, UserMessage("a", 0, "a")), Line(2, UserMessage("b", 0, "b"))]
            && now == [Line(0, UserMessage("a", 0, "a")), Line(4, UserMessage("c", 0, "c"))]
  {
    hide Trace, Wanted, LastId, Entries;
    var log := BRANCHED;
    var a := Entry("a", "", Line(0, UserMessage("a", 0, "a")));
    var b := Entry("b", "a", Line(2, UserMessage("b", 0, "b")));
    var c := Entry("c", "a", Line(4, UserMessage("c", 0, "c")));
    BranchedEntries(a, b, c);
    EntriesGrow(log, [67, 10]);
    assert [a, b] + [c] == [a, b, c];
    Leaves(a, b, c);
    Branches(a, b, c);
  }

  lemma Leaves(a: Node, b: Node, c: Node)
    requires a.id == "a" && b.id == "b" && c.id == "c" && c.parent == "a"
    ensures LastId([a, b]) == "b" && LastId([a, b, c]) == "c" && Wanted([c], "c") == "a"
  {
    assert [c][..0] == [];
  }

  lemma Branches(a: Node, b: Node, c: Node)
    requires a.id == "a" && b.id == "b" && c.id == "c" && a.parent == "" && b.parent == "a" && c.parent == "a"
    ensures Trace([a, b], "b") == [a, b] && Trace([a, b, c], "c") == [a, c]
  {
    OneEntry(a);
    assert [a, b][..1] == [a] && [a, b, c][..2] == [a, b];
    assert Trace([a, b], "a") == [a];
  }

  lemma OneEntry(a: Node)
    requires a.id == "a" && a.parent == ""
    ensures Trace([a], "a") == [a] && Trace([a], "b") == []
  {
    assert [a][..0] == [];
  }

  lemma BranchedEntries(a: Node, b: Node, c: Node)
    requires a == Entry("a", "", Line(0, UserMessage("a", 0, "a")))
    requires b == Entry("b", "a", Line(2, UserMessage("b", 0, "b")))
    requires c == Entry("c", "a", Line(4, UserMessage("c", 0, "c")))
    ensures AllEntries(BRANCHED) == [a, b] && Added(BRANCHED, [67, 10]) == [c]
  {
    var data, more := BRANCHED.data, BRANCHED.data + [67, 10];
    TwoBytes(data, 0);
    TwoBytes(data, 2);
    TwoBytes(more, 4);
    assert LinesIn(data, 2, 4) == [Line(2, data[2..4])];
    assert LinesIn(data, 0, 4) == [Line(0, data[0..2]), Line(2, data[2..4])];
    assert LinesIn(more, 4, 6) == [Line(4, more[4..6])];
    assert data[0..2] == [65, 10] && data[2..4] == [66, 10] && more[4..6] == [67, 10];
  }
}
