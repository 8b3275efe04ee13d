/**
 A pi log on disk: bytes, and what each line decodes to. The transcript of a log
 is every line of it, or for a log that holds a tree of entries the lines of its
 active branch. Reading a span yields the transcript's lines that start in it.
 */
module PiLog {
  import opened Lines
  import opened PiTranscript
  import opened Branch
  import opened TurnSpans
  import opened TurnCuts

  datatype Decoded = Decoded(id: string, parent: string, rec: Record)

  datatype Log = Log(data: Bytes, decode: Bytes -> Decoded)

  /** Which lines of a log are its transcript. */
  datatype Source = EveryLine | ActiveBranch

  type Node = Entry<Line<Record>>

  function Decode(log: Log, raw: seq<Line<Bytes>>): (entries: seq<Node>)
    ensures |entries| == |raw|
    ensures forall i :: 0 <= i < |raw| ==> entries[i].value.off == raw[i].off
  {
    seq(|raw|, i requires 0 <= i < |raw| =>
      var d := log.decode(raw[i].body); Entry(d.id, d.parent, Line(raw[i].off, d.rec)))
  }

  /** The entries of the lines in [from, end). */
  function Entries(log: Log, from: nat, end: nat): seq<Node>
    requires end <= |log.data|
  {
    Decode(log, LinesIn(log.data, from, end))
  }

  function AllEntries(log: Log): seq<Node>
  {
    Entries(log, 0, |log.data|)
  }

  function Values(entries: seq<Node>): (lines: seq<Line<Record>>)
    ensures |lines| == |entries|
    ensures forall i :: 0 <= i < |entries| ==> lines[i] == entries[i].value
  {
    seq(|entries|, i requires 0 <= i < |entries| => entries[i].value)
  }

  /** The transcript's lines: every line, or the branch that ends at the last entry. */
  function Transcript(source: Source, log: Log): seq<Line<Record>>
  {
    match source
    case EveryLine => Values(AllEntries(log))
    case ActiveBranch => Values(Trace(AllEntries(log), LastId(AllEntries(log))))
  }

  /** What the log format promises of a log read this way. */
  ghost predicate WellFormed(source: Source, log: Log)
  {
    source == ActiveBranch ==> Tree(AllEntries(log))
  }

  // ------------------------------------------------------------ line order

  predicate InOrder(entries: seq<Node>, lo: int, hi: int)
  {
    && (forall i :: 0 <= i < |entries| ==> lo <= entries[i].value.off < hi)
    && (forall i, j :: 0 <= i < j < |entries| ==> entries[i].value.off < entries[j].value.off)
  }

  lemma EntriesInOrder(log: Log, from: nat, end: nat)
    requires end <= |log.data|
    ensures InOrder(Entries(log, from, end), from, end)
  {}

  lemma {:induction false} TraceInOrder(entries: seq<Node>, leaf: string, lo: int, hi: int)
    requires InOrder(entries, lo, hi)
    ensures InOrder(Trace(entries, leaf), lo, hi)
    decreases |entries|
  {
    if entries != [] {
      var n, rest := entries[|entries| - 1], entries[..|entries| - 1];
      TraceInOrder(rest, if n.id != "" && n.id == leaf then n.parent else leaf, lo, n.value.off);
    }
  }

  lemma {:induction false} TraceIn(entries: seq<Node>, leaf: string)
    ensures forall e :: e in Trace(entries, leaf) ==> e in entries
    decreases |entries|
  {
    if entries != [] {
      var n, rest := entries[|entries| - 1], entries[..|entries| - 1];
      TraceIn(rest, if n.id != "" && n.id == leaf then n.parent else leaf);
    }
  }

  /** A transcript's lines are in file order, and each starts a line of the file. */
  lemma TranscriptInOrder(source: Source, log: Log)
    ensures Sorted(Transcript(source, log))
    ensures forall i :: 0 <= i < |Transcript(source, log)| ==>
              Transcript(source, log)[i].off < |log.data| && StartsLine(log.data, Transcript(source, log)[i].off)
  {
    var all := AllEntries(log);
    EntriesInOrder(log, 0, |log.data|);
    TraceInOrder(all, LastId(all), 0, |log.data|);
    TraceIn(all, LastId(all));
    var lines := Transcript(source, log);
    forall i | 0 <= i < |lines| ensures StartsLine(log.data, lines[i].off) {
      var e := if source == EveryLine then all[i] else Trace(all, LastId(all))[i];
      assert e in all && e.value == lines[i];
      var k :| 0 <= k < |all| && all[k] == e;
      assert HasLine(LinesIn(log.data, 0, |log.data|), lines[i].off);
      LineStarts(log.data, 0, lines[i].off);
    }
  }

  // ---------------------------------------------------------------- slices

  lemma CountMapped(entries: seq<Node>, raw: seq<Line<Bytes>>, at: int)
    requires |entries| == |raw| && forall i :: 0 <= i < |raw| ==> entries[i].value.off == raw[i].off
    ensures CountBefore(Values(entries), at) == CountBefore(raw, at)
    decreases |raw|
  {
    CountIs(Values(entries), at, CountBefore(raw, at));
  }

  lemma DecodeSlice(log: Log, raw: seq<Line<Bytes>>, k: nat, m: nat)
    requires k <= m <= |raw|
    ensures Decode(log, raw[k..m]) == Decode(log, raw)[k..m]
  {}

  /** The entries of a span cut at boundaries are a stretch of the log's. */
  lemma SpanEntries(log: Log, from: nat, stop: nat)
    requires from <= stop <= |log.data| && Boundary(log.data, from) && Boundary(log.data, stop)
    ensures var all := AllEntries(log);
            var k, m := CountBefore(Values(all), from), CountBefore(Values(all), stop);
            k <= m && Entries(log, from, stop) == all[k..m]
  {
    hide LinesIn, Decode, CountBefore, Boundary;
    var raw := LinesIn(log.data, 0, |log.data|);
    SpanLines(log.data, from, stop);
    CountMapped(AllEntries(log), raw, from);
    CountMapped(AllEntries(log), raw, stop);
    DecodeSlice(log, raw, CountBefore(raw, from), CountBefore(raw, stop));
  }

  /** The branch's lines in a stretch of the log are the branch through the stretch. */
  lemma BranchStretch(a: seq<Node>, b: seq<Node>, c: seq<Node>, leaf: string, from: int, stop: int, hi: int)
    requires InOrder(a, 0, from) && InOrder(b, from, stop) && InOrder(c, stop, hi) && from <= stop
    ensures var lines := Values(Trace(a + (b + c), leaf));
            var k, m := CountBefore(lines, from), CountBefore(lines, stop);
            k <= m && lines[k..m] == Values(Trace(b, Wanted(c, leaf)))
  {
    hide CountBefore, Trace, Wanted;
    TraceSplit(a, b + c, leaf);
    TraceSplit(b, c, leaf);
    var w1, w2 := Wanted(b + c, leaf), Wanted(c, leaf);
    TraceInOrder(a, w1, 0, from);
    TraceInOrder(b, w2, from, stop);
    TraceInOrder(c, leaf, stop, hi);
    var ta, tb, tc := Values(Trace(a, w1)), Values(Trace(b, w2)), Values(Trace(c, leaf));
    assert Values(Trace(a + (b + c), leaf)) == ta + (tb + tc);
    SliceJoined(ta, tb, tc, from, stop);
  }

  /** An entry on the branch is the one the rest of the branch hangs off. */
  lemma OnBranch(a: seq<Node>, n: Node, c: seq<Node>, leaf: string, hi: int)
    requires InOrder(a, 0, n.value.off) && InOrder(c, n.value.off + 1, hi)
    requires HasLine(Values(Trace(a + ([n] + c), leaf)), n.value.off)
    ensures n.id != "" && Wanted(c, leaf) == n.id && Wanted([n] + c, leaf) == n.parent
  {
    hide Trace, Wanted;
    TraceSplit(a, [n] + c, leaf);
    TraceSplit([n], c, leaf);
    TraceInOrder(a, Wanted([n] + c, leaf), 0, n.value.off);
    TraceInOrder(c, leaf, n.value.off + 1, hi);
    OneWanted(n, Wanted(c, leaf));
  }

  lemma OneWanted(n: Node, leaf: string)
    ensures Trace([n], leaf) == if n.id != "" && n.id == leaf then [n] else []
    ensures Wanted([n], leaf) == if n.id != "" && n.id == leaf then n.parent else leaf
  {
    assert [n][..0] == [];
  }

  lemma TreePart(entries: seq<Node>, k: nat, m: nat)
    requires Tree(entries) && k <= m <= |entries|
    ensures Tree(entries[k..m])
  {}

  // --------------------------------------------------------------- readers

  /** Where the climb starts: the span's last entry, or what the entry at the span's end hangs off. */
  function Leaf(log: Log, from: nat, end: nat, last: bool): string
    requires end <= |log.data|
  {
    var next := Entries(log, end, |log.data|);
    if last || next == [] then LastId(Entries(log, from, end)) else next[0].parent
  }

  /** What a log's line reader yields for [from, end). */
  function Read(source: Source, log: Log, from: nat, end: nat, last: bool): seq<Line<Record>>
    requires end <= |log.data|
  {
    match source
    case EveryLine => Values(Entries(log, from, end))
    case ActiveBranch => Values(Reverse(Climb(ById(Entries(log, from, end)), Leaf(log, from, end, last))))
  }

  /** The span's entries by id, and the last of them. */
  method IndexSpan(entries: seq<Node>) returns (byID: map<string, Node>, leaf: string)
    ensures byID == ById(entries) && leaf == LastId(entries)
  {
    byID, leaf := map[], "";
    var n := 0;
    while n < |entries|
      invariant n <= |entries|
      invariant byID == ById(entries[..n]) && leaf == LastId(entries[..n])
    {
      assert entries[..n + 1][..n] == entries[..n];
      if entries[n].id != "" {
        byID := byID[entries[n].id := entries[n]];
        leaf := entries[n].id;
      }
      n := n + 1;
    }
    assert entries[..n] == entries;
  }

  method ClimbUp(index: map<string, Node>, from: string) returns (branch: seq<Node>)
    ensures branch == Climb(index, from)
  {
    branch := [];
    var byID, leaf := index, from;
    while leaf in byID
      invariant branch + Climb(byID, leaf) == Climb(index, from)
      decreases |byID|
    {
      branch := branch + [byID[leaf]];
      byID, leaf := byID - {leaf}, byID[leaf].parent;
    }
  }

  /** `branchLines`. */
  method BranchLines(log: Log, from: nat, end: nat, last: bool) returns (lines: seq<Line<Record>>)
    requires end <= |log.data|
    ensures lines == Read(ActiveBranch, log, from, end, last)
  {
    var raw := FileLines(log.data, from, end);
    var byID, leaf := IndexSpan(Decode(log, raw));
    if !last {
      var next := FileLines(log.data, end, |log.data|);
      if next != [] {
        leaf := log.decode(next[0].body).parent;
      }
    }
    assert leaf == Leaf(log, from, end, last);
    var branch := ClimbUp(byID, leaf);
    lines := Values(Reverse(branch));
  }

  method ReadLines(source: Source, log: Log, from: nat, end: nat, last: bool) returns (lines: seq<Line<Record>>)
    requires end <= |log.data|
    ensures lines == Read(source, log, from, end, last)
  {
    match source
    case EveryLine =>
      var raw := FileLines(log.data, from, end);
      lines := Values(Decode(log, raw));
    case ActiveBranch =>
      lines := BranchLines(log, from, end, last);
  }

  /** `stop` is where a span that ends at `end` stops reading: the end of the log, a transcript line, or the line after it. */
  ghost predicate StopsAt(source: Source, log: Log, end: Pos, stop: int)
  {
    var size := |log.data|;
    || (end == Pos(size, 0) && stop == size)
    || (end.nth == 0 && stop == end.off && HasLine(Transcript(source, log), end.off))
    || (end.nth > 0 && HasLine(Transcript(source, log), end.off) && end.off < stop <= size && Boundary(log.data, stop)
        && forall o :: end.off < o < stop ==> !StartsLine(log.data, o))
  }

  lemma StopBoundary(source: Source, log: Log, end: Pos, stop: int)
    requires StopsAt(source, log, end, stop)
    ensures 0 <= stop <= |log.data| && Boundary(log.data, stop)
  {
    TranscriptInOrder(source, log);
  }

  /** No transcript line starts between the line a span ends on and where it stops. */
  lemma StopCount(source: Source, log: Log, end: Pos, stop: int)
    requires StopsAt(source, log, end, stop)
    ensures CountBefore(Transcript(source, log), if end.nth > 0 then end.off + 1 else end.off)
            == CountBefore(Transcript(source, log), stop)
  {
    TranscriptInOrder(source, log);
    if end.nth > 0 {
      CountIs(Transcript(source, log), stop, CountBefore(Transcript(source, log), end.off + 1));
    }
  }

  /** A span's reader yields exactly the transcript's lines that start in the span. */
  lemma SpanRead(source: Source, log: Log, from: nat, end: Pos, stop: nat)
    requires WellFormed(source, log) && Boundary(log.data, from) && from <= stop && StopsAt(source, log, end, stop)
    ensures stop <= |log.data|
    ensures Read(source, log, from, stop, end.nth > 0 || stop >= |log.data|)
            == SpanLinesOf(Transcript(source, log), from, end)
  {
    hide Entries, CountBefore, Boundary, Trace, Climb, Wanted, LastId;
    StopBoundary(source, log, end, stop);
    StopCount(source, log, end, stop);
    SpanEntries(log, from, stop);
    match source
    case EveryLine =>
    case ActiveBranch =>
      BranchRead(log, from, end, stop);
  }

  lemma LastIdIs(b: seq<Node>)
    requires b != [] && b[|b| - 1].id != ""
    ensures LastId(b) == b[|b| - 1].id
  {}

  /** A log falls into what lies ahead of a span, the span, and what lies past it. */
  lemma Parts(log: Log, from: nat, stop: nat) returns (a: seq<Node>, b: seq<Node>, c: seq<Node>)
    requires from <= stop <= |log.data| && Boundary(log.data, from) && Boundary(log.data, stop)
    ensures AllEntries(log) == a + (b + c)
    ensures b == Entries(log, from, stop) && c == Entries(log, stop, |log.data|)
    ensures InOrder(a, 0, from) && InOrder(b, from, stop) && InOrder(c, stop, |log.data|) && InOrder(a + b, 0, stop)
    ensures Tree(AllEntries(log)) ==> Tree(b)
  {
    hide Boundary, LinesIn, Decode, LineEnd, InOrder, Tree;
    a, b, c := Entries(log, 0, from), Entries(log, from, stop), Entries(log, stop, |log.data|);
    EntriesSplit(log, 0, from, |log.data|);
    EntriesSplit(log, from, stop, |log.data|);
    EntriesSplit(log, 0, from, stop);
    EntriesInOrder(log, 0, from);
    EntriesInOrder(log, from, stop);
    EntriesInOrder(log, stop, |log.data|);
    EntriesInOrder(log, 0, stop);
    if Tree(AllEntries(log)) {
      TreePart(AllEntries(log), |a|, |a| + |b|);
      assert b == AllEntries(log)[|a|..|a| + |b|];
    }
  }

  lemma EntriesSplit(log: Log, from: nat, mid: nat, end: nat)
    requires from <= mid <= end <= |log.data| && Boundary(log.data, mid)
    ensures Entries(log, from, end) == Entries(log, from, mid) + Entries(log, mid, end)
  {
    hide LinesIn;
    LinesSplit(log.data, from, mid, end);
  }

  lemma DecodeConcat(log: Log, a: seq<Line<Bytes>>, b: seq<Line<Bytes>>)
    ensures Decode(log, a + b) == Decode(log, a) + Decode(log, b)
  {}

  lemma BranchRead(log: Log, from: nat, end: Pos, stop: nat)
    requires Tree(AllEntries(log)) && Boundary(log.data, from) && from <= stop <= |log.data|
    requires StopsAt(ActiveBranch, log, end, stop)
    ensures var lines := Transcript(ActiveBranch, log);
            var k, m := CountBefore(lines, from), CountBefore(lines, stop);
            k <= m && Read(ActiveBranch, log, from, stop, end.nth > 0 || stop >= |log.data|) == lines[k..m]
  {
    hide CountBefore, Boundary, Trace, Climb, Wanted, LastId, Entries, InOrder, Tree;
    StopBoundary(ActiveBranch, log, end, stop);
    var a, b, c := Parts(log, from, stop);
    BranchStretch(a, b, c, LastId(AllEntries(log)), from, stop, |log.data|);
    var start := Leaf(log, from, stop, end.nth > 0 || stop >= |log.data|);
    ClimbIsTrace(b, start);
    LeafIsWanted(a, b, c, log, end, stop, start);
  }

  lemma EntryStarts(log: Log)
    ensures forall i :: 0 <= i < |AllEntries(log)| ==> StartsLine(log.data, AllEntries(log)[i].value.off)
  {
    forall i | 0 <= i < |AllEntries(log)| ensures StartsLine(log.data, AllEntries(log)[i].value.off) {
      assert LinesIn(log.data, 0, |log.data|)[i].off == AllEntries(log)[i].value.off;
      LineStarts(log.data, 0, AllEntries(log)[i].value.off);
    }
  }

  /** A transcript line is an entry of the log. */
  lemma BranchEntry(log: Log, off: int) returns (i: nat)
    requires HasLine(Transcript(ActiveBranch, log), off)
    ensures i < |AllEntries(log)| && AllEntries(log)[i].value.off == off
  {
    var all := AllEntries(log);
    TraceIn(all, LastId(all));
    var lines := Trace(all, LastId(all));
    var t :| 0 <= t < |Values(lines)| && Values(lines)[t].off == off;
    assert lines[t] in all;
    i :| 0 <= i < |all| && all[i] == lines[t];
  }

  /** The leaf `branchLines` climbs from is the one the rest of the active branch hangs off. */
  lemma LeafIsWanted(a: seq<Node>, b: seq<Node>, c: seq<Node>, log: Log, end: Pos, stop: nat, start: string)
    requires StopsAt(ActiveBranch, log, end, stop) && stop <= |log.data|
    requires AllEntries(log) == a + (b + c)
    requires InOrder(a + b, 0, stop) && InOrder(c, stop, |log.data|) && c == Entries(log, stop, |log.data|)
    requires start == if end.nth > 0 || stop >= |log.data| || c == [] then LastId(b) else c[0].parent
    ensures Trace(b, start) == Trace(b, Wanted(c, LastId(AllEntries(log))))
  {
    hide Trace, Wanted, LastId, Transcript, InOrder, HasLine, Entries, AllEntries, Boundary, StartsLine;
    var leaf := LastId(AllEntries(log));
    if end == Pos(|log.data|, 0) && stop == |log.data| {
      NothingPast(log);
      LeafAtEnd(a, b, c);
    } else {
      var i := BranchEntry(log, end.off);
      assert a + (b + c) == a + b + c;
      if end.nth == 0 {
        LeafAhead(a + b, c, i, leaf, log, stop);
      } else if b != [] {
        EntryStarts(log);
        LeafBehind(a + b, c, i, leaf, log, end.off, stop);
        assert b[|b| - 1] == (a + b)[|a + b| - 1];
        LastIdIs(b);
      } else {
        NoneWanted(b, start);
        NoneWanted(b, Wanted(c, leaf));
      }
    }
  }

  lemma NothingPast(log: Log)
    ensures Entries(log, |log.data|, |log.data|) == []
  {}

  lemma LeafAtEnd(a: seq<Node>, b: seq<Node>, c: seq<Node>)
    requires c == []
    ensures Trace(b, LastId(b)) == Trace(b, Wanted(c, LastId(a + (b + c))))
  {
    hide Trace, Wanted, LastId;
    assert a + (b + c) == a + b;
    LastIdConcat(a, b);
    NoneWanted(c, LastId(a + b));
    if LastId(b) == "" {
      NoIds(b, LastId(b));
      NoIds(b, LastId(a + b));
    }
  }

  lemma LeafAhead(ab: seq<Node>, c: seq<Node>, i: nat, leaf: string, log: Log, stop: nat)
    requires AllEntries(log) == ab + c && leaf == LastId(AllEntries(log))
    requires InOrder(ab, 0, stop) && InOrder(c, stop, |log.data|)
    requires i < |ab + c| && (ab + c)[i].value.off == stop
    requires HasLine(Transcript(ActiveBranch, log), stop)
    ensures c != [] && stop < |log.data| && Wanted(c, leaf) == c[0].parent
  {
    hide Trace, Wanted, LastId;
    assert i >= |ab|;
    assert c[0].value.off <= c[i - |ab|].value.off;
    assert c == [c[0]] + c[1..];
    OnBranch(ab, c[0], c[1..], leaf, |log.data|);
  }

  lemma LeafBehind(ab: seq<Node>, c: seq<Node>, i: nat, leaf: string, log: Log, off: int, stop: nat)
    requires AllEntries(log) == ab + c && leaf == LastId(AllEntries(log))
    requires InOrder(ab, 0, stop) && InOrder(c, stop, |log.data|) && off < stop
    requires i < |ab + c| && (ab + c)[i].value.off == off
    requires forall i :: 0 <= i < |ab + c| ==> StartsLine(log.data, (ab + c)[i].value.off)
    requires forall o :: off < o < stop ==> !StartsLine(log.data, o)
    requires HasLine(Transcript(ActiveBranch, log), off)
    ensures ab != [] && ab[|ab| - 1].id != "" && Wanted(c, leaf) == ab[|ab| - 1].id
  {
    hide Trace, Wanted, LastId, StartsLine;
    assert i < |ab|;
    var n := ab[|ab| - 1];
    assert (ab + c)[|ab| - 1] == n;
    assert n.value.off == off;
    assert ab + c == ab[..|ab| - 1] + ([n] + c);
    OnBranch(ab[..|ab| - 1], n, c, leaf, |log.data|);
  }

  lemma NoneWanted(c: seq<Node>, leaf: string)
    requires c == []
    ensures Wanted(c, leaf) == leaf && Trace(c, leaf) == []
  {}
}
