/**
 Newline-delimited logs: where lines start and end, and the two readers the
 transcript window and the metadata reader share (`FileLines`, `lineStart`).
 A log is the byte sequence below the size taken when the file was opened.
 */
module Lines {

  newtype byte = b: int | 0 <= b < 256

  type Bytes = seq<byte>

  const NEWLINE: byte := 10

  /** The buffer `bufio.NewReader` scans with before it reports itself full. */
  const BUFFER := 4096

  /** One line of a log, as bytes or decoded, and the offset it starts at. */
  datatype Line<+T> = Line(off: nat, body: T)

  /** A line starts at the head of the log and after every newline. */
  predicate StartsLine(data: Bytes, at: int)
  {
    at == 0 || (0 < at <= |data| && data[at - 1] == NEWLINE)
  }

  /** A place where a span may be cut without tearing a line. */
  predicate Boundary(data: Bytes, at: int)
  {
    StartsLine(data, at) || at == |data|
  }

  /** The offset just past the line at `from`: past its newline, or at `end`. */
  function LineEnd(data: Bytes, from: nat, end: nat): (e: nat)
    requires from < end <= |data|
    ensures from < e <= end
    ensures forall i :: from <= i < e - 1 ==> data[i] != NEWLINE
    ensures e == end || data[e - 1] == NEWLINE
    decreases end - from
  {
    if data[from] == NEWLINE || from + 1 == end then from + 1 else LineEnd(data, from + 1, end)
  }

  /** The lines of `data[from..end]`, an unterminated last one included, with the offset each starts at. */
  function LinesIn(data: Bytes, from: nat, end: nat): (lines: seq<Line<Bytes>>)
    requires end <= |data|
    ensures forall i :: 0 <= i < |lines| ==> from <= lines[i].off < end
    ensures Sorted(lines)
    decreases end - from
  {
    if from >= end then [] else
      var e := LineEnd(data, from, end);
      [Line(from, data[from..e])] + LinesIn(data, e, end)
  }

  predicate Sorted<T>(lines: seq<Line<T>>)
  {
    forall i, j :: 0 <= i < j < |lines| ==> lines[i].off < lines[j].off
  }

  /** How many of the lines start before `at`. */
  function CountBefore<T>(lines: seq<Line<T>>, at: int): (n: nat)
    ensures n <= |lines|
    ensures forall i :: 0 <= i < n ==> lines[i].off < at
    ensures n < |lines| ==> lines[n].off >= at
  {
    if lines == [] || lines[0].off >= at then 0 else 1 + CountBefore(lines[1..], at)
  }

  /** Lines on either side of a boundary never mix. */
  lemma {:induction false} LinesSplit(data: Bytes, from: nat, mid: nat, end: nat)
    requires from <= mid <= end <= |data| && Boundary(data, mid)
    ensures LinesIn(data, from, end) == LinesIn(data, from, mid) + LinesIn(data, mid, end)
    decreases mid - from
  {
    if from < mid {
      LineEndCut(data, from, mid, end);
      LinesSplit(data, LineEnd(data, from, end), mid, end);
    }
  }

  /** Between boundaries, a span holds exactly the whole log's lines that start in it. */
  lemma SpanLines(data: Bytes, from: nat, stop: nat)
    requires from <= stop <= |data|
    requires Boundary(data, from) && Boundary(data, stop)
    ensures var all := LinesIn(data, 0, |data|);
            var i, j := CountBefore(all, from), CountBefore(all, stop);
            i <= j && LinesIn(data, from, stop) == all[i..j]
  {
    hide LinesIn, LineEnd, CountBefore, Boundary;
    LinesSplit(data, 0, from, |data|);
    LinesSplit(data, from, stop, |data|);
    SliceJoined(LinesIn(data, 0, from), LinesIn(data, from, stop), LinesIn(data, stop, |data|), from, stop);
  }

  lemma SliceJoined<T>(before: seq<Line<T>>, span: seq<Line<T>>, after: seq<Line<T>>, from: int, stop: int)
    requires from <= stop
    requires forall i :: 0 <= i < |before| ==> before[i].off < from
    requires forall i :: 0 <= i < |span| ==> from <= span[i].off < stop
    requires forall i :: 0 <= i < |after| ==> stop <= after[i].off
    ensures var all := before + (span + after);
            && CountBefore(all, from) == |before|
            && CountBefore(all, stop) == |before| + |span|
            && all[|before|..|before| + |span|] == span
  {
    hide CountBefore;
    CountJoin(before, span + after, from);
    CountJoin(before + span, after, stop);
    assert before + span + after == before + (span + after);
  }

  lemma CountJoin<T>(a: seq<Line<T>>, b: seq<Line<T>>, at: int)
    requires forall i :: 0 <= i < |a| ==> a[i].off < at
    requires b != [] ==> b[0].off >= at
    ensures CountBefore(a + b, at) == |a|
  {
    CountIs(a + b, at, |a|);
  }

  lemma CountIs<T>(lines: seq<Line<T>>, at: int, n: nat)
    requires n <= |lines|
    requires forall i :: 0 <= i < n ==> lines[i].off < at
    requires n < |lines| ==> lines[n].off >= at
    ensures CountBefore(lines, at) == n
  {
    if lines != [] && lines[0].off < at {
      CountIs(lines[1..], at, n - 1);
    }
  }

  /** Cutting the log at a later boundary does not move the end of a line. */
  lemma {:induction false} LineEndCut(data: Bytes, from: nat, mid: nat, end: nat)
    requires from < mid <= end <= |data| && Boundary(data, mid)
    ensures LineEnd(data, from, mid) == LineEnd(data, from, end)
    decreases mid - from
  {
    if data[from] != NEWLINE && from + 1 != mid {
      LineEndCut(data, from + 1, mid, end);
    }
  }

  /** The offsets of a log's lines are exactly its line starts short of the end. */
  lemma {:induction false} LineStarts(data: Bytes, head: nat, at: nat)
    requires head <= at && StartsLine(data, head)
    ensures HasLine(LinesIn(data, head, |data|), at) <==> (StartsLine(data, at) && at < |data|)
    decreases |data| - head
  {
    if head < |data| {
      var e := LineEnd(data, head, |data|);
      var first, rest := [Line(head, data[head..e])], LinesIn(data, e, |data|);
      assert LinesIn(data, head, |data|) == first + rest;
      HasLineConcat(first, rest, at);
      assert first[0].off == head;
      if e <= at && e < |data| {
        LineStarts(data, e, at);
      }
    }
  }

  ghost predicate HasLine<T>(lines: seq<Line<T>>, at: int)
  {
    exists i :: 0 <= i < |lines| && lines[i].off == at
  }

  lemma HasLineConcat<T>(a: seq<Line<T>>, b: seq<Line<T>>, at: int)
    ensures HasLine(a + b, at) <==> HasLine(a, at) || HasLine(b, at)
  {
    if HasLine(a, at) {
      var i :| 0 <= i < |a| && a[i].off == at;
      assert (a + b)[i].off == at;
    }
    if HasLine(b, at) {
      var i :| 0 <= i < |b| && b[i].off == at;
      assert (a + b)[|a| + i].off == at;
    }
  }

  /** Appending to a log that ends its last line leaves every line it had in place. */
  lemma {:induction false} LinesAppend(data: Bytes, more: Bytes, head: nat)
    requires head <= |data| && StartsLine(data, |data|)
    ensures LinesIn(data + more, head, |data + more|)
            == LinesIn(data, head, |data|) + LinesIn(data + more, |data|, |data + more|)
    decreases |data| - head
  {
    if head < |data| {
      LineEndGrow(data, more, head);
      var e := LineEnd(data, head, |data|);
      assert (data + more)[head..e] == data[head..e];
      LinesAppend(data, more, e);
    }
  }

  lemma {:induction false} LineEndGrow(data: Bytes, more: Bytes, from: nat)
    requires from < |data| && StartsLine(data, |data|)
    ensures LineEnd(data + more, from, |data + more|) == LineEnd(data, from, |data|)
    decreases |data| - from
  {
    if data[from] != NEWLINE {
      LineEndGrow(data, more, from + 1);
    }
  }

  /** `FileLines`: the scanner's loop, handing each line over with its offset. */
  method FileLines(data: Bytes, from: nat, end: nat) returns (lines: seq<Line<Bytes>>)
    requires end <= |data|
    ensures lines == LinesIn(data, from, end)
  {
    hide LinesIn, LineEnd;
    lines := [];
    var pos := from;
    assert lines + LinesIn(data, pos, end) == LinesIn(data, from, end);
    while pos < end
      invariant from <= pos
      invariant lines + LinesIn(data, pos, end) == LinesIn(data, from, end)
      decreases end - pos
    {
      var advance := LineEnd(data, pos, end);
      LinesNext(data, pos, end);
      lines := lines + [Line(pos, data[pos..advance])];
      pos := advance;
    }
    LinesNext(data, pos, end);
    assert lines + [] == lines;
  }

  lemma LinesNext(data: Bytes, pos: nat, end: nat)
    requires end <= |data|
    ensures pos >= end ==> LinesIn(data, pos, end) == []
    ensures pos < end ==>
              var e := LineEnd(data, pos, end); LinesIn(data, pos, end) == [Line(pos, data[pos..e])] + LinesIn(data, e, end)
  {}

  /** One `ReadSlice('\n')` at `pos`: up to a newline, a full buffer, or the end. */
  method ReadSlice(data: Bytes, pos: nat, end: nat) returns (n: nat, newline: bool, full: bool)
    requires end <= |data|
    ensures pos >= end ==> n == 0 && !newline && !full
    ensures pos + n <= end || n == 0
    ensures newline ==> n > 0 && data[pos + n - 1] == NEWLINE
    ensures forall i :: pos <= i < (if newline then pos + n - 1 else pos + n) ==> data[i] != NEWLINE
    ensures full ==> !newline && n > 0
    ensures !newline && !full ==> pos + n >= end
  {
    n, newline, full := 0, false, false;
    while pos + n < end && n < BUFFER && !newline
      invariant pos + n <= end || n == 0
      invariant newline ==> n > 0 && data[pos + n - 1] == NEWLINE
      invariant forall i :: pos <= i < (if newline then pos + n - 1 else pos + n) ==> data[i] != NEWLINE
      decreases end - pos - n
    {
      newline := data[pos + n] == NEWLINE;
      n := n + 1;
    }
    full := !newline && pos + n < end;
  }

  /** `lineStart`: the first line that starts at or after `at`, or the end of the log when none does. */
  method LineStart(data: Bytes, at: int) returns (r: nat)
    ensures at <= 0 ==> r == 0
    ensures at > 0 ==> r <= |data| && (at <= r || r == |data|)
    ensures r == |data| || StartsLine(data, r)
    ensures forall o :: at <= o < r && o <= |data| ==> !StartsLine(data, o)
  {
    if at <= 0 {
      return 0;
    }
    var pos := at - 1;
    while true
      invariant at - 1 <= pos
      invariant pos <= |data| || pos == at - 1
      invariant forall i :: at - 1 <= i < pos && i < |data| ==> data[i] != NEWLINE
      decreases |data| - pos
    {
      var n, newline, full := ReadSlice(data, pos, |data|);
      pos := pos + n;
      if newline {
        return pos;
      } else if !full {
        return |data|;
      }
    }
  }
}
