/**
 Reading a session log's metadata: all of it, or sparsely, its head up to the
 first prompt and its tail back to the latest one; then only what was appended.
 A scanner is a fold over lines, of whatever state.
 */
module Discovery {
  import opened Options
  import opened Lines
  import opened CompleteLines

  const HEAD_MAX := 0x10_0000
  const TAIL_MIN := 0x4_0000
  const TAIL_MAX := 0x100_0000

  /** A metadata scanner: where it starts, what a line does, whether it has a prompt, and when the last input was. */
  datatype Scanner<!S> = Scanner(start: S, feed: (S, Bytes) -> S, prompted: S -> bool, lastInput: S -> int)

  function Fed<S>(scan: Scanner<S>, lines: seq<Line<Bytes>>): S
  {
    if lines == [] then scan.start else scan.feed(Fed(scan, lines[..|lines| - 1]), lines[|lines| - 1].body)
  }

  /** The lines a reading was fed: those up to the stretch it skipped, and those after. */
  ghost function Seen(data: Bytes, skipFrom: nat, skipTo: nat, off: nat): seq<Line<Bytes>>
    requires skipFrom <= |data| && off <= |data|
  {
    LinesIn(data, 0, skipFrom) + LinesIn(data, skipTo, off)
  }

  /** Where feeding lines from `from` stops: after the first that leaves the scanner with a prompt, or at the last newline. */
  ghost function PromptEnd<S>(scan: Scanner<S>, s: S, data: Bytes, from: nat, end: nat): (off: nat)
    requires from <= end <= |data|
    ensures from <= off <= end && (off == from || data[off - 1] == NEWLINE)
    decreases end - from
  {
    if from == end then from
    else
      var e := LineEnd(data, from, end);
      if data[e - 1] != NEWLINE then from
      else if scan.prompted(scan.feed(s, data[from..e])) then e
      else PromptEnd(scan, scan.feed(s, data[from..e]), data, e, end)
  }

  /** Lines are fed one after the other, from the start. */
  lemma FedNext<S>(scan: Scanner<S>, lines: seq<Line<Bytes>>, l: Line<Bytes>)
    ensures Fed(scan, []) == scan.start && Fed(scan, lines + [l]) == scan.feed(Fed(scan, lines), l.body)
  {
    assert (lines + [l])[..|lines|] == lines;
  }

  /** Feeding up to the first prompt stops at the first newline after which there is a prompt, or at the last newline. */
  lemma {:induction false} PromptFirst<S>(scan: Scanner<S>, before: seq<Line<Bytes>>, data: Bytes, from: nat, end: nat)
    requires from <= end <= |data|
    ensures var off, last := PromptEnd(scan, Fed(scan, before), data, from, end), LastBreak(data[..end], from);
            && off <= last
            && (off < last ==> from < off && scan.prompted(Fed(scan, before + LinesIn(data, from, off))))
            && (forall at :: from < at < off && data[at - 1] == NEWLINE ==> !scan.prompted(Fed(scan, before + LinesIn(data, from, at))))
    decreases end - from
  {
    hide LinesIn, LineEnd, LastBreak, Fed;
    if from < end {
      var e := LineEnd(data, from, end);
      PromptNext(scan, Fed(scan, before), data, from, end);
      if data[e - 1] != NEWLINE {
        BreakHere(data, from, from, end);
      } else {
        var line := Line(from, data[from..e]);
        LastPast(data, from, e, end);
        LineEndCut(data, from, e, end);
        OneLine(data, from, e);
        FedNext(scan, before, line);
        PromptFirst(scan, before + [line], data, e, end);
        forall at | e < at <= end && data[at - 1] == NEWLINE
          ensures before + [line] + LinesIn(data, e, at) == before + LinesIn(data, from, at)
        {
          LinesSplitOn(data, from, e, at);
        }
      }
    }
  }

  lemma LinesSplitOn(data: Bytes, from: nat, e: nat, at: nat)
    requires from < e <= at <= |data| && e == LineEnd(data, from, e) && data[e - 1] == NEWLINE
    ensures LinesIn(data, from, at) == [Line(from, data[from..e])] + LinesIn(data, e, at)
  {
    hide LinesIn, LineEnd;
    OneLine(data, from, e);
    LinesSplit(data, from, e, at);
  }

  /** A newline is no further on than the last one. */
  lemma LastPast(data: Bytes, from: nat, e: nat, end: nat)
    requires from < e <= end <= |data| && data[e - 1] == NEWLINE
    ensures e <= LastBreak(data[..end], from) == LastBreak(data[..end], e)
  {
    hide LastBreak;
    var b := LastBreak(data[..end], from);
    assert data[..end][e - 1] == NEWLINE;
    assert b >= e;
    BreakIs(data[..end], e, b);
  }

  /** `feed`: the complete lines of `data[from..end]`, or those up to the first prompt. */
  method Feed<S>(scan: Scanner<S>, ghost before: seq<Line<Bytes>>, s: S, data: Bytes, from: nat, end: nat, untilPrompt: bool)
    returns (r: S, off: nat)
    requires from <= end <= |data| && s == Fed(scan, before)
    ensures from <= off <= end && r == Fed(scan, before + LinesIn(data, from, off))
    ensures off == from || data[off - 1] == NEWLINE
    ensures off == if untilPrompt then PromptEnd(scan, s, data, from, end) else LastBreak(data[..end], from)
  {
    hide LinesIn, LineEnd, LastBreak, Fed, PromptEnd, StartsLine;
    r, off := s, from;
    NoLines(data, from);
    assert before + [] == before;
    while true
      invariant from <= off <= end && r == Fed(scan, before + LinesIn(data, from, off))
      invariant off == from || data[off - 1] == NEWLINE
      invariant untilPrompt ==> PromptEnd(scan, r, data, off, end) == PromptEnd(scan, s, data, from, end)
      decreases end - off
    {
      var n, complete := ReadBytes(data, off, end);
      PromptNext(scan, r, data, off, end);
      if !complete {
        BreakHere(data, from, off, end);
        return;
      }
      EndHere(data, off, off + n, end);
      OneMore(scan, before, data, from, off, off + n);
      r := scan.feed(r, data[off..off + n]);
      off := off + n;
      if untilPrompt && scan.prompted(r) {
        return;
      }
    }
  }

  lemma BreakHere(data: Bytes, from: nat, off: nat, end: nat)
    requires from <= off <= end <= |data| && (off == from || data[off - 1] == NEWLINE)
    requires forall i :: off <= i < end ==> data[i] != NEWLINE
    ensures LastBreak(data[..end], from) == off
  {
    BreakIs(data[..end], from, off);
  }

  lemma PromptNext<S>(scan: Scanner<S>, s: S, data: Bytes, from: nat, end: nat)
    requires from <= end <= |data|
    ensures from == end || data[LineEnd(data, from, end) - 1] != NEWLINE ==> PromptEnd(scan, s, data, from, end) == from
    ensures from < end && data[LineEnd(data, from, end) - 1] == NEWLINE ==>
              var e := LineEnd(data, from, end);
              var t := scan.feed(s, data[from..e]);
              PromptEnd(scan, s, data, from, end) == if scan.prompted(t) then e else PromptEnd(scan, t, data, e, end)
  {}

  /** `ReadBytes('\n')`: a line with its newline, or false at the end of what there is. */
  method ReadBytes(data: Bytes, at: nat, end: nat) returns (n: nat, complete: bool)
    requires at <= end <= |data|
    ensures at + n <= end && (complete ==> n > 0 && at + n == LineEnd(data, at, end) && data[at + n - 1] == NEWLINE)
    ensures !complete ==> forall i :: at <= i < end ==> data[i] != NEWLINE
  {
    n, complete := 0, false;
    if at < end {
      var e := LineEnd(data, at, end);
      n, complete := e - at, data[e - 1] == NEWLINE;
    }
  }

  lemma OneMore<S>(scan: Scanner<S>, before: seq<Line<Bytes>>, data: Bytes, from: nat, off: nat, next: nat)
    requires from <= off < next <= |data| && (off == from || data[off - 1] == NEWLINE)
    requires next == LineEnd(data, off, next)
    ensures Fed(scan, before + LinesIn(data, from, next)) == scan.feed(Fed(scan, before + LinesIn(data, from, off)), data[off..next])
  {
    hide LineEnd;
    var line := Line(off, data[off..next]);
    OneLine(data, off, next);
    if off == from {
      NoLines(data, off);
    } else {
      LinesSplit(data, from, off, next);
    }
    var all := before + LinesIn(data, from, next);
    assert all == before + LinesIn(data, from, off) + [line];
    assert all[..|all| - 1] == before + LinesIn(data, from, off);
  }

  lemma OneLine(data: Bytes, off: nat, next: nat)
    requires off < next <= |data| && next == LineEnd(data, off, next)
    ensures LinesIn(data, off, next) == [Line(off, data[off..next])]
  {
    NoLines(data, next);
  }

  /** A line ends where it does, however much may follow. */
  lemma {:induction false} EndHere(data: Bytes, from: nat, e: nat, end: nat)
    requires from < e <= end <= |data| && e == LineEnd(data, from, end) && data[e - 1] == NEWLINE
    ensures LineEnd(data, from, e) == e
    decreases e - from
  {
    if data[from] != NEWLINE && from + 1 != e {
      EndHere(data, from + 1, e, end);
    }
  }

  // ------------------------------------------------------------- the reading

  /** Lines whose scan leaves the time of the latest prompt among them. */
  ghost predicate KeepsLatest<S(!new)>(scan: Scanner<S>, mark: Bytes -> Option<int>)
  {
    forall s, line :: scan.lastInput(scan.feed(s, line)) == if mark(line).Some? then mark(line).value else scan.lastInput(s)
  }

  ghost predicate HasMark(lines: seq<Line<Bytes>>, mark: Bytes -> Option<int>)
  {
    exists i :: 0 <= i < |lines| && mark(lines[i].body).Some?
  }

  /** The last input after more lines is that of the last prompt among them, or what it was. */
  lemma {:induction false} InputOf<S(!new)>(scan: Scanner<S>, mark: Bytes -> Option<int>, a: seq<Line<Bytes>>, b: seq<Line<Bytes>>, c: seq<Line<Bytes>>)
    requires KeepsLatest(scan, mark)
    ensures HasMark(c, mark) ==> scan.lastInput(Fed(scan, a + c)) == scan.lastInput(Fed(scan, b + c))
    ensures !HasMark(c, mark) ==> scan.lastInput(Fed(scan, a + c)) == scan.lastInput(Fed(scan, a))
    decreases |c|
  {
    if c == [] {
      assert a + c == a;
    } else {
      var k := |c| - 1;
      InputOf(scan, mark, a, b, c[..k]);
      assert (a + c)[..|a + c| - 1] == a + c[..k] && (b + c)[..|b + c| - 1] == b + c[..k];
      if mark(c[k].body).None? && HasMark(c, mark) {
        var i :| 0 <= i < |c| && mark(c[i].body).Some?;
        assert c[..k][i] == c[i];
      }
      if HasMark(c[..k], mark) {
        var i :| 0 <= i < k && mark(c[..k][i].body).Some?;
        assert c[i] == c[..k][i];
      }
    }
  }

  /** The longest tail, and the byte ahead of it, hold no newline. */
  ghost predicate LongEnd(data: Bytes)
  {
    |data| > TAIL_MAX && forall i :: |data| - TAIL_MAX - 1 <= i < |data| ==> data[i] != NEWLINE
  }

  class Reading<!S(!new)> {
    const scan: Scanner<S>
    const sparse: bool
    var scanner: Option<S>
    var off: nat
    var whole: bool
    /** The log as it was read, and the stretch of it that was skipped. */
    ghost var seen: Bytes
    ghost var skipFrom: nat
    ghost var skipTo: nat

    constructor (scan: Scanner<S>, sparse: bool)
      ensures this.scan == scan && this.sparse == sparse && scanner == None && seen == [] && Valid()
    {
      this.scan, this.sparse := scan, sparse;
      scanner, off, whole := None, 0, false;
      seen, skipFrom, skipTo := [], 0, 0;
    }

    /** The scanner holds the lines before the skipped stretch and those from it to the last newline; a whole reading skipped none. */
    ghost predicate Valid()
      reads this
    {
      scanner.Some? ==>
        && skipFrom <= skipTo <= off <= |seen| && StartsLine(seen, skipFrom)
        && off == LastBreak(seen, skipTo)
        && scanner == Some(Fed(scan, Seen(seen, skipFrom, skipTo, off)))
        && (whole ==> skipFrom == skipTo == 0)
    }

    /** No line was torn: what was skipped ends where a line starts. */
    ghost predicate Untorn()
      reads this
    {
      StartsLine(seen, skipTo)
    }

    /** What was read after the skipped stretch holds a prompt, or nothing was skipped. */
    ghost predicate Current(mark: Bytes -> Option<int>)
      requires off <= |seen|
      reads this
    {
      whole || skipFrom == skipTo || HasMark(LinesIn(seen, skipTo, off), mark)
    }

    /** Whether a read has only to look at what was appended. */
    predicate GoesOn(data: Bytes, all: bool)
      reads this
    {
      scanner.Some? && |data| >= off && (whole || !all)
    }

    /**
     `read`: bring the reading up to date with the log at this size. A log that only
     grew is then the one that was read; of one that was rewritten, going on reads
     what follows the offset, as if what came before had stayed.
     */
    method Read(data: Bytes, all: bool) returns (s: S, complete: bool)
      requires Valid()
      modifies this
      ensures Valid() && scanner == Some(s) && complete == whole && (all ==> whole)
      ensures seen == if old(GoesOn(data, all)) then Followed(old(seen), old(off), data) else data
      ensures old(seen) <= data ==> seen == data
      ensures old(GoesOn(data, all)) <==> old(scanner.Some?) && |data| >= old(off) && (old(whole) || !all)
      ensures old(GoesOn(data, all)) ==>
                whole == old(whole) && skipFrom == old(skipFrom) && skipTo == old(skipTo) && Untorn() == old(Untorn())
      ensures !old(GoesOn(data, all)) ==> if all || !sparse then whole else SparseRead(data)
    {
      hide SparseRead, LinesIn, LastBreak, Fed;
      assert GoesOn(data, all) && seen <= data ==> Followed(seen, off, data) == data;
      if GoesOn(data, all) {
        s := Resume(data);
      } else if all || !sparse {
        s := ReadAll(data);
      } else {
        s := ReadSparse(data);
      }
      complete := whole;
    }

    /** The read of every line. */
    method ReadAll(data: Bytes) returns (s: S)
      modifies this
      ensures Valid() && seen == data && scanner == Some(s) && whole
    {
      hide LinesIn, LastBreak, Fed;
      Nothing(scan, data);
      var o;
      s, o := Feed(scan, [], scan.start, data, 0, |data|, false);
      assert data[..|data|] == data;
      NoLines(data, 0);
      scanner, off, whole, seen, skipFrom, skipTo := Some(s), o, true, data, 0, 0;
      assert [] + LinesIn(data, 0, o) == LinesIn(data, 0, 0) + LinesIn(data, 0, o);
    }

    /** The read that only looks at what was appended. */
    method Resume(data: Bytes) returns (s: S)
      requires Valid() && scanner.Some? && off <= |data|
      modifies this
      ensures Valid() && seen == Followed(old(seen), old(off), data) && scanner == Some(s)
      ensures whole == old(whole) && skipFrom == old(skipFrom) && skipTo == old(skipTo) && Untorn() == old(Untorn())
    {
      hide LinesIn, LineEnd, LastBreak, Seen, Fed, Followed, StartsLine;
      ResumeSeen(seen, data, skipFrom, skipTo, off);
      var o;
      s, o := Feed(scan, Seen(seen, skipFrom, skipTo, off), scanner.value, data, off, |data|, false);
      assert data[..|data|] == data;
      scanner, off, seen := Some(s), o, Followed(seen, off, data);
    }

    /** Where a sparse read's head ends: after the first prompt, looked for in the first 1 MiB. */
    ghost function HeadEnd(data: Bytes): nat
    {
      PromptEnd(scan, scan.start, data, 0, if |data| < HEAD_MAX then |data| else HEAD_MAX)
    }

    /** Where a tail starts: the first line start in the last `tail` bytes, or the top. */
    ghost function TailStart(data: Bytes, tail: nat): (r: nat)
      ensures r <= |data|
    {
      if |data| > tail then FirstStart(data, |data| - tail) else 0
    }

    /** A tail that is long enough: it reaches back to the head, or moves the last input. */
    ghost predicate Enough(data: Bytes, tail: nat)
    {
      var head, start := HeadEnd(data), TailStart(data, tail);
      start <= head || scan.lastInput(Fed(scan, Seen(data, head, start, LastBreak(data, start)))) != scan.lastInput(Fed(scan, LinesIn(data, 0, head)))
    }

    /** The tail a sparse read settles on: the shortest that is long enough, or the longest of all. */
    ghost predicate Settles(data: Bytes, tail: nat)
    {
      && tail in {TAIL_MIN, 4 * TAIL_MIN, 16 * TAIL_MIN, TAIL_MAX} && (tail == TAIL_MAX || Enough(data, tail))
      && forall t: nat :: t in {TAIL_MIN, 4 * TAIL_MIN, 16 * TAIL_MIN, TAIL_MAX} && t < tail ==> !Enough(data, t)
    }

    /**
     What a sparse read leaves: the whole log; or a tail that holds a prompt; or,
     when no tail did, the longest. It tears a line exactly when the log's end is
     one too long for that.
     */
    ghost predicate SparseRead(data: Bytes)
      reads this
    {
      && seen == data && off <= |data| && skipTo <= |data|
      && (exists tail :: Settles(data, tail) && whole == (TailStart(data, tail) <= HeadEnd(data))
                         && (!whole ==> skipFrom == HeadEnd(data) && skipTo == TailStart(data, tail)))
      && (whole || skipTo >= |data| - TAIL_MAX)
      && (forall mark :: KeepsLatest(scan, mark) && !Current(mark) ==> |data| > TAIL_MAX && skipTo == FirstStart(data, |data| - TAIL_MAX))
      && (Untorn() <==> !LongEnd(data)) && (LongEnd(data) ==> !whole && skipTo == |data|)
    }

    /** One round of `readSparse`: the head, then the last `tail` bytes; `enough` when it need not look further back. */
    method ReadEnds(data: Bytes, tail: nat) returns (r: S, o: nat, head: nat, from: nat, w: bool, enough: bool)
      ensures head == HeadEnd(data) <= from <= o <= |data| && StartsLine(data, head) && o == LastBreak(data, from)
      ensures r == Fed(scan, Seen(data, head, from, o))
      ensures w == (TailStart(data, tail) <= head) && from == if w then head else TailStart(data, tail)
      ensures enough == Enough(data, tail)
    {
      hide LinesIn, LineEnd, LastBreak, Fed, PromptEnd, FirstStart;
      var end := if |data| < HEAD_MAX then |data| else HEAD_MAX;
      Nothing(scan, data);
      var h;
      h, head := Feed(scan, [], scan.start, data, 0, end, true);
      assert [] + LinesIn(data, 0, head) == LinesIn(data, 0, head);
      var start := LineStart(data, |data| - tail);
      if |data| > tail { LineStartIs(data, |data| - tail, start); }
      w := start <= head;
      from := if start <= head then head else start;
      r, o := Feed(scan, LinesIn(data, 0, head), h, data, from, |data|, false);
      assert data[..|data|] == data;
      enough := w || scan.lastInput(r) != scan.lastInput(h);
    }

    /** `readSparse` */
    method ReadSparse(data: Bytes) returns (s: S)
      modifies this
      ensures Valid() && seen == data && scanner == Some(s) && SparseRead(data)
    {
      hide LinesIn, LineEnd, LastBreak, Fed, FirstStart, PromptEnd, Enough, HeadEnd, TailStart, SparseRead, Valid, Seen;
      var tail := TAIL_MIN;
      while true
        invariant tail in {TAIL_MIN, 4 * TAIL_MIN, 16 * TAIL_MIN, TAIL_MAX}
        invariant forall t: nat :: t in {TAIL_MIN, 4 * TAIL_MIN, 16 * TAIL_MIN, TAIL_MAX} && t < tail ==> !Enough(data, t)
        decreases TAIL_MAX - tail
      {
        var r, o, head, from, w, enough := ReadEnds(data, tail);
        if tail >= TAIL_MAX || enough {
          Keep(data, tail, r, o, head, from, w);
          return r;
        }
        tail := tail * 4;
      }
    }

    method Keep(data: Bytes, ghost tail: nat, r: S, o: nat, head: nat, from: nat, w: bool)
      requires Settles(data, tail) && head == HeadEnd(data) <= from <= o <= |data| && StartsLine(data, head) && o == LastBreak(data, from)
      requires r == Fed(scan, Seen(data, head, from, o))
      requires w == (TailStart(data, tail) <= head) && from == if w then head else TailStart(data, tail)
      modifies this
      ensures Valid() && seen == data && scanner == Some(r) && SparseRead(data)
    {
      hide LinesIn, LineEnd, LastBreak, Fed, FirstStart, PromptEnd, Enough, HeadEnd, TailStart;
      scanner, off, whole, seen, skipFrom, skipTo := Some(r), o, w, data, if w then 0 else head, if w then 0 else from;
      NoStart(data, tail);
      HeadShort(data);
      if w {
        WholeSeen(data, head);
      } else {
        Skips(data, tail, from, o);
      }
    }

    lemma HeadShort(data: Bytes)
      ensures HeadEnd(data) <= HEAD_MAX
    {}

    /** An end too long holds no line start for any tail to begin at. */
    lemma NoStart(data: Bytes, tail: nat)
      requires 0 < tail <= TAIL_MAX
      ensures LongEnd(data) ==> TailStart(data, tail) == |data| && !StartsLine(data, |data|)
    {
      hide FirstStart;
      assert LongEnd(data) ==> forall o :: |data| - tail <= o <= |data| ==> !StartsLine(data, o);
    }

    /** What a tail short of the head comes to. */
    lemma Skips(data: Bytes, tail: nat, from: nat, o: nat)
      requires tail <= TAIL_MAX && (tail == TAIL_MAX || Enough(data, tail)) && from == TailStart(data, tail) > HeadEnd(data)
      requires o == LastBreak(data, from)
      ensures |data| > tail && from == FirstStart(data, |data| - tail) && from >= |data| - TAIL_MAX
      ensures Enough(data, tail) ==> from < |data| && forall mark :: KeepsLatest(scan, mark) ==> HasMark(LinesIn(data, from, o), mark)
      ensures StartsLine(data, from) || LongEnd(data)
    {
      hide LinesIn, LineEnd, LastBreak, Fed, FirstStart, PromptEnd;
      if Enough(data, tail) {
        Newly(scan, data, HeadEnd(data), from, o);
      }
      NoneInTail(data, |data| - tail);
    }
  }

  lemma Nothing<S>(scan: Scanner<S>, data: Bytes)
    ensures scan.start == Fed(scan, [])
  {}

  lemma EmptyTail(data: Bytes, head: nat, from: nat)
    requires head <= from <= |data|
    ensures Seen(data, head, from, from) == LinesIn(data, 0, head)
  {
    NoLines(data, from);
  }

  lemma Newly<S(!new)>(scan: Scanner<S>, data: Bytes, head: nat, from: nat, o: nat)
    requires head <= from <= o <= |data|
    requires scan.lastInput(Fed(scan, Seen(data, head, from, o))) != scan.lastInput(Fed(scan, LinesIn(data, 0, head)))
    ensures forall mark :: KeepsLatest(scan, mark) ==> HasMark(LinesIn(data, from, o), mark)
    ensures from < o
  {
    EmptyTail(data, head, from);
    forall mark | KeepsLatest(scan, mark) ensures HasMark(LinesIn(data, from, o), mark) {
      InputOf(scan, mark, LinesIn(data, 0, head), [], LinesIn(data, from, o));
    }
  }

  /** A tail with no line start in it is the end of one line, and has no newline. */
  lemma NoneInTail(data: Bytes, at: nat)
    requires 0 < at < |data|
    ensures var f := FirstStart(data, at);
            StartsLine(data, f) || (f == |data| && forall i :: at - 1 <= i < |data| ==> data[i] != NEWLINE)
  {
    var f := FirstStart(data, at);
    if !StartsLine(data, f) {
      forall i | at - 1 <= i < |data| ensures data[i] != NEWLINE {
        var next := i + 1;
        assert next == f || !StartsLine(data, next);
      }
    }
  }

  /** The first line start from `at` on, or the end. */
  ghost function FirstStart(data: Bytes, at: nat): (r: nat)
    ensures r <= |data| && (at <= |data| ==> at <= r)
    ensures r == |data| || StartsLine(data, r)
    ensures forall o :: at <= o < r ==> !StartsLine(data, o)
    decreases |data| - at
  {
    if at >= |data| then |data| else if StartsLine(data, at) then at else FirstStart(data, at + 1)
  }

  lemma LineStartIs(data: Bytes, at: int, r: nat)
    requires 0 < at <= r <= |data|
    requires r == |data| || StartsLine(data, r)
    requires forall o :: at <= o < r && o <= |data| ==> !StartsLine(data, o)
    ensures r == FirstStart(data, at)
    decreases |data| - at
  {
    if at < r {
      LineStartIs(data, at + 1, r);
    }
  }

  lemma ResumeSeen(seen: Bytes, data: Bytes, skipFrom: nat, skipTo: nat, off: nat)
    requires skipFrom <= skipTo <= off <= |seen| && off == LastBreak(seen, skipTo) && off <= |data|
    ensures var now, o := Followed(seen, off, data), LastBreak(data, off);
            && o <= |data| == |now| && LastBreak(now, skipTo) == o
            && Seen(now, skipFrom, skipTo, o) == Seen(seen, skipFrom, skipTo, off) + LinesIn(data, off, o)
            && (forall at :: at <= off ==> StartsLine(now, at) == StartsLine(seen, at))
  {
    hide LinesIn, LineEnd, LastBreak, StartsLine, Followed;
    FollowedIs(seen, off, data);
    var was, now, o := seen[..off], Followed(seen, off, data), LastBreak(data, off);
    BreakIs(was, skipTo, off);
    CompleteGrows(was, now, skipTo);
    LinesPrefix(was, now, 0, skipFrom);
    LinesPrefix(was, seen, 0, skipFrom);
    LinesPrefix(was, seen, skipTo, off);
    BreakIs(now, off, o);
    LinesAgree(data, now, off, o);
  }

  /** A log of which what was read up to `off` is followed by what another has there. */
  ghost function Followed(seen: Bytes, off: nat, data: Bytes): Bytes
    requires off <= |seen| && off <= |data|
  {
    seen[..off] + data[off..]
  }

  lemma FollowedIs(seen: Bytes, off: nat, data: Bytes)
    requires off <= |seen| && off <= |data|
    ensures var now := Followed(seen, off, data);
            && |now| == |data| && seen[..off] <= now && (forall i :: off <= i < |data| ==> now[i] == data[i])
            && (forall at :: at <= off ==> StartsLine(now, at) == StartsLine(seen, at))
  {}

  /** Logs that are the same from an offset on have the same lines from there. */
  lemma {:induction false} LinesAgree(a: Bytes, b: Bytes, from: nat, end: nat)
    requires end <= |a| == |b| && forall i :: from <= i < |a| ==> a[i] == b[i]
    ensures LinesIn(a, from, end) == LinesIn(b, from, end)
    decreases end - from
  {
    if from < end {
      EndsAgree(a, b, from, end);
      var e := LineEnd(a, from, end);
      assert a[from..e] == b[from..e];
      LinesAgree(a, b, e, end);
    }
  }

  lemma {:induction false} EndsAgree(a: Bytes, b: Bytes, from: nat, end: nat)
    requires from < end <= |a| == |b| && forall i :: from <= i < |a| ==> a[i] == b[i]
    ensures LineEnd(a, from, end) == LineEnd(b, from, end)
    decreases end - from
  {
    if a[from] != NEWLINE && from + 1 != end {
      EndsAgree(a, b, from + 1, end);
    }
  }

  /** A tail that reaches back to the head leaves nothing out. */
  lemma WholeSeen(data: Bytes, head: nat)
    requires head <= |data| && StartsLine(data, head)
    ensures var o := LastBreak(data, head);
            o == LastBreak(data, 0) && LinesIn(data, 0, head) + LinesIn(data, head, o) == Seen(data, 0, 0, o)
  {
    var o := LastBreak(data, head);
    BreakIs(data, 0, o);
    LinesSplit(data, 0, head, o);
    NoLines(data, 0);
  }

  /**
   What a reading that tore no line has been fed: the log's complete lines, in
   order and once each, but for those of one stretch.
   */
  lemma FedInOrder(data: Bytes, skipFrom: nat, skipTo: nat, off: nat)
    requires skipFrom <= skipTo <= |data| && StartsLine(data, skipFrom) && StartsLine(data, skipTo) && off == LastBreak(data, skipTo)
    ensures off == LastBreak(data, 0)
    ensures Complete(data, 0) == LinesIn(data, 0, skipFrom) + LinesIn(data, skipFrom, skipTo) + LinesIn(data, skipTo, off)
  {
    hide LinesIn, LineEnd;
    BreakIs(data, 0, off);
    LinesSplit(data, 0, skipFrom, off);
    LinesSplit(data, skipFrom, skipTo, off);
  }

  /** After a torn tail the rest of the line it tore is fed as a line of its own, which the log does not have. */
  lemma TornPiece(data: Bytes, skipFrom: nat, skipTo: nat, off: nat)
    requires skipFrom <= skipTo < off <= |data| && !StartsLine(data, skipTo)
    ensures HasLine(Seen(data, skipFrom, skipTo, off), skipTo) && !HasLine(Complete(data, 0), skipTo)
  {
    var b := LastBreak(data, 0);
    LinesSplit(data, 0, b, |data|);
    LineStarts(data, 0, skipTo);
    HasLineConcat(Complete(data, 0), LinesIn(data, b, |data|), skipTo);
    HasLineConcat(LinesIn(data, 0, skipFrom), LinesIn(data, skipTo, off), skipTo);
    assert LinesIn(data, skipTo, off)[0].off == skipTo;
  }

  /**
   What a reading was fed are lines of the log, all of them, if and only if it
   tore none or has yet to read past the tear.
   */
  lemma FedExactly<S(!new)>(r: Reading<S>)
    requires r.Valid() && r.scanner.Some?
    ensures (forall at :: HasLine(Seen(r.seen, r.skipFrom, r.skipTo, r.off), at) ==> HasLine(Complete(r.seen, 0), at))
            <==> r.Untorn() || r.skipTo == r.off
  {
    hide LinesIn, LineEnd, LastBreak, HasLine;
    var a, c := LinesIn(r.seen, 0, r.skipFrom), LinesIn(r.seen, r.skipTo, r.off);
    forall at ensures HasLine(a + c, at) <==> HasLine(a, at) || HasLine(c, at) {
      HasLineConcat(a, c, at);
    }
    if r.Untorn() {
      FedInOrder(r.seen, r.skipFrom, r.skipTo, r.off);
      var b := LinesIn(r.seen, r.skipFrom, r.skipTo);
      forall at ensures HasLine(a, at) || HasLine(c, at) ==> HasLine(a + b + c, at) {
        HasLineConcat(a + b, c, at);
        HasLineConcat(a, b, at);
      }
    } else if r.skipTo == r.off {
      HeadIn(r.seen, r.skipFrom);
      NoLines(r.seen, r.off);
      assert a + c == a;
    } else {
      TornPiece(r.seen, r.skipFrom, r.skipTo, r.off);
    }
  }

  lemma HeadIn(data: Bytes, head: nat)
    requires head <= |data| && StartsLine(data, head)
    ensures forall at :: HasLine(LinesIn(data, 0, head), at) ==> HasLine(Complete(data, 0), at)
  {
    hide LinesIn, LineEnd, HasLine;
    var b := LastBreak(data, head);
    BreakIs(data, 0, b);
    LinesSplit(data, 0, head, b);
    forall at ensures HasLine(LinesIn(data, 0, head), at) ==> HasLine(Complete(data, 0), at) {
      HasLineConcat(LinesIn(data, 0, head), LinesIn(data, head, b), at);
    }
  }

  /**
   A log of one unfinished line a byte too long tears: of that line, once it ends,
   only what came after the first read is fed, as if it were a line.
   */
  method Tears<S(!new)>(scan: Scanner<S>) returns (s: S, more: Bytes)
    ensures Complete(more, 0) == [Line(0, more)] && |more| == TAIL_MAX + 3
    ensures s == scan.feed(scan.start, [65, NEWLINE])
  {
    hide LastBreak, PromptEnd, LinesIn, LineEnd, Fed;
    var data: Bytes := seq(TAIL_MAX + 1, _ => 65);
    more := data + [65, NEWLINE];
    var r := new Reading(scan, true);
    var first, c := r.Read(data, false);
    assert LongEnd(data);
    PromptNext(scan, scan.start, data, 0, HEAD_MAX);
    assert r.skipFrom == 0 && r.skipTo == |data| == r.off;
    s, c := r.Read(more, false);
    TornLine(scan, data, more);
  }

  lemma TornLine<S>(scan: Scanner<S>, data: Bytes, more: Bytes)
    requires more == data + [65, NEWLINE] && data != [] && NEWLINE !in data
    ensures Complete(more, 0) == [Line(0, more)] && LastBreak(more, |data|) == |more|
    ensures Fed(scan, Seen(more, 0, |data|, |more|)) == scan.feed(scan.start, [65, NEWLINE])
  {
    hide LinesIn, LineEnd;
    BreakIs(more, 0, |more|);
    BreakIs(more, |data|, |more|);
    LastLine(more, 0);
    LastLine(more, |data|);
    NoLines(more, 0);
    var lines := [Line(|data|, more[|data|..])];
    assert Seen(more, 0, |data|, |more|) == lines && lines[..0] == [] && lines[0].body == [65, NEWLINE];
  }

  /** A whole reading holds what one fold over all the complete lines does. */
  lemma WholeIsFold<S(!new)>(r: Reading<S>)
    requires r.Valid() && r.whole && r.scanner.Some?
    ensures r.scanner.value == Fed(r.scan, Complete(r.seen, 0))
  {
    NoLines(r.seen, 0);
    assert Seen(r.seen, 0, 0, r.off) == Complete(r.seen, 0);
  }

  /**
   When the scanner keeps the latest prompt's time, any reading's last input is
   that of one over all the complete lines, unless the lines after the skipped
   ones hold no prompt.
   */
  lemma LatestInput<S(!new)>(r: Reading<S>, mark: Bytes -> Option<int>)
    requires r.Valid() && r.scanner.Some? && r.Untorn() && KeepsLatest(r.scan, mark) && r.Current(mark)
    ensures r.scan.lastInput(r.scanner.value) == r.scan.lastInput(Fed(r.scan, Complete(r.seen, 0)))
  {
    hide LinesIn, LineEnd, LastBreak;
    var a, c := LinesIn(r.seen, 0, r.skipFrom), LinesIn(r.seen, r.skipTo, r.off);
    var b := LinesIn(r.seen, r.skipFrom, r.skipTo);
    FedInOrder(r.seen, r.skipFrom, r.skipTo, r.off);
    if r.skipFrom == r.skipTo {
      NoLines(r.seen, r.skipTo);
      assert a + b + c == a + c;
    } else {
      InputOf(r.scan, mark, a, a + b, c);
    }
  }
}
