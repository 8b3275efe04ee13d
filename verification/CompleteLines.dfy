/** The complete lines of a log that is still being written: those that have their newline. */
module CompleteLines {
  import opened Lines

  /** The offset after the last newline in `data[from..]`, or `from` when there is none. */
  function LastBreak(data: Bytes, from: nat): (b: nat)
    requires from <= |data|
    ensures from <= b <= |data| && (b == from || data[b - 1] == NEWLINE)
    ensures forall i :: b <= i < |data| ==> data[i] != NEWLINE
    decreases |data|
  {
    if from == |data| || data[|data| - 1] == NEWLINE then |data| else LastBreak(data[..|data| - 1], from)
  }

  lemma {:induction false} BreakIs(data: Bytes, from: nat, b: nat)
    requires from <= b <= |data| && (b == from || data[b - 1] == NEWLINE)
    requires forall i :: b <= i < |data| ==> data[i] != NEWLINE
    ensures LastBreak(data, from) == b
    decreases |data|
  {
    if b < |data| {
      BreakIs(data[..|data| - 1], from, b);
    }
  }

  function Complete(data: Bytes, from: nat): seq<Line<Bytes>>
    requires from <= |data|
  {
    LinesIn(data, from, LastBreak(data, from))
  }

  /** A line that has its newline is what it was, whatever is appended. */
  lemma {:induction false} LinesPrefix(data: Bytes, more: Bytes, from: nat, end: nat)
    requires end <= |data| && data <= more
    ensures LinesIn(more, from, end) == LinesIn(data, from, end)
    decreases end - from
  {
    assert forall i :: 0 <= i < |data| ==> more[i] == data[i];
    if from < end {
      EndPrefix(data, more, from, end);
      var e := LineEnd(data, from, end);
      assert more[from..e] == data[from..e];
      LinesPrefix(data, more, e, end);
    }
  }

  lemma {:induction false} EndPrefix(data: Bytes, more: Bytes, from: nat, end: nat)
    requires from < end <= |data| && data <= more
    ensures LineEnd(more, from, end) == LineEnd(data, from, end)
    decreases end - from
  {
    assert more[from] == data[from];
    if data[from] != NEWLINE && from + 1 != end {
      EndPrefix(data, more, from + 1, end);
    }
  }

  /** Reading on from the last break adds exactly the lines completed since. */
  lemma CompleteGrows(data: Bytes, more: Bytes, from: nat)
    requires from <= |data| && data <= more
    ensures var b := LastBreak(data, from);
            && LastBreak(more, from) == LastBreak(more, b)
            && Complete(more, from) == Complete(data, from) + Complete(more, b)
  {
    hide LinesIn, LineEnd;
    var b := LastBreak(data, from);
    var c := LastBreak(more, b);
    assert b == from || more[b - 1] == data[b - 1];
    BreakIs(more, from, c);
    LinesPrefix(data, more, from, b);
    if b == from {
      NoLines(more, from);
    } else {
      LinesSplit(more, from, b, c);
    }
  }

  lemma NoLines(data: Bytes, at: nat)
    requires at <= |data|
    ensures LinesIn(data, at, at) == []
  {}

  /** A stretch whose one newline ends it is one line. */
  lemma {:induction false} LastLine(data: Bytes, b: nat)
    requires b < |data| && data[|data| - 1] == NEWLINE && forall i :: b <= i < |data| - 1 ==> data[i] != NEWLINE
    ensures LinesIn(data, b, |data|) == [Line(b, data[b..])]
  {
    EndAt(data, b);
    NoLines(data, |data|);
    assert data[b..|data|] == data[b..];
  }

  lemma {:induction false} EndAt(data: Bytes, b: nat)
    requires b < |data| && data[|data| - 1] == NEWLINE && forall i :: b <= i < |data| - 1 ==> data[i] != NEWLINE
    ensures LineEnd(data, b, |data|) == |data|
    decreases |data| - b
  {
    if b + 1 < |data| {
      EndAt(data, b + 1);
    }
  }
}
