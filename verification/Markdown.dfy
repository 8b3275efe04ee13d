/**
 Disarming markdown for Feishu: `<` is escaped everywhere but in fenced blocks
 and code spans. A line is read as tokens: characters, backtick runs that close
 nothing, and code spans.
 */
module Markdown {
  import opened Options
  import opened Text

  const TICK := '`'
  const ENTITY := "&#60;"

  datatype Token = Lit(c: char) | Ticks(n: nat) | Code(n: nat, body: string)

  /** `backtickRun` */
  function Run(s: string): (n: nat)
    ensures n <= |s|
  {
    if s == [] || s[0] != TICK then 0 else 1 + Run(s[1..])
  }

  /** A run is all backticks, and what follows it is not one. */
  lemma {:induction false} RunIs(s: string)
    ensures s[..Run(s)] == Backticks(Run(s)) && NoTickFirst(s[Run(s)..])
  {
    if s != [] && s[0] == TICK {
      RunIs(s[1..]);
      assert s[Run(s)..] == s[1..][Run(s) - 1..];
      assert s[..Run(s)] == [TICK] + s[1..][..Run(s) - 1];
    }
  }

  /** `findClosingRun`: the first backtick run of exactly `n`. */
  function Find(s: string, n: nat): (k: Option<nat>)
    ensures k.Some? ==> k.value + n <= |s| && (0 < n ==> Run(s[k.value..]) == n)
    decreases |s|
  {
    if s == [] then None
    else if s[0] != TICK then Later(Find(s[1..], n), 1)
    else
      var run := Run(s);
      if run == n then Some(0) else Later(Find(s[run..], n), run)
  }

  function Later(k: Option<nat>, more: nat): Option<nat>
  {
    if k.Some? then Some(k.value + more) else None
  }

  /** The first token of a line, and how much of the line it takes. */
  function First(s: string): (r: (Token, nat))
    requires s != []
    ensures 0 < r.1 <= |s|
  {
    if s[0] != TICK then (Lit(s[0]), 1)
    else
      var n := Run(s);
      var k := Find(s[n..], n);
      if k.Some? then (Code(n, s[n..n + k.value]), n + k.value + n) else (Ticks(n), n)
  }

  function Tokens(s: string): seq<Token>
    decreases |s|
  {
    if s == [] then [] else [First(s).0] + Tokens(s[First(s).1..])
  }

  function Backticks(n: nat): (s: string)
    ensures |s| == n && forall i :: 0 <= i < n ==> s[i] == TICK
  {
    seq(n, _ => TICK)
  }

  function TokenText(t: Token): string
  {
    match t
    case Lit(c) => [c]
    case Ticks(n) => Backticks(n)
    case Code(n, body) => Backticks(n) + body + Backticks(n)
  }

  function TextOf(tokens: seq<Token>): string
  {
    if tokens == [] then "" else TokenText(tokens[0]) + TextOf(tokens[1..])
  }

  function Entity(): seq<Token>
  {
    [Lit('&'), Lit('#'), Lit('6'), Lit('0'), Lit(';')]
  }

  /** The tokens with `<` written out wherever it stands as a character. */
  function Escaped(tokens: seq<Token>): (r: seq<Token>)
    ensures forall i :: 0 <= i < |r| ==> r[i] != Lit('<')
  {
    if tokens == [] then []
    else (if tokens[0] == Lit('<') then Entity() else [tokens[0]]) + Escaped(tokens[1..])
  }

  /** `escapeOutsideCodeSpans` */
  function Escape(s: string): string
    decreases |s|
  {
    if s == [] then "" else (if s[0] == '<' then ENTITY else s[..First(s).1]) + Escape(s[First(s).1..])
  }

  lemma Unfold(s: string)
    requires s != []
    ensures Tokens(s) == [First(s).0] + Tokens(s[First(s).1..])
    ensures Escape(s) == (if s[0] == '<' then ENTITY else s[..First(s).1]) + Escape(s[First(s).1..])
  {
    hide First;
  }

  /** A run of exactly `n` backticks stands at `k`. */
  ghost predicate RunAt(s: string, k: nat, n: nat)
  {
    && k + n <= |s| && (forall i :: k <= i < k + n ==> s[i] == TICK)
    && (k == 0 || s[k - 1] != TICK) && (k + n == |s| || s[k + n] != TICK)
  }

  lemma {:induction false} RunThere(s: string)
    ensures var n := Run(s); n <= |s| && (forall i :: 0 <= i < n ==> s[i] == TICK) && (n < |s| ==> s[n] != TICK)
  {
    if s != [] && s[0] == TICK {
      RunThere(s[1..]);
    }
  }

  /** What closes a span is the first run of exactly its length, and nothing does when there is none. */
  lemma {:induction false} FindIs(s: string, n: nat)
    requires n > 0
    ensures Find(s, n).Some? ==> RunAt(s, Find(s, n).value, n) && forall j: nat :: j < Find(s, n).value ==> !RunAt(s, j, n)
    ensures Find(s, n).None? ==> forall j: nat :: !RunAt(s, j, n)
    decreases |s|
  {
    hide RunAt, Run;
    if s != [] && s[0] != TICK {
      FindIs(s[1..], n);
      RunsPast1(s, n);
    } else if s != [] {
      RunsPastRun(s, n);
      if Run(s) != n {
        FindIs(s[Run(s)..], n);
      }
    } else {
      NoRuns(n);
    }
  }

  lemma NoRuns(n: nat)
    requires n > 0
    ensures forall j: nat :: !RunAt("", j, n)
  {}

  lemma RunsPast1(s: string, n: nat)
    requires n > 0 && s != [] && s[0] != TICK
    ensures !RunAt(s, 0, n) && forall j: nat :: j > 0 ==> (RunAt(s, j, n) <==> RunAt(s[1..], j - 1, n))
  {
    assert !RunAt(s, 0, n);
    hide RunAt;
    forall j: nat | j > 0 ensures RunAt(s, j, n) <==> RunAt(s[1..], j - 1, n) {
      RunShift(s, 1, j, n);
    }
  }

  lemma RunsPastRun(s: string, n: nat)
    requires n > 0 && s != [] && s[0] == TICK
    ensures var run := Run(s);
            && 0 < run <= |s| && (RunAt(s, 0, n) <==> run == n) && (forall j: nat :: 0 < j < run ==> !RunAt(s, j, n))
            && forall j: nat :: j >= run ==> (RunAt(s, j, n) <==> RunAt(s[run..], j - run, n))
  {
    hide Run;
    RunThere(s);
    var run := Run(s);
    assert RunAt(s, 0, n) <==> run == n;
    assert forall j: nat :: 0 < j < run ==> !RunAt(s, j, n);
    forall j: nat | j >= run ensures RunAt(s, j, n) <==> RunAt(s[run..], j - run, n) {
      if j > run {
        RunShift(s, run, j, n);
      } else {
        assert run < |s| ==> s[run..][0] == s[run];
      }
    }
  }

  lemma RunShift(s: string, m: nat, j: nat, n: nat)
    requires m <= |s| && (m < j || (m == j > 0 && s[m - 1] != TICK))
    ensures RunAt(s, j, n) <==> RunAt(s[m..], j - m, n)
  {
    var t := s[m..];
    assert forall i :: m <= i < |s| ==> s[i] == t[i - m];
    if RunAt(t, j - m, n) {
      assert forall i :: j <= i < j + n ==> s[i] == t[i - m];
    }
  }

  /** At backticks a line is a code span if their run's length occurs again as a run, up to the first such, and else just the run. */
  lemma FirstIs(s: string)
    requires s != []
    ensures s[0] != TICK ==> First(s) == (Lit(s[0]), 1)
    ensures s[0] == TICK ==>
              exists n: nat :: n > 0 && RunAt(s, 0, n)
                && ((forall j: nat :: !RunAt(s[n..], j, n)) ==> First(s) == (Ticks(n), n))
                && (forall j: nat :: RunAt(s[n..], j, n) && (forall i: nat :: i < j ==> !RunAt(s[n..], i, n)) ==>
                      First(s) == (Code(n, s[n..n + j]), n + j + n))
  {
    hide RunAt, Find, Run;
    if s[0] == TICK {
      var n := Run(s);
      RunFirstAt(s);
      FindIs(s[n..], n);
      assert First(s) == var k := Find(s[n..], n); if k.Some? then (Code(n, s[n..n + k.value]), n + k.value + n) else (Ticks(n), n);
    }
  }

  lemma RunFirstAt(s: string)
    requires s != [] && s[0] == TICK
    ensures Run(s) > 0 && RunAt(s, 0, Run(s))
  {
    RunThere(s);
  }

  /** A `<` written out, any other token as it is. */
  function WrittenOut(t: Token): seq<Token>
  {
    if t == Lit('<') then [Lit('&'), Lit('#'), Lit('6'), Lit('0'), Lit(';')] else [t]
  }

  /** The entity stands exactly where a `<` stood as a character; every other token is as it was. */
  lemma {:induction false} EscapedSplit(a: seq<Token>, t: Token, b: seq<Token>)
    ensures Escaped(a + [t] + b) == Escaped(a) + WrittenOut(t) + Escaped(b) && Escaped([]) == []
    decreases |a|
  {
    hide Escaped, WrittenOut;
    EscapedNothing();
    if a == [] {
      assert a + [t] + b == [t] + b && Escaped(a) + WrittenOut(t) == WrittenOut(t);
      EscapedOn(t, b);
    } else {
      var tail := a[1..] + [t] + b;
      assert a + [t] + b == [a[0]] + tail && a == [a[0]] + a[1..];
      EscapedSplit(a[1..], t, b);
      EscapedOn(a[0], tail);
      EscapedOn(a[0], a[1..]);
      Regrouped(WrittenOut(a[0]), Escaped(a[1..]), WrittenOut(t), Escaped(b));
    }
  }

  lemma EscapedOn(t: Token, rest: seq<Token>)
    ensures Escaped([t] + rest) == WrittenOut(t) + Escaped(rest)
  {
    hide Escaped;
    EscapedFirst(t, rest);
  }

  lemma Regrouped(a: seq<Token>, b: seq<Token>, c: seq<Token>, d: seq<Token>)
    ensures a + (b + c + d) == a + b + c + d
  {}

  lemma EscapedNothing()
    ensures Escaped([]) == []
  {}

  // ------------------------------------------------------ the code's loops

  method BacktickRun(s: string, at: nat) returns (n: nat)
    requires at <= |s|
    ensures n == Run(s[at..])
  {
    n := 0;
    while at + n < |s| && s[at + n] == TICK
      invariant at + n <= |s| && Run(s[at..]) == n + Run(s[at + n..])
    {
      assert s[at + n..][1..] == s[at + n + 1..];
      n := n + 1;
    }
  }

  lemma FindStep(s: string, i: nat, n: nat)
    requires i < |s|
    ensures s[i] != TICK ==> Find(s[i..], n) == Later(Find(s[i + 1..], n), 1)
    ensures s[i] == TICK ==> var run := Run(s[i..]);
              && 0 < run && i + run <= |s|
              && Find(s[i..], n) == if run == n then Some(0) else Later(Find(s[i + run..], n), run)
  {
    hide Run;
    var rest := s[i..];
    if s[i] == TICK { TickRuns(rest); }
    assert rest[1..] == s[i + 1..] && rest[Run(rest)..] == s[i + Run(rest)..];
  }

  method FindClosingRun(s: string, from: nat, n: nat) returns (k: Option<nat>)
    requires from <= |s|
    ensures k == Find(s[from..], n)
  {
    hide Find, Run;
    var i := from;
    while i < |s|
      invariant from <= i <= |s| && Find(s[from..], n) == Later(Find(s[i..], n), i - from)
    {
      FindStep(s, i, n);
      if s[i] != TICK {
        i := i + 1;
        continue;
      }
      var run := BacktickRun(s, i);
      if run == n {
        return Some(i - from);
      }
      i := i + run;
    }
    FindNothing(n);
    return None;
  }

  lemma FindNothing(n: nat)
    ensures Find("", n) == None
  {}

  lemma EscapeStep(s: string, i: nat)
    requires i < |s|
    ensures var m := First(s[i..]).1;
            && i + m <= |s| && Escape(s[i..]) == (if s[i] == '<' then ENTITY else s[i..i + m]) + Escape(s[i + m..])
            && (s[i] != TICK ==> m == 1)
            && (s[i] == TICK ==> var run := Run(s[i..]);
                                 && 0 < run && i + run <= |s|
                                 && m == match Find(s[i + run..], run) case Some(k) => run + k + run case None => run)
  {
    hide Run, Find, Escape;
    var rest := s[i..];
    var m := First(rest).1;
    Unfold(rest);
    Slices(s, i, m);
    if s[i] == TICK {
      TickRuns(rest);
      Slices(s, i, Run(rest));
    }
  }

  lemma Slices(s: string, i: nat, m: nat)
    requires i + m <= |s|
    ensures s[i..][..m] == s[i..i + m] && s[i..][m..] == s[i + m..]
  {}

  method EscapeOutsideCodeSpans(line: string) returns (out: string)
    ensures out == Escape(line)
  {
    hide Run, Find, Escape, First;
    out := "";
    var i := 0;
    assert line[0..] == line;
    while i < |line|
      invariant i <= |line| && Escape(line) == out + Escape(line[i..])
    {
      EscapeStep(line, i);
      if line[i] != TICK {
        out := out + if line[i] == '<' then ENTITY else [line[i]];
        i := i + 1;
        continue;
      }
      var run := BacktickRun(line, i);
      var end := FindClosingRun(line, i + run, run);
      if end.Some? {
        out := out + line[i..i + run + end.value + run];
        i := i + run + end.value + run;
        continue;
      }
      out := out + line[i..i + run];
      i := i + run;
    }
    EscapeNothing();
    assert line[i..] == "";
  }

  lemma EscapeNothing()
    ensures Escape("") == ""
  {}

  lemma TickRuns(s: string)
    requires s != [] && s[0] == TICK
    ensures Run(s) > 0
  {}

  // ---------------------------------------------------------- runs survive

  /** The lengths of a line's backtick runs, in order. */
  ghost function Runs(s: string): seq<nat>
    decreases |s|
  {
    if s == [] then [] else if s[0] != TICK then Runs(s[1..]) else [Run(s)] + Runs(s[Run(s)..])
  }

  ghost predicate NoTickFirst(s: string)
  {
    s == [] || s[0] != TICK
  }

  lemma {:induction false} RunConcat(p: string, r: string)
    requires NoTickFirst(r)
    ensures Run(p + r) == Run(p)
  {
    if p == [] {
      assert p + r == r;
    } else if p[0] == TICK {
      assert (p + r)[1..] == p[1..] + r;
      RunConcat(p[1..], r);
    }
  }

  lemma {:induction false} RunsConcat(p: string, r: string)
    requires NoTickFirst(r)
    ensures Runs(p + r) == Runs(p) + Runs(r)
    decreases |p|
  {
    if p == [] {
      assert p + r == r;
    } else if p[0] != TICK {
      assert (p + r)[1..] == p[1..] + r;
      RunsConcat(p[1..], r);
    } else {
      RunConcat(p, r);
      assert (p + r)[Run(p)..] == p[Run(p)..] + r;
      RunsConcat(p[Run(p)..], r);
    }
  }

  /** A closing run is found exactly when there is a run of that length. */
  lemma {:induction false} FindInRuns(s: string, n: nat)
    ensures Find(s, n).Some? <==> n in Runs(s)
    decreases |s|
  {
    if s != [] {
      FindInRuns(if s[0] != TICK then s[1..] else s[Run(s)..], n);
    }
  }

  /** What is found stays found when what follows it changes. */
  lemma {:induction false} FindConcat(p: string, r: string, n: nat)
    requires NoTickFirst(r) && Find(p, n).Some?
    ensures Find(p + r, n) == Find(p, n)
    decreases |p|
  {
    RunConcat(p, r);
    assert (p + r)[0] == p[0];
    if p[0] != TICK {
      assert (p + r)[1..] == p[1..] + r;
      FindConcat(p[1..], r, n);
    } else if Run(p) != n {
      assert (p + r)[Run(p)..] == p[Run(p)..] + r;
      FindConcat(p[Run(p)..], r, n);
    }
  }

  lemma EscapeHead(s: string)
    ensures NoTickFirst(Escape(s)) <==> NoTickFirst(s)
    ensures Escape(s) == [] <==> s == []
  {
    if s != [] && s[0] == TICK { TickRuns(s); }
  }

  // ------------------------------------------- lines as concatenated pieces

  lemma {:induction false} RunOfTicks(n: nat)
    ensures Run(Backticks(n)) == n && (n > 0 ==> Backticks(n)[0] == TICK)
  {
    if n > 0 {
      RunOfTicks(n - 1);
      assert Backticks(n)[1..] == Backticks(n - 1);
    }
  }

  /** A line that opens with backticks is a run of them and the rest. */
  lemma SplitRun(s: string) returns (n: nat, rest: string)
    requires !NoTickFirst(s)
    ensures 0 < n == Run(s) && s == Backticks(n) + rest && rest == s[n..] && NoTickFirst(rest)
  {
    hide Run;
    TickRuns(s);
    RunIs(s);
    n := Run(s);
    rest := s[n..];
    assert s == s[..n] + s[n..];
  }

  /** A run of `n` before anything but a backtick is read as one. */
  lemma RunFirst(n: nat, rest: string)
    requires 0 < n && NoTickFirst(rest)
    ensures var s := Backticks(n) + rest; s != [] && s[0] == TICK && Run(s) == n && s[n..] == rest
  {
    RunOfTicks(n);
    RunConcat(Backticks(n), rest);
    assert (Backticks(n) + rest)[0] == Backticks(n)[0];
  }

  lemma FindChar(c: char, rest: string, n: nat)
    requires c != TICK
    ensures Find([c] + rest, n) == Later(Find(rest, n), 1)
  {
    assert ([c] + rest)[1..] == rest;
  }

  lemma FindRun(m: nat, rest: string, n: nat)
    requires 0 < m && NoTickFirst(rest)
    ensures Find(Backticks(m) + rest, n) == if m == n then Some(0) else Later(Find(rest, n), m)
  {
    hide Run, Backticks;
    RunFirst(m, rest);
  }

  /** A code span, its delimiters and what follows it, up to where it closes. */
  ghost predicate Closes(n: nat, body: string, rest: string)
  {
    0 < n && NoTickFirst(rest) && Find(body + Backticks(n), n) == Some(|body|)
  }

  lemma ClosesHere(n: nat, rest: string)
    requires 0 < n && NoTickFirst(rest)
    ensures Closes(n, [], rest) && [] + Backticks(n) + rest == Backticks(n) + rest
  {
    hide Find, Run, Backticks;
    FindRun(n, [], n);
    assert [] + Backticks(n) == Backticks(n) + [];
  }

  lemma ClosesAfterChar(c: char, n: nat, body: string, rest: string)
    requires c != TICK && Closes(n, body, rest)
    ensures Closes(n, [c] + body, rest) && [c] + body + Backticks(n) + rest == [c] + (body + Backticks(n) + rest)
  {
    hide Find, Run, Backticks;
    FindChar(c, body + Backticks(n), n);
    assert [c] + body + Backticks(n) == [c] + (body + Backticks(n));
  }

  lemma ClosesAfterRun(m: nat, n: nat, body: string, rest: string)
    requires 0 < m != n && Closes(n, body, rest) && NoTickFirst(body + Backticks(n) + rest)
    ensures Closes(n, Backticks(m) + body, rest)
    ensures Backticks(m) + body + Backticks(n) + rest == Backticks(m) + (body + Backticks(n) + rest)
  {
    hide Find, Run, Backticks;
    assert (body + Backticks(n) + rest)[0] == (body + Backticks(n))[0];
    FindRun(m, body + Backticks(n), n);
    assert Backticks(m) + body + Backticks(n) == Backticks(m) + (body + Backticks(n));
  }

  /** A closing run splits the line there. */
  lemma {:induction false} FindSplit(s: string, n: nat) returns (body: string, rest: string)
    requires 0 < n && Find(s, n).Some?
    ensures Find(s, n) == Some(|body|) && s == body + Backticks(n) + rest && Closes(n, body, rest)
    ensures NoTickFirst(s) ==> body != [] && body[0] != TICK
    decreases |s|
  {
    hide Find, Run, Backticks, Closes;
    FindNothing(n);
    if NoTickFirst(s) {
      var c := s[0];
      assert s == [c] + s[1..];
      FindChar(c, s[1..], n);
      var b;
      b, rest := FindSplit(s[1..], n);
      body := [c] + b;
      ClosesAfterChar(c, n, b, rest);
    } else {
      var m, after := SplitRun(s);
      FindRun(m, after, n);
      if m == n {
        body, rest := [], after;
        ClosesHere(n, rest);
      } else {
        var b;
        b, rest := FindSplit(after, n);
        body := Backticks(m) + b;
        ClosesAfterRun(m, n, b, rest);
      }
    }
  }

  /** A line that is known to open with a token is read and escaped as that and the rest. */
  lemma Opens(t: Token, piece: string, rest: string)
    requires piece != [] && First(piece + rest) == (t, |piece|)
    ensures Tokens(piece + rest) == [t] + Tokens(rest)
    ensures Escape(piece + rest) == (if piece[0] == '<' then ENTITY else piece) + Escape(rest)
  {
    hide First;
    var s := piece + rest;
    Unfold(s);
    assert s[..|piece|] == piece && s[|piece|..] == rest;
  }

  lemma CharFirst(c: char, rest: string)
    requires c != TICK
    ensures Escape([c] + rest) == (if c == '<' then ENTITY else [c]) + Escape(rest)
    ensures Tokens([c] + rest) == [Lit(c)] + Tokens(rest) && Runs([c] + rest) == Runs(rest)
  {
    hide Escape, Tokens;
    assert ([c] + rest)[1..] == rest;
    Opens(Lit(c), [c], rest);
  }

  /** A run that nothing closes. */
  lemma TicksFirst(n: nat, rest: string)
    requires 0 < n && NoTickFirst(rest) && Find(rest, n) == None
    ensures Escape(Backticks(n) + rest) == Backticks(n) + Escape(rest)
    ensures Tokens(Backticks(n) + rest) == [Ticks(n)] + Tokens(rest)
  {
    hide Find, Run, Backticks, Escape, Tokens;
    RunFirst(n, rest);
    Opens(Ticks(n), Backticks(n), rest);
  }

  ghost function SpanText(n: nat, body: string): string
  {
    Backticks(n) + body + Backticks(n)
  }

  /** A code span. */
  lemma SpanFirst(n: nat, body: string, rest: string)
    requires Closes(n, body, rest) && body != [] && body[0] != TICK
    ensures Escape(SpanText(n, body) + rest) == SpanText(n, body) + Escape(rest)
    ensures Tokens(SpanText(n, body) + rest) == [Code(n, body)] + Tokens(rest)
  {
    hide Find, Run, Backticks, Escape, Tokens, SpanText, Closes;
    SpanShape(n, body, rest);
    Opens(Code(n, body), SpanText(n, body), rest);
  }

  lemma SpanShape(n: nat, body: string, rest: string)
    requires Closes(n, body, rest) && body != [] && body[0] != TICK
    ensures |SpanText(n, body)| == n + |body| + n && SpanText(n, body)[0] == TICK
    ensures var s := SpanText(n, body) + rest;
            s[0] == TICK && Run(s) == n && Find(s[n..], n) == Some(|body|) && s[n..n + |body|] == body
  {
    hide Find, Run, Backticks;
    var ticks := Backticks(n);
    RunFirst(n, body + ticks + rest);
    FindConcat(body + ticks, rest, n);
    Cut(ticks, body, ticks, rest);
  }

  lemma Cut(open: string, body: string, close: string, rest: string)
    ensures var s, m := open + (body + close + rest), |open| + |body| + |close|;
            && s == open + body + close + rest
            && s[..m] == open + body + close && s[m..] == rest && s[|open|..|open| + |body|] == body
  {}

  lemma EntityFirst(rest: string)
    ensures Runs(ENTITY + rest) == Runs(rest) && Tokens(ENTITY + rest) == Entity() + Tokens(rest)
  {
    hide Runs, Tokens, Escape, First;
    var a := [';'] + rest;
    var b := ['0'] + a;
    var c := ['6'] + b;
    var d := ['#'] + c;
    CharFirst(';', rest);
    CharFirst('0', a);
    CharFirst('6', b);
    CharFirst('#', c);
    CharFirst('&', d);
    assert ENTITY + rest == ['&'] + d;
    var t := Tokens(rest);
    assert [Lit('&')] + ([Lit('#')] + ([Lit('6')] + ([Lit('0')] + ([Lit(';')] + t)))) == Entity() + t;
  }

  /** Escaping changes no backtick run. */
  lemma {:induction false} EscapeRuns(s: string)
    ensures Runs(Escape(s)) == Runs(s)
    decreases |s|
  {
    hide Find, Run, Escape, Runs, Backticks, First;
    if s == [] {
      EscapeNothing();
    } else if s[0] != TICK {
      var c, rest := s[0], s[1..];
      assert s == [c] + rest;
      EscapeRuns(rest);
      CharFirst(c, rest);
      EntityFirst(Escape(rest));
      CharFirst(c, Escape(rest));
    } else {
      var n, after := SplitRun(s);
      if Find(after, n).Some? {
        var body, rest := FindSplit(after, n);
        assert s == SpanText(n, body) + rest;
        EscapeRuns(rest);
        SpanFirst(n, body, rest);
        RunsPast(SpanText(n, body), rest);
      } else {
        EscapeRuns(after);
        TicksFirst(n, after);
        RunsPast(Backticks(n), after);
      }
    }
  }

  lemma RunsPast(first: string, rest: string)
    requires NoTickFirst(rest) && Runs(Escape(rest)) == Runs(rest)
    ensures Runs(first + Escape(rest)) == Runs(first + rest)
  {
    EscapeHead(rest);
    RunsConcat(first, rest);
    RunsConcat(first, Escape(rest));
  }

  // ------------------------------------------------------ what it comes to

  /**
   Read again by the same rules, an escaped line is the line it was, token for
   token, but that `<` is written out where it stood as a character.
   */
  lemma {:induction false} EscapeTokens(s: string)
    ensures Tokens(Escape(s)) == Escaped(Tokens(s))
    decreases |s|
  {
    hide Find, Run, Escape, Tokens, Escaped, Backticks, First, SpanText, NoTickFirst, Closes;
    if s == [] {
      NothingLeft();
    } else if s[0] != TICK {
      assert s == [s[0]] + s[1..];
      EscapeTokens(s[1..]);
      CharTokens(s[0], s[1..]);
    } else {
      TickFirst(s);
      var n, after := SplitRun(s);
      if Find(after, n).Some? {
        var body, rest := FindSplit(after, n);
        SpanLess(s, n, after, body, rest);
        EscapeTokens(rest);
        SpanTokens(n, body, rest);
      } else {
        EscapeTokens(after);
        TicksTokens(n, after);
      }
    }
  }

  lemma TickFirst(s: string)
    requires s != [] && s[0] == TICK
    ensures !NoTickFirst(s)
  {}

  lemma SpanLess(s: string, n: nat, after: string, body: string, rest: string)
    requires s == Backticks(n) + after && after == body + Backticks(n) + rest && n > 0
    ensures s == SpanText(n, body) + rest && |rest| < |s|
  {}

  lemma CharTokens(c: char, rest: string)
    requires c != TICK && Tokens(Escape(rest)) == Escaped(Tokens(rest))
    ensures Tokens(Escape([c] + rest)) == Escaped(Tokens([c] + rest))
  {
    hide Escape, Tokens, Escaped;
    CharFirst(c, rest);
    CharFirst(c, Escape(rest));
    EntityFirst(Escape(rest));
    EscapedFirst(Lit(c), Tokens(rest));
  }

  lemma SpanTokens(n: nat, body: string, rest: string)
    requires Closes(n, body, rest) && body != [] && body[0] != TICK
    requires Tokens(Escape(rest)) == Escaped(Tokens(rest))
    ensures Tokens(Escape(SpanText(n, body) + rest)) == Escaped(Tokens(SpanText(n, body) + rest))
  {
    hide Find, Run, Escape, Tokens, Escaped, Backticks, First, SpanText;
    EscapeHead(rest);
    SpanFirst(n, body, rest);
    SpanFirst(n, body, Escape(rest));
    EscapedFirst(Code(n, body), Tokens(rest));
  }

  lemma TicksTokens(n: nat, after: string)
    requires 0 < n && NoTickFirst(after) && Find(after, n) == None
    requires Tokens(Escape(after)) == Escaped(Tokens(after))
    ensures Tokens(Escape(Backticks(n) + after)) == Escaped(Tokens(Backticks(n) + after))
  {
    hide Find, Run, Escape, Tokens, Escaped, Backticks, First;
    EscapeHead(after);
    EscapeRuns(after);
    FindInRuns(after, n);
    FindInRuns(Escape(after), n);
    TicksFirst(n, after);
    TicksFirst(n, Escape(after));
    EscapedFirst(Ticks(n), Tokens(after));
  }

  lemma NothingLeft()
    ensures Tokens(Escape("")) == [] && Escaped(Tokens("")) == [] && TextOf(Tokens("")) == ""
  {}

  lemma EscapedFirst(t: Token, rest: seq<Token>)
    ensures Escaped([t] + rest) == (if t == Lit('<') then Entity() else [t]) + Escaped(rest)
    ensures TextOf([t] + rest) == TokenText(t) + TextOf(rest)
  {
    assert ([t] + rest)[1..] == rest;
  }

  /** A line's tokens are the line. */
  lemma {:induction false} TokensText(s: string)
    ensures TextOf(Tokens(s)) == s
    decreases |s|
  {
    hide Find, Run, Tokens, TextOf, Escaped, Backticks, First;
    if s == [] {
      NothingLeft();
    } else if s[0] != TICK {
      var c, rest := s[0], s[1..];
      assert s == [c] + rest;
      TokensText(rest);
      CharFirst(c, rest);
      EscapedFirst(Lit(c), Tokens(rest));
    } else {
      var n, after := SplitRun(s);
      if Find(after, n).Some? {
        var body, rest := FindSplit(after, n);
        assert s == SpanText(n, body) + rest;
        TokensText(rest);
        SpanFirst(n, body, rest);
        EscapedFirst(Code(n, body), Tokens(rest));
      } else {
        TokensText(after);
        TicksFirst(n, after);
        EscapedFirst(Ticks(n), Tokens(after));
      }
    }
  }

  /** Escaping what is escaped changes nothing. */
  lemma EscapeTwice(s: string)
    ensures Escape(Escape(s)) == Escape(s)
  {
    EscapeTokens(s);
    EscapeTokens(Escape(s));
    EscapedAgain(Escaped(Tokens(s)));
    TokensText(Escape(Escape(s)));
    TokensText(Escape(s));
  }

  lemma {:induction false} EscapedAgain(tokens: seq<Token>)
    requires forall i :: 0 <= i < |tokens| ==> tokens[i] != Lit('<')
    ensures Escaped(tokens) == tokens
  {
    if tokens != [] {
      EscapedAgain(tokens[1..]);
    }
  }

  // ----------------------------------------------------------------- lines

  function LeadingSpaces(s: string): (n: nat)
    ensures n <= |s|
  {
    if s == [] || s[0] != ' ' then 0 else 1 + LeadingSpaces(s[1..])
  }

  /** `isFenceLine` */
  predicate IsFence(line: string)
  {
    LeadingSpaces(line) <= 3 && Run(line[LeadingSpaces(line)..]) >= 3
  }

  /** A fence line: three spaces at most, then three backticks, then anything. */
  lemma FenceIs(line: string)
    ensures IsFence(line) <==>
            exists a: nat :: a <= 3 && a + 3 <= |line| && (forall i :: 0 <= i < a ==> line[i] == ' ')
                       && line[a] == line[a + 1] == line[a + 2] == '`'
  {
    hide LeadingSpaces, Run;
    SpacesAre(line);
    TicksAre(line, LeadingSpaces(line));
    var n := LeadingSpaces(line);
    if a: nat :| a <= 3 && a + 3 <= |line| && (forall i :: 0 <= i < a ==> line[i] == ' ') && line[a] == line[a + 1] == line[a + 2] == '`' {
      assert a == n;
    }
  }

  lemma TicksAre(s: string, n: nat)
    requires n <= |s|
    ensures Run(s[n..]) >= 3 <==> n + 3 <= |s| && s[n] == s[n + 1] == s[n + 2] == '`'
  {
    hide Run;
    var t := s[n..];
    RunThere(t);
    assert forall i :: 0 <= i < |t| ==> t[i] == s[n + i];
    assert n + 3 <= |s| ==> s[n + 1] == t[1] && s[n + 2] == t[2];
  }

  lemma {:induction false} SpacesAre(s: string)
    ensures var n := LeadingSpaces(s); (forall i :: 0 <= i < n ==> s[i] == ' ') && (n < |s| ==> s[n] != ' ')
  {
    if s != [] && s[0] == ' ' {
      SpacesAre(s[1..]);
    }
  }

  function SanitizedLines(lines: seq<string>, inFence: bool): (r: seq<string>)
    ensures |r| == |lines|
  {
    if lines == [] then []
    else if IsFence(lines[0]) then [lines[0]] + SanitizedLines(lines[1..], !inFence)
    else [if inFence then lines[0] else Escape(lines[0])] + SanitizedLines(lines[1..], inFence)
  }

  /** `sanitizeMarkdown` */
  function Sanitized(text: string): string
  {
    Join(SanitizedLines(Split(text, '\n'), false), '\n')
  }

  method SanitizeMarkdown(text: string) returns (out: string)
    ensures out == Sanitized(text)
  {
    hide Escape, IsFence, Split, Join, SanitizedLines;
    var lines := Split(text, '\n');
    var inFence := false;
    ghost var done: seq<string> := [];
    out := "";
    assert lines[0..] == lines;
    for i := 0 to |lines|
      invariant |done| == i && done + SanitizedLines(lines[i..], inFence) == SanitizedLines(lines, false)
      invariant out == if i == 0 then "" else Join(done, '\n')
    {
      LinesStep(lines, i, inFence);
      if i > 0 {
        out := out + ['\n'];
      }
      var fence := IsFence(lines[i]);
      var line := lines[i];
      if !fence && !inFence {
        line := EscapeOutsideCodeSpans(lines[i]);
      }
      out := out + line;
      JoinLast(done, line, '\n');
      inFence := if fence then !inFence else inFence;
      assert done + ([line] + SanitizedLines(lines[i + 1..], inFence)) == done + [line] + SanitizedLines(lines[i + 1..], inFence);
      done := done + [line];
    }
    assert |SanitizedLines(lines[|lines|..], inFence)| == 0;
    assert done == SanitizedLines(lines, false);
  }

  lemma LinesStep(lines: seq<string>, i: nat, inFence: bool)
    requires i < |lines|
    ensures var fence := IsFence(lines[i]);
            SanitizedLines(lines[i..], inFence) ==
            [if fence || inFence then lines[i] else Escape(lines[i])] + SanitizedLines(lines[i + 1..], if fence then !inFence else inFence)
  {
    assert lines[i..][1..] == lines[i + 1..];
  }

  lemma {:induction false} JoinLast(parts: seq<string>, last: string, c: char)
    ensures Join(parts + [last], c) == if parts == [] then last else Join(parts, c) + [c] + last
  {
    if parts != [] {
      assert (parts + [last])[1..] == parts[1..] + [last];
      JoinLast(parts[1..], last, c);
    }
  }

  /** Escaping makes no fence line and unmakes none. */
  lemma {:induction false} EscapeFence(s: string)
    ensures LeadingSpaces(Escape(s)) == LeadingSpaces(s) && Run(Escape(s)[LeadingSpaces(s)..]) == Run(s[LeadingSpaces(s)..])
  {
    hide Find;
    if s != [] && s[0] == ' ' {
      EscapeFence(s[1..]);
      var e := Escape(s[1..]);
      assert Escape(s) == [' '] + e && Escape(s)[1..] == e;
      assert s[LeadingSpaces(s)..] == s[1..][LeadingSpaces(s[1..])..] && Escape(s)[LeadingSpaces(s)..] == e[LeadingSpaces(s[1..])..];
    } else {
      assert s[0..] == s && Escape(s)[0..] == Escape(s);
      EscapeRun(s);
    }
  }

  lemma FirstRun(s: string)
    ensures NoTickFirst(s) ==> Run(s) == 0
    ensures !NoTickFirst(s) ==> Runs(s) != [] && Runs(s)[0] == Run(s)
  {
    if !NoTickFirst(s) { TickRuns(s); }
  }

  lemma EscapeRun(s: string)
    ensures Run(Escape(s)) == Run(s)
    ensures s == [] || s[0] != ' ' ==> LeadingSpaces(Escape(s)) == 0
  {
    hide Find, Escape, Run, Runs;
    EscapeRuns(s);
    EscapeHead(s);
    FirstRun(s);
    FirstRun(Escape(s));
    if s != [] {
      EscapeStep(s, 0);
      assert s[0..] == s;
      assert s[0] != TICK ==> Escape(s)[0] == if s[0] == '<' then '&' else s[0];
      assert s[0] == TICK ==> Escape(s)[0] == TICK;
    }
  }

  /** No line is broken by escaping it. */
  lemma {:induction false} EscapeKeepsLine(s: string)
    requires '\n' !in s
    ensures '\n' !in Escape(s)
    decreases |s|
  {
    hide Find, Run, Escape;
    if s == [] {
      EscapeNothing();
    } else {
      EscapeStep(s, 0);
      assert s[0..] == s;
      var n := Run(s);
      if s[0] != TICK {
        EscapeKeepsLine(s[1..]);
      } else {
        var k := Find(s[n..], n);
        var m := if k.Some? then n + k.value + n else n;
        EscapeKeepsLine(s[m..]);
      }
    }
  }

  /** Whether a fenced block is open before line `i`. */
  ghost function FenceOpen(lines: seq<string>, i: nat): bool
    requires i <= |lines|
  {
    if i == 0 then false else if IsFence(lines[i - 1]) then !FenceOpen(lines, i - 1) else FenceOpen(lines, i - 1)
  }

  lemma {:induction false} LineOut(lines: seq<string>, open: bool, i: nat)
    requires i < |lines|
    ensures var fence, inside := IsFence(lines[i]), open != FenceOpen(lines, i);
            SanitizedLines(lines, open)[i] == if fence || inside then lines[i] else Escape(lines[i])
    decreases i
  {
    hide Escape, IsFence;
    if i > 0 {
      LineOut(lines[1..], if IsFence(lines[0]) then !open else open, i - 1);
      OpenShift(lines, i);
    }
  }

  lemma {:induction false} OpenShift(lines: seq<string>, i: nat)
    requires 0 < i <= |lines|
    ensures FenceOpen(lines, i) == (IsFence(lines[0]) != FenceOpen(lines[1..], i - 1))
    decreases i
  {
    hide IsFence;
    if i > 1 {
      OpenShift(lines, i - 1);
      assert lines[1..][i - 2] == lines[i - 1];
    }
  }

  /**
   What is sanitized has the same lines, fences and code: split into lines again,
   each fence line and each line inside a fence is what it was, and any other
   reads as it did but for `<`, which is left only in code.
   */
  lemma SanitizedStructure(text: string, i: nat)
    requires i < |Split(text, '\n')|
    ensures var before, after := Split(text, '\n'), Split(Sanitized(text), '\n');
            && |after| == |before| && IsFence(after[i]) == IsFence(before[i]) && FenceOpen(after, i) == FenceOpen(before, i)
            && (if IsFence(before[i]) || FenceOpen(before, i) then after[i] == before[i]
                else Tokens(after[i]) == Escaped(Tokens(before[i])))
  {
    hide Escape, IsFence, Split, Join, Tokens, Escaped, SanitizedLines;
    var before := Split(text, '\n');
    var after := SanitizedLines(before, false);
    forall j | 0 <= j < |before| ensures '\n' !in after[j] && IsFence(after[j]) == IsFence(before[j]) {
      LineOut(before, false, j);
      EscapeKeepsLine(before[j]);
      FenceKept(before[j]);
    }
    SplitOfJoin(after, '\n');
    SameOpen(before, after, i);
    LineOut(before, false, i);
    EscapeTokens(before[i]);
  }

  lemma FenceKept(line: string)
    ensures IsFence(Escape(line)) == IsFence(line)
  {
    EscapeFence(line);
  }

  lemma {:induction false} SameOpen(before: seq<string>, after: seq<string>, i: nat)
    requires |before| == |after| && i <= |before| && forall j :: 0 <= j < |before| ==> IsFence(after[j]) == IsFence(before[j])
    ensures FenceOpen(after, i) == FenceOpen(before, i)
  {
    if i > 0 {
      SameOpen(before, after, i - 1);
    }
  }

  /** Sanitizing what is sanitized changes nothing. */
  lemma SanitizedTwice(text: string)
    ensures Sanitized(Sanitized(text)) == Sanitized(text)
  {
    hide Escape, IsFence, Split, Join, SanitizedLines;
    var before := Split(text, '\n');
    var after := SanitizedLines(before, false);
    forall j | 0 <= j < |before| ensures '\n' !in after[j] {
      LineOut(before, false, j);
      EscapeKeepsLine(before[j]);
    }
    SplitOfJoin(after, '\n');
    LinesAgain(before, false);
  }

  lemma {:induction false} LinesAgain(lines: seq<string>, open: bool)
    ensures SanitizedLines(SanitizedLines(lines, open), open) == SanitizedLines(lines, open)
  {
    hide Escape, IsFence;
    if lines != [] {
      var line := lines[0];
      FenceKept(line);
      EscapeTwice(line);
      var next := if IsFence(line) then !open else open;
      LinesAgain(lines[1..], next);
      var rest := SanitizedLines(lines[1..], next);
      assert SanitizedLines(lines, open)[1..] == rest;
    }
  }
}
