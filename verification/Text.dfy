/** The pieces of Go's strings package the models use, on characters. */
module Text {

  /** `unicode.IsSpace`. */
  predicate IsSpace(c: char)
  {
    || c == ' ' || '\t' <= c <= '\r' || c == '\U{0085}' || c == '\U{00A0}' || c == '\U{1680}'
    || c == '\U{2028}' || c == '\U{2029}' || c == '\U{202F}' || c == '\U{205F}' || c == '\U{3000}'
    || '\U{2000}' <= c <= '\U{200A}'
  }

  function TrimLeft(s: string): (r: string)
    ensures r != [] ==> !IsSpace(r[0])
  {
    if s != [] && IsSpace(s[0]) then TrimLeft(s[1..]) else s
  }

  function TrimRight(s: string): (r: string)
    ensures r <= s && (r != [] ==> !IsSpace(r[|r| - 1]))
  {
    if s != [] && IsSpace(s[|s| - 1]) then TrimRight(s[..|s| - 1]) else s
  }

  /** `strings.TrimSpace`. */
  function Trim(s: string): string
  {
    TrimRight(TrimLeft(s))
  }

  /** Trimming takes white space off both ends and nothing else, and leaves none there. */
  lemma TrimIs(s: string)
    ensures exists n, m :: 0 <= n <= m <= |s| && Trim(s) == s[n..m]
              && (forall i :: 0 <= i < n || m <= i < |s| ==> IsSpace(s[i]))
              && (n < m ==> !IsSpace(s[n]) && !IsSpace(s[m - 1]))
  {
    hide IsSpace;
    LeftTrimmed(s);
    var t := TrimLeft(s);
    var n := |s| - |t|;
    RightTrimmed(t);
    var m := n + |Trim(s)|;
    assert s[n..] == t;
    assert forall i :: m <= i < |s| ==> s[i] == t[i - n];
    assert Trim(s) == t[..m - n] == s[n..m];
    assert n < m ==> s[n] == t[0] && s[m - 1] == t[m - n - 1];
    assert n < m ==> t != [];
  }

  lemma {:induction false} LeftTrimmed(s: string)
    ensures |TrimLeft(s)| <= |s| && s[|s| - |TrimLeft(s)|..] == TrimLeft(s)
    ensures forall i :: 0 <= i < |s| - |TrimLeft(s)| ==> IsSpace(s[i])
  {
    if s != [] && IsSpace(s[0]) {
      hide IsSpace, TrimLeft;
      LeftTrimmed(s[1..]);
      TrimLeftNext(s);
      var k := |s| - |TrimLeft(s)|;
      assert s[1..][k - 1..] == s[k..];
      assert forall i :: 0 < i < k ==> s[i] == s[1..][i - 1];
    }
  }

  lemma TrimLeftNext(s: string)
    requires s != [] && IsSpace(s[0])
    ensures TrimLeft(s) == TrimLeft(s[1..])
  {
    hide IsSpace;
  }

  lemma {:induction false} RightTrimmed(s: string)
    ensures TrimRight(s) <= s && forall i :: |TrimRight(s)| <= i < |s| ==> IsSpace(s[i])
  {
    if s != [] && IsSpace(s[|s| - 1]) {
      RightTrimmed(s[..|s| - 1]);
    }
  }

  ghost predicate Bare(s: string)
  {
    forall i :: 0 <= i < |s| ==> !IsSpace(s[i])
  }

  lemma TrimBare(s: string)
    requires Bare(s)
    ensures Trim(s) == s
  {}

  /** The index of the first `c`, or the length when there is none. */
  function IndexOf<T(==)>(s: seq<T>, c: T): (k: nat)
    ensures k <= |s| && c !in s[..k] && (k < |s| ==> s[k] == c)
  {
    if s == [] || s[0] == c then 0 else
      var k := 1 + IndexOf(s[1..], c);
      assert s[..k] == [s[0]] + s[1..][..k - 1];
      k
  }

  /** The index of the first `c` is where it stands with none before it. */
  lemma {:induction false} FirstIndex<T>(s: seq<T>, k: nat, c: T)
    requires k <= |s| && c !in s[..k] && (k < |s| ==> s[k] == c)
    ensures IndexOf(s, c) == k
    decreases k
  {
    if k > 0 {
      assert s[0] == s[..k][0];
      assert s[..k] == [s[0]] + s[1..][..k - 1];
      FirstIndex(s[1..], k - 1, c);
    }
  }

  /** `strings.Split` on one character: always at least one piece. */
  function Split<T(==)>(s: seq<T>, c: T): (parts: seq<seq<T>>)
    ensures parts != [] && forall i :: 0 <= i < |parts| ==> c !in parts[i]
    decreases |s|
  {
    var k := IndexOf(s, c);
    if k == |s| then
      assert s[..k] == s;
      [s]
    else [s[..k]] + Split(s[k + 1..], c)
  }

  /** `strings.Join`. */
  function Join<T>(parts: seq<seq<T>>, c: T): seq<T>
    requires parts != []
  {
    if |parts| == 1 then parts[0] else parts[0] + [c] + Join(parts[1..], c)
  }

  lemma {:induction false} SplitOfJoin<T>(parts: seq<seq<T>>, c: T)
    requires parts != [] && forall i :: 0 <= i < |parts| ==> c !in parts[i]
    ensures Split(Join(parts, c), c) == parts
    decreases |parts|
  {
    if |parts| == 1 {
      FirstIndex(parts[0], |parts[0]|, c);
    } else {
      var rest := Join(parts[1..], c);
      var s := Join(parts, c);
      assert s[..|parts[0]|] == parts[0] && s[|parts[0]| + 1..] == rest;
      FirstIndex(s, |parts[0]|, c);
      SplitOfJoin(parts[1..], c);
    }
  }

  /** `strings.Fields`: the maximal runs of other than white space. */
  function Fields(s: string): (fields: seq<string>)
    ensures forall i :: 0 <= i < |fields| ==> fields[i] != [] && Bare(fields[i])
    decreases |s|
  {
    if s == [] then []
    else if IsSpace(s[0]) then Fields(s[1..])
    else
      var k := Word(s);
      [s[..k]] + Fields(s[k..])
  }

  /** How many characters come before the first space. */
  function Word(s: string): (k: nat)
    ensures k <= |s| && Bare(s[..k]) && (k < |s| ==> IsSpace(s[k]))
    ensures s != [] && !IsSpace(s[0]) ==> 0 < k
  {
    if s == [] || IsSpace(s[0]) then 0 else
      var k := 1 + Word(s[1..]);
      assert forall i :: 0 < i < k ==> s[i] == s[1..][..k - 1][i - 1];
      k
  }

  lemma {:induction false} WordIs(s: string, k: nat)
    requires k <= |s| && Bare(s[..k]) && (k < |s| ==> IsSpace(s[k]))
    ensures Word(s) == k
    decreases k
  {
    if k > 0 {
      assert s[0] == s[..k][0];
      assert s[..k] == [s[0]] + s[1..][..k - 1];
      assert forall i :: 0 <= i < k - 1 ==> s[1..][..k - 1][i] == s[1..k][i];
      assert s[1..k] == s[..k][1..];
      WordIs(s[1..], k - 1);
    }
  }

  lemma {:induction false} FieldsOfJoin(parts: seq<string>)
    requires parts != [] && forall i :: 0 <= i < |parts| ==> parts[i] != [] && Bare(parts[i])
    ensures Fields(Join(parts, ' ')) == parts
    decreases |parts|
  {
    hide IsSpace;
    var s, n := Join(parts, ' '), |parts[0]|;
    assert s[..n] == parts[0] && s[0] == parts[0][0];
    Blank();
    if |parts| == 1 {
      WordIs(s, n);
      assert s[n..] == [];
    } else {
      assert s[n..] == [' '] + Join(parts[1..], ' ');
      WordIs(s, n);
      assert s[n..][1..] == Join(parts[1..], ' ');
      FieldsOfJoin(parts[1..]);
    }
  }

  lemma Blank()
    ensures IsSpace(' ')
  {}

  /** White space parts fields and adds none; what is none before it is a field. */
  lemma FieldsApart(word: string, c: char, rest: string)
    requires word != [] && Bare(word) && IsSpace(c)
    ensures Fields([]) == [] && Fields([c] + rest) == Fields(rest) && Fields(word + [c] + rest) == [word] + Fields(rest)
  {
    hide IsSpace;
    var s, n := word + [c] + rest, |word|;
    assert s[..n] == word && s[n..] == [c] + rest && s[n..][1..] == rest && s[0] == word[0];
    assert ([c] + rest)[1..] == rest;
    WordIs(s, n);
  }
}
