/** Searching a turn's prose for terms, ignoring case. `lower` is `unicode.ToLower`. */
module Search {
  type Rune = char

  predicate EqualAt(lower: Rune -> Rune, hay: seq<Rune>, needle: seq<Rune>, at: int)
  {
    0 <= at && at + |needle| <= |hay| && forall j :: 0 <= j < |needle| ==> lower(hay[at + j]) == lower(needle[j])
  }

  /** Occurrences, each clear of the one before it, all from `from` on. */
  ghost predicate Packing(lower: Rune -> Rune, hay: seq<Rune>, needle: seq<Rune>, from: int, starts: seq<int>)
  {
    && (forall i :: 0 <= i < |starts| ==> from <= starts[i] && EqualAt(lower, hay, needle, starts[i]))
    && (forall i, j :: 0 <= i < j < |starts| ==> starts[i] + |needle| <= starts[j])
  }

  ghost predicate Occurs(lower: Rune -> Rune, hay: seq<Rune>, needle: seq<Rune>)
  {
    needle != [] && exists at :: EqualAt(lower, hay, needle, at)
  }

  /** No occurrence starts before `at`. */
  ghost predicate NoneBefore(lower: Rune -> Rune, hay: seq<Rune>, needle: seq<Rune>, at: int)
  {
    forall i :: 0 <= i < at ==> !EqualAt(lower, hay, needle, i)
  }

  /** The occurrences taken by always taking the next one, from `from` on. */
  ghost function Greedy(lower: Rune -> Rune, hay: seq<Rune>, needle: seq<Rune>, from: nat): (starts: seq<int>)
    requires needle != []
    ensures Packing(lower, hay, needle, from, starts)
    decreases |hay| - from
  {
    if from + |needle| > |hay| then []
    else if EqualAt(lower, hay, needle, from) then [from as int] + Greedy(lower, hay, needle, from + |needle|)
    else Greedy(lower, hay, needle, from + 1)
  }

  /** Taking the next one every time takes as many as can be taken. */
  lemma {:induction false} GreedyIsMost(lower: Rune -> Rune, hay: seq<Rune>, needle: seq<Rune>, from: nat, starts: seq<int>)
    requires needle != [] && Packing(lower, hay, needle, from, starts)
    ensures |starts| <= |Greedy(lower, hay, needle, from)|
    decreases |hay| - from
  {
    assert starts != [] ==> EqualAt(lower, hay, needle, starts[0]);
    if starts != [] {
      if EqualAt(lower, hay, needle, from) {
        assert forall i :: 0 < i < |starts| ==> starts[0] + |needle| <= starts[i];
        assert forall i :: 0 <= i < |starts[1..]| ==> starts[1..][i] == starts[i + 1];
        GreedyIsMost(lower, hay, needle, from + |needle|, starts[1..]);
      } else {
        assert forall i :: 0 <= i < |starts| ==> starts[i] != from;
        GreedyIsMost(lower, hay, needle, from + 1, starts);
      }
    }
  }

  /** `count` occurrences can be had without overlap, and no more. */
  ghost predicate IsMost(lower: Rune -> Rune, hay: seq<Rune>, needle: seq<Rune>, count: nat)
  {
    && (exists starts :: Packing(lower, hay, needle, 0, starts) && |starts| == count)
    && (forall starts :: Packing(lower, hay, needle, 0, starts) ==> |starts| <= count)
  }

  method FoldEqualAt(lower: Rune -> Rune, hay: seq<Rune>, needle: seq<Rune>, at: nat) returns (equal: bool)
    requires at + |needle| <= |hay|
    ensures equal == EqualAt(lower, hay, needle, at)
  {
    for j := 0 to |needle|
      invariant forall k :: 0 <= k < j ==> lower(hay[at + k]) == lower(needle[k])
    {
      if lower(hay[at + j]) != lower(needle[j]) {
        return false;
      }
    }
    return true;
  }

  lemma InRange(lower: Rune -> Rune, hay: seq<Rune>, needle: seq<Rune>)
    ensures forall at :: EqualAt(lower, hay, needle, at) ==> 0 <= at && at + |needle| <= |hay|
  {}

  /**
   `foldFindAll`: the least index where the needle occurs, and how many
   occurrences can be had without overlap; -1 and 0 when it does not occur or
   is empty.
   */
  method FoldFindAll(lower: Rune -> Rune, hay: seq<Rune>, needle: seq<Rune>) returns (first: int, count: nat)
    ensures first >= 0 <==> Occurs(lower, hay, needle)
    ensures first >= 0 ==> EqualAt(lower, hay, needle, first) && NoneBefore(lower, hay, needle, first)
    ensures first < 0 ==> first == -1 && count == 0
    ensures needle != [] ==> IsMost(lower, hay, needle, count)
  {
    hide EqualAt;
    InRange(lower, hay, needle);
    first, count := -1, 0;
    if |needle| == 0 {
      return;
    }
    var i := 0;
    while i + |needle| <= |hay|
      invariant 0 <= i
      invariant count + |Greedy(lower, hay, needle, i)| == |Greedy(lower, hay, needle, 0)|
      invariant first < 0 ==> first == -1 && count == 0 && NoneBefore(lower, hay, needle, i)
      invariant first >= 0 ==> EqualAt(lower, hay, needle, first) && NoneBefore(lower, hay, needle, first)
      decreases |hay| - i
    {
      var equal := FoldEqualAt(lower, hay, needle, i);
      if equal {
        if first < 0 {
          first := i;
        }
        count := count + 1;
        i := i + |needle|;
      } else {
        i := i + 1;
      }
    }
    assert Packing(lower, hay, needle, 0, Greedy(lower, hay, needle, 0));
    forall starts | Packing(lower, hay, needle, 0, starts) ensures |starts| <= count {
      GreedyIsMost(lower, hay, needle, 0, starts);
    }
  }

  /** Where `term` first occurs. */
  ghost predicate FirstOf(lower: Rune -> Rune, hay: seq<Rune>, term: seq<Rune>, at: int)
  {
    term != [] && EqualAt(lower, hay, term, at) && NoneBefore(lower, hay, term, at)
  }

  /** None of the terms ahead of the k-th starts at `at`. */
  ghost predicate NoneStarts(lower: Rune -> Rune, text: seq<Rune>, terms: seq<seq<Rune>>, k: nat, at: int)
    requires k <= |terms|
  {
    forall m :: 0 <= m < k ==> !EqualAt(lower, text, terms[m], at)
  }

  lemma EarlierStart(lower: Rune -> Rune, text: seq<Rune>, terms: seq<seq<Rune>>, k: nat, first: int, at: int)
    requires k <= |terms| && (k == 0 || at < first) && at >= 0
    requires forall m :: 0 <= m < k ==> NoneBefore(lower, text, terms[m], first)
    ensures NoneStarts(lower, text, terms, k, at)
  {}

  /**
   `findAllTerms`: no match unless there are terms and every one occurs; then the
   earliest place any of them starts, the length of the first one that starts
   there, and the occurrences of all of them together.
   */
  method FindAllTerms(lower: Rune -> Rune, text: seq<Rune>, terms: seq<seq<Rune>>) returns (first: int, firstLen: nat, occurrences: nat, ghost counts: seq<nat>)
    ensures first >= 0 <==> terms != [] && forall k :: 0 <= k < |terms| ==> Occurs(lower, text, terms[k])
    ensures first < 0 ==> first == -1 && firstLen == 0 && occurrences == 0
    ensures first >= 0 ==> exists k :: 0 <= k < |terms| && |terms[k]| == firstLen && FirstOf(lower, text, terms[k], first)
                             && NoneStarts(lower, text, terms, k, first)
    ensures first >= 0 ==> forall k :: 0 <= k < |terms| ==> NoneBefore(lower, text, terms[k], first)
    ensures first >= 0 ==> |counts| == |terms| && occurrences == Sum(counts)
    ensures first >= 0 ==> forall k :: 0 <= k < |terms| ==> IsMost(lower, text, terms[k], counts[k])
  {
    hide EqualAt, IsMost, NoneStarts, Sum;
    SumNext([], 0);
    first, firstLen, occurrences, counts := -1, 0, 0, [];
    for i := 0 to |terms|
      invariant first >= 0 <==> i > 0
      invariant first < 0 ==> first == -1 && firstLen == 0 && occurrences == 0
      invariant forall k :: 0 <= k < i ==> Occurs(lower, text, terms[k])
      invariant first >= 0 ==> exists k :: 0 <= k < i && |terms[k]| == firstLen && FirstOf(lower, text, terms[k], first)
                                 && NoneStarts(lower, text, terms, k, first)
      invariant first >= 0 ==> forall k :: 0 <= k < i ==> NoneBefore(lower, text, terms[k], first)
      invariant |counts| == i && occurrences == Sum(counts)
      invariant forall k :: 0 <= k < i ==> IsMost(lower, text, terms[k], counts[k])
    {
      var at, count := FoldFindAll(lower, text, terms[i]);
      if at < 0 {
        first, firstLen, occurrences := -1, 0, 0;
        return;
      }
      assert FirstOf(lower, text, terms[i], at);
      if first < 0 || at < first {
        EarlierStart(lower, text, terms, i, first, at);
        first, firstLen := at, |terms[i]|;
      }
      SumNext(counts, count);
      counts := counts + [count];
      occurrences := occurrences + count;
    }
  }

  function Sum(counts: seq<nat>): nat
  {
    if counts == [] then 0 else Sum(counts[..|counts| - 1]) + counts[|counts| - 1]
  }

  lemma SumNext(counts: seq<nat>, n: nat)
    ensures Sum([]) == 0 && Sum(counts + [n]) == Sum(counts) + n
  {
    assert (counts + [n])[..|counts|] == counts;
  }

  lemma {:induction false} SumSplit(a: seq<nat>, n: nat, b: seq<nat>)
    ensures Sum([]) == 0 && Sum(a + [n] + b) == Sum(a) + n + Sum(b)
    decreases |b|
  {
    var all := a + [n] + b;
    if b == [] {
      assert all[..|a|] == a;
    } else {
      assert all[..|all| - 1] == a + [n] + b[..|b| - 1];
      SumSplit(a, n, b[..|b| - 1]);
    }
  }
}
