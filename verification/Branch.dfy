/**
 The active branch of a pi log. The log is a tree of entries whose parents
 precede their children; a reader climbs from a leaf through a map by id.
 */
module Branch {
  import opened Options

  datatype Entry<+T> = Entry(id: string, parent: string, value: T)

  /** Ids are unique and every parent precedes its children. */
  ghost predicate Tree<T(!new)>(entries: seq<Entry<T>>)
  {
    && (forall i, j :: 0 <= i < j < |entries| && entries[i].id != "" ==> entries[i].id != entries[j].id)
    && (forall i, j :: 0 <= i <= j < |entries| && entries[j].id != "" ==> entries[i].parent != entries[j].id)
  }

  /** The branch that ends at `leaf`, root first: one pass from the end, taking each entry the last one taken hangs off. */
  function Trace<T>(entries: seq<Entry<T>>, leaf: string): seq<Entry<T>>
  {
    if entries == [] then [] else
      var n := entries[|entries| - 1];
      var rest := entries[..|entries| - 1];
      if n.id != "" && n.id == leaf then Trace(rest, n.parent) + [n] else Trace(rest, leaf)
  }

  /** The id such a pass is looking for once it has left `entries` behind. */
  function Wanted<T>(entries: seq<Entry<T>>, leaf: string): string
  {
    if entries == [] then leaf else
      var n := entries[|entries| - 1];
      Wanted(entries[..|entries| - 1], if n.id != "" && n.id == leaf then n.parent else leaf)
  }

  /** The last entry that has an id. */
  function LastId<T>(entries: seq<Entry<T>>): string
  {
    if entries == [] then "" else
      var n := entries[|entries| - 1];
      if n.id != "" then n.id else LastId(entries[..|entries| - 1])
  }

  function ById<T>(entries: seq<Entry<T>>): map<string, Entry<T>>
  {
    if entries == [] then map[] else
      var n := entries[|entries| - 1];
      var rest := ById(entries[..|entries| - 1]);
      if n.id != "" then rest[n.id := n] else rest
  }

  /** The entries met climbing from `leaf`, each taken out of the map so a cycle ends. */
  function Climb<T>(byID: map<string, Entry<T>>, leaf: string): seq<Entry<T>>
    decreases |byID|
  {
    if leaf !in byID then [] else [byID[leaf]] + Climb(byID - {leaf}, byID[leaf].parent)
  }

  /** The id such a climb could not find, or found taken. */
  function Stop<T>(byID: map<string, Entry<T>>, leaf: string): string
    decreases |byID|
  {
    if leaf !in byID then leaf else Stop(byID - {leaf}, byID[leaf].parent)
  }

  function Reverse<T>(s: seq<T>): (r: seq<T>)
    ensures |r| == |s|
    ensures forall i :: 0 <= i < |s| ==> r[i] == s[|s| - 1 - i]
  {
    if s == [] then [] else Reverse(s[1..]) + [s[0]]
  }

  lemma {:induction false} ByIdOf<T>(entries: seq<Entry<T>>)
    ensures "" !in ById(entries)
    ensures forall id :: id in ById(entries) ==> ById(entries)[id] in entries && ById(entries)[id].id == id
    ensures forall i :: 0 <= i < |entries| && entries[i].id != "" ==> entries[i].id in ById(entries)
  {
    if entries != [] {
      ByIdOf(entries[..|entries| - 1]);
    }
  }

  /** An entry nothing hangs off is never met on the way up from another. */
  lemma {:induction false} ClimbIgnores<T>(byID: map<string, Entry<T>>, n: Entry<T>, leaf: string)
    requires n.id != leaf && n.id !in byID
    requires forall id :: id in byID ==> byID[id].parent != n.id
    ensures Climb(byID[n.id := n], leaf) == Climb(byID, leaf)
    ensures Stop(byID[n.id := n], leaf) == Stop(byID, leaf)
    decreases |byID|
  {
    if leaf in byID {
      assert byID[n.id := n] - {leaf} == (byID - {leaf})[n.id := n];
      ClimbIgnores(byID - {leaf}, n, byID[leaf].parent);
    }
  }

  lemma ClimbFirst<T>(byID: map<string, Entry<T>>, n: Entry<T>)
    requires n.id !in byID
    ensures Reverse(Climb(byID[n.id := n], n.id)) == Reverse(Climb(byID, n.parent)) + [n]
    ensures Stop(byID[n.id := n], n.id) == Stop(byID, n.parent)
  {
    assert byID[n.id := n] - {n.id} == byID;
    var up := Climb(byID, n.parent);
    assert Climb(byID[n.id := n], n.id) == [n] + up;
    assert ([n] + up)[1..] == up;
  }

  /** Climbing the map from the leaf meets exactly the branch, leaf first. */
  lemma {:induction false} ClimbIsTrace<T(!new)>(entries: seq<Entry<T>>, leaf: string)
    requires Tree(entries)
    ensures Reverse(Climb(ById(entries), leaf)) == Trace(entries, leaf)
    ensures Stop(ById(entries), leaf) == Wanted(entries, leaf)
  {
    if entries != [] {
      var n, rest := entries[|entries| - 1], entries[..|entries| - 1];
      ByIdOf(rest);
      if n.id == "" {
        ClimbIsTrace(rest, leaf);
      } else {
        assert n.id !in ById(rest);
        if n.id == leaf {
          ClimbIsTrace(rest, n.parent);
          ClimbFirst(ById(rest), n);
        } else {
          forall id | id in ById(rest) ensures ById(rest)[id].parent != n.id {
            var i :| 0 <= i < |rest| && rest[i] == ById(rest)[id];
            assert entries[i] == rest[i] && entries[|rest|] == n;
          }
          ClimbIgnores(ById(rest), n, leaf);
          ClimbIsTrace(rest, leaf);
        }
      }
    }
  }

  ghost predicate Holds<T(!new)>(entries: seq<Entry<T>>, id: string)
  {
    id != "" && exists i :: 0 <= i < |entries| && entries[i].id == id
  }

  /** A branch is linked: each entry hangs off the one before it, and the last is the leaf. */
  lemma {:induction false} TraceLinked<T(!new)>(entries: seq<Entry<T>>, leaf: string)
    ensures var b := Trace(entries, leaf);
            && (forall i :: 0 <= i < |b| - 1 ==> b[i + 1].parent == b[i].id)
            && (forall i :: 0 <= i < |b| ==> Holds(entries, b[i].id))
            && (b != [] ==> b[|b| - 1].id == leaf)
            && (b != [] ==> b[0].parent == Wanted(entries, leaf))
            && (b == [] ==> leaf == Wanted(entries, leaf))
  {
    if entries != [] {
      var n, rest := entries[|entries| - 1], entries[..|entries| - 1];
      TraceLinked(rest, if n.id != "" && n.id == leaf then n.parent else leaf);
      assert forall id :: Holds(rest, id) ==> Holds(entries, id) by {
        assert forall i :: 0 <= i < |rest| ==> entries[i] == rest[i];
      }
    }
  }

  /** A branch starts at a root: what its first entry hangs off, if anything, is not in the log. */
  lemma {:induction false} TraceRooted<T(!new)>(entries: seq<Entry<T>>, leaf: string)
    requires Tree(entries)
    ensures !Holds(entries, Wanted(entries, leaf))
  {
    if entries != [] {
      var n, rest := entries[|entries| - 1], entries[..|entries| - 1];
      var next := if n.id != "" && n.id == leaf then n.parent else leaf;
      TraceRooted(rest, next);
      assert next != n.id || n.id == "";
      WantedIs(rest, next);
      assert forall i :: 0 <= i < |rest| ==> entries[i] == rest[i];
      assert entries[|rest|] == n;
    }
  }

  lemma {:induction false} WantedIs<T(!new)>(entries: seq<Entry<T>>, leaf: string)
    ensures Wanted(entries, leaf) == leaf || exists i :: 0 <= i < |entries| && entries[i].parent == Wanted(entries, leaf)
  {
    if entries != [] {
      var n, rest := entries[|entries| - 1], entries[..|entries| - 1];
      WantedIs(rest, if n.id != "" && n.id == leaf then n.parent else leaf);
      assert forall i :: 0 <= i < |rest| ==> entries[i] == rest[i];
    }
  }

  /** A branch through two stretches of a log is its part of each. */
  lemma {:induction false} TraceSplit<T>(a: seq<Entry<T>>, b: seq<Entry<T>>, leaf: string)
    ensures Trace(a + b, leaf) == Trace(a, Wanted(b, leaf)) + Trace(b, leaf)
    ensures Wanted(a + b, leaf) == Wanted(a, Wanted(b, leaf))
    decreases |b|
  {
    if b == [] {
      assert a + b == a;
    } else {
      var n, rest := b[|b| - 1], b[..|b| - 1];
      assert (a + b)[..|a + b| - 1] == a + rest;
      TraceSplit(a, rest, if n.id != "" && n.id == leaf then n.parent else leaf);
    }
  }

  lemma {:induction false} LastIdConcat<T>(a: seq<Entry<T>>, b: seq<Entry<T>>)
    ensures LastId(a + b) == if LastId(b) != "" then LastId(b) else LastId(a)
    decreases |b|
  {
    if b == [] {
      assert a + b == a;
    } else {
      var rest := b[..|b| - 1];
      assert (a + b)[..|a + b| - 1] == a + rest;
      LastIdConcat(a, rest);
    }
  }

  lemma {:induction false} NoIds<T>(b: seq<Entry<T>>, leaf: string)
    requires LastId(b) == ""
    ensures Trace(b, leaf) == [] && Wanted(b, leaf) == leaf
  {
    if b != [] {
      NoIds(b[..|b| - 1], leaf);
    }
  }

  /** A climb stops at the parent of the last entry it met, or at its leaf when it met none; that id is not in the map, or was met. */
  lemma {:induction false} StopAtEnd<T>(byID: map<string, Entry<T>>, leaf: string)
    ensures var up, stop := Climb(byID, leaf), Stop(byID, leaf);
            && stop == (if up == [] then leaf else up[|up| - 1].parent)
            && (stop in byID ==> byID[stop] in up)
            && (forall e :: e in up ==> e in byID.Values)
    decreases |byID|
  {
    if leaf in byID {
      var e, rest := byID[leaf], byID - {leaf};
      StopAtEnd(rest, e.parent);
      assert forall x :: x in rest.Values ==> x in byID.Values;
      assert e in byID.Values;
    }
  }

  // ------------------------------------------------------------------ forks

  datatype Result<+T> = Ok(value: T) | Err(error: ForkError)

  datatype ForkError = NoForkPoint | PointNotFound | NoLeaf | BrokenChain(id: string) | PointOffBranch

  datatype Command = Fork(entry: string) | Clone

  /** The first user message after `point` on a branch, or the branch's length. */
  function NextUser(branch: seq<Entry<bool>>, point: nat): (k: nat)
    requires point < |branch|
    ensures point < k <= |branch|
    ensures k < |branch| ==> branch[k].value
    ensures forall i :: point < i < k ==> !branch[i].value
    decreases |branch| - point
  {
    if point + 1 == |branch| || branch[point + 1].value then point + 1 else NextUser(branch, point + 1)
  }

  /** The entry forked before is the first user message after the fork point on the branch; with none, the branch is cloned. */
  ghost predicate Picks(branch: seq<Entry<bool>>, afterID: string, c: Command)
  {
    exists point :: 0 <= point < |branch| && PicksAfter(branch, point, afterID, c)
  }

  ghost predicate PicksAfter(branch: seq<Entry<bool>>, point: nat, afterID: string, c: Command)
    requires point < |branch|
  {
    var k := NextUser(branch, point);
    branch[point].id == afterID && c == if k < |branch| then Fork(branch[k].id) else Clone
  }

  method MapById<T>(entries: seq<Entry<T>>) returns (byID: map<string, Entry<T>>)
    ensures byID == ById(entries)
  {
    byID := map[];
    var n := 0;
    while n < |entries|
      invariant n <= |entries|
      invariant byID == ById(entries[..n])
    {
      assert entries[..n + 1][..n] == entries[..n];
      if entries[n].id != "" {
        byID := byID[entries[n].id := entries[n]];
      }
      n := n + 1;
    }
    assert entries[..n] == entries;
  }

  /** The walk up the active branch, stopped by the ids already seen. */
  method WalkUp(byID: map<string, Entry<bool>>, leafID: string) returns (reverse: seq<Entry<bool>>, broken: Option<string>)
    requires "" !in byID
    ensures broken == None ==> reverse == Climb(byID, leafID)
    ensures broken == if Stop(byID, leafID) == "" || Stop(byID, leafID) in byID then None else Some(Stop(byID, leafID))
  {
    reverse, broken := [], None;
    var seen: set<string>, id := {}, leafID;
    assert byID - {} == byID;
    while id != "" && id !in seen
      invariant seen <= byID.Keys
      invariant reverse + Climb(byID - seen, id) == Climb(byID, leafID)
      invariant Stop(byID - seen, id) == Stop(byID, leafID)
      decreases byID.Keys - seen
    {
      if id !in byID {
        return reverse, Some(id);
      }
      assert byID - seen - {id} == byID - (seen + {id});
      seen := seen + {id};
      reverse := reverse + [byID[id]];
      id := byID[id].parent;
    }
  }

  /**
   `forkRPCCommand`: an entry's value is whether it is a user message. Forking
   after an entry of the active branch is forking before its next user message,
   or cloning the branch when none follows.
   */
  method ForkRPCCommand(entries: seq<Entry<bool>>, leafID: string, afterID: string) returns (r: Result<Command>)
    ensures r == Err(NoForkPoint) <==> afterID == ""
    ensures r == Err(PointNotFound) <==> afterID != "" && !Holds(entries, afterID)
    ensures r == Err(NoLeaf) <==> Holds(entries, afterID) && leafID == ""
    ensures var byID := ById(entries);
            var branch := Reverse(Climb(byID, leafID));
            var whole := Stop(byID, leafID) == "" || Stop(byID, leafID) in byID;
            && (r.Err? && r.error.BrokenChain? ==> !whole && r.error.id == Stop(byID, leafID))
            && (r == Err(PointOffBranch) ==> whole && forall e :: e in branch ==> e.id != afterID)
            && (r.Ok? ==> whole && Picks(branch, afterID, r.value))
  {
    hide Climb, Stop, ById, Picks;
    if afterID == "" {
      return Err(NoForkPoint);
    }
    ByIdOf(entries);
    var byID := MapById(entries);
    if afterID !in byID {
      return Err(PointNotFound);
    }
    assert byID[afterID] in entries;
    if leafID == "" {
      return Err(NoLeaf);
    }
    var reverse, broken := WalkUp(byID, leafID);
    if broken.Some? {
      return Err(BrokenChain(broken.value));
    }
    var branch := Reverse(reverse);
    var c := Choose(branch, afterID);
    if c == None {
      return Err(PointOffBranch);
    }
    return Ok(c.value);
  }

  /** The fork point's place on the branch, and the first user message after it. */
  method Choose(branch: seq<Entry<bool>>, afterID: string) returns (c: Option<Command>)
    ensures c == None ==> forall e :: e in branch ==> e.id != afterID
    ensures c.Some? ==> Picks(branch, afterID, c.value)
  {
    var point := 0;
    while point < |branch| && branch[point].id != afterID
      invariant point <= |branch|
      invariant forall i :: 0 <= i < point ==> branch[i].id != afterID
    {
      point := point + 1;
    }
    if point == |branch| {
      return None;
    }
    var k := point + 1;
    while k < |branch|
      invariant point < k <= |branch|
      invariant NextUser(branch, point) == NextUser(branch, k - 1)
    {
      if branch[k].value {
        assert PicksAfter(branch, point, afterID, Fork(branch[k].id));
        return Some(Fork(branch[k].id));
      }
      k := k + 1;
    }
    assert PicksAfter(branch, point, afterID, Clone);
    return Some(Clone);
  }
}
