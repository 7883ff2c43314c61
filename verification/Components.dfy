/** space/components.go: connected components by union-find with path compression. */
module Components {
  import opened Sequences
  import opened Boxes
  import opened Connectivity
  import opened Covers
  import opened BoxSets

  // ----- the forest -----

  /**
   * `root[i]` is where following parents from `i` ends, and `level` strictly falls on the way, so
   * following parents always ends.
   */
  ghost predicate Forest(parent: seq<nat>, root: seq<nat>, level: seq<nat>) {
    |root| == |level| == |parent| && forall i: nat :: i < |parent| ==> Rooted(parent, root, level, i)
  }

  ghost predicate Rooted(parent: seq<nat>, root: seq<nat>, level: seq<nat>, i: nat)
    requires |root| == |level| == |parent| && i < |parent|
  {
    && parent[i] < |parent| && root[i] < |parent|
    && root[parent[i]] == root[i] && parent[root[i]] == root[i] && root[root[i]] == root[i]
    && (parent[i] == i <==> root[i] == i)
    && (parent[i] != i ==> level[parent[i]] < level[i] && level[root[i]] < level[i])
  }

  /** Pointing a vertex at its root keeps every root. */
  lemma CompressKeepsForest(parent: seq<nat>, root: seq<nat>, level: seq<nat>, x: nat)
    requires Forest(parent, root, level) && x < |parent|
    ensures root[x] < |parent| && Forest(parent[x := root[x]], root, level)
  {
    assert Rooted(parent, root, level, x);
    var next := parent[x := root[x]];
    forall i: nat | i < |parent|
      ensures Rooted(next, root, level, i)
    {
      assert Rooted(parent, root, level, i);
      assert Rooted(parent, root, level, root[i]);
    }
  }

  ghost function JoinedLevels(root: seq<nat>, level: seq<nat>, ra: nat, rb: nat): seq<nat>
    requires |root| == |level| && ra < |level|
  {
    seq(|root|, i requires 0 <= i < |root| => if root[i] == rb then level[i] + level[ra] + 1 else level[i])
  }

  /** Pointing one root at another joins their trees. */
  lemma JoinKeepsForest(parent: seq<nat>, root: seq<nat>, level: seq<nat>, ra: nat, rb: nat)
    requires Forest(parent, root, level) && ra < |parent| && rb < |parent| && root[ra] == ra && root[rb] == rb && ra != rb
    ensures Forest(parent[rb := ra], JoinedRoots(root, ra, rb), JoinedLevels(root, level, ra, rb))
  {
    var parent', root', level' := parent[rb := ra], JoinedRoots(root, ra, rb), JoinedLevels(root, level, ra, rb);
    forall i: nat | i < |parent|
      ensures Rooted(parent', root', level', i)
    {
      JoinedIsRooted(parent, root, level, ra, rb, i);
    }
  }

  lemma JoinedIsRooted(parent: seq<nat>, root: seq<nat>, level: seq<nat>, ra: nat, rb: nat, i: nat)
    requires Forest(parent, root, level) && ra < |parent| && rb < |parent| && root[ra] == ra && root[rb] == rb && ra != rb
    requires i < |parent|
    ensures Rooted(parent[rb := ra], JoinedRoots(root, ra, rb), JoinedLevels(root, level, ra, rb), i)
  {
    assert Rooted(parent, root, level, i);
    assert Rooted(parent, root, level, ra);
    assert Rooted(parent, root, level, rb);
  }

  class DisjointSet {
    const parent: array<nat>
    ghost var root: seq<nat>
    ghost var level: seq<nat>

    ghost predicate Valid()
      reads this, parent
    {
      Forest(parent[..], root, level)
    }

    constructor (n: nat)
      ensures Valid() && fresh(parent) && |root| == n && forall i :: 0 <= i < n ==> root[i] == i
    {
      parent := new nat[n](i => i);
      root := seq(n, i => i);
      level := seq(n, i => 0);
    }

    /** find: the root of `x`, compressing the path to it. */
    method Find(x: nat) returns (r: nat)
      requires Valid() && x < |root|
      modifies parent
      ensures Valid() && r == root[x]
      decreases level[x]
    {
      assert Rooted(parent[..], root, level, x);
      if parent[x] != x {
        var top := Find(parent[x]);
        CompressKeepsForest(parent[..], root, level, x);
        ghost var before := parent[..];
        parent[x] := top;
        assert parent[..] == before[x := root[x]];
      }
      r := parent[x];
    }

    /** union: the root of `a` becomes the root of everything in the tree of `b`. */
    method Union(a: nat, b: nat)
      requires Valid() && a < |root| && b < |root|
      modifies this, parent
      ensures Valid() && root == JoinedRoots(old(root), old(root[a]), old(root[b]))
    {
      var ra := Find(a);
      var rb := Find(b);
      assert Rooted(parent[..], root, level, a) && Rooted(parent[..], root, level, b);
      if ra != rb {
        JoinKeepsForest(parent[..], root, level, ra, rb);
        ghost var before := parent[..];
        parent[rb] := ra;
        assert parent[..] == before[rb := ra];
        level := JoinedLevels(root, level, ra, rb);
        root := JoinedRoots(root, ra, rb);
      } else {
        assert root == JoinedRoots(root, ra, rb);
      }
    }

    /** groups: the boxes of every tree in index order, the trees in the order of their roots. */
    method Groups(boxes: seq<Box>) returns (out: seq<seq<Box>>)
      requires Valid() && |boxes| == |root|
      modifies parent
      ensures Valid() && AreGroups(boxes, root, out)
    {
      var groups := Gather();
      out := ListGroups(boxes, root, groups);
    }

    /** The indices of every tree, keyed by its root. */
    method Gather() returns (groups: map<nat, seq<nat>>)
      requires Valid()
      modifies parent
      ensures Valid() && Gathered(root, |root|, groups)
    {
      groups := map[];
      for i := 0 to parent.Length
        invariant Valid() && |root| == parent.Length && Gathered(root, i, groups)
      {
        groups := GatherOne(groups, i);
      }
    }

    method GatherOne(groups: map<nat, seq<nat>>, i: nat) returns (more: map<nat, seq<nat>>)
      requires Valid() && i < |root| && Gathered(root, i, groups)
      modifies parent
      ensures Valid() && Gathered(root, i + 1, more)
    {
      GatherMore(root, i, groups);
      var r := Find(i);
      more := WithMember(groups, r, i);
    }

    /** Joins every connected pair of boxes. */
    method JoinConnected(boxes: seq<Box>)
      requires Valid() && root == RootsTo(boxes, 0, 0)
      modifies this, parent
      ensures Valid() && root == RootOf(boxes)
    {
      for i := 0 to |boxes|
        invariant Valid() && root == RootsTo(boxes, i, 0)
      {
        JoinRow(boxes, i);
      }
    }

    /** Joins one box with every later box connected to it. */
    method JoinRow(boxes: seq<Box>, i: nat)
      requires Valid() && i < |boxes| && root == RootsTo(boxes, i, 0)
      modifies this, parent
      ensures Valid() && root == RootsTo(boxes, i + 1, 0)
    {
      for j := i + 1 to |boxes|
        invariant Valid() && root == RootsTo(boxes, i, j)
      {
        if Connected(boxes[i], boxes[j]) { Union(i, j); }
      }
    }
  }

  /** The indices below `i` with root `r`, in order. */
  ghost function Members(root: seq<nat>, r: nat, i: nat): seq<nat>
    requires i <= |root|
  {
    if i == 0 then [] else Members(root, r, i - 1) + (if root[i - 1] == r then [i - 1] else [])
  }

  ghost predicate Gathered(root: seq<nat>, i: nat, groups: map<nat, seq<nat>>)
    requires i <= |root|
  {
    && (forall r :: r in groups ==> groups[r] == Members(root, r, i) && groups[r] != [])
    && (forall r: nat :: r !in groups ==> Members(root, r, i) == [])
  }

  function WithMember(groups: map<nat, seq<nat>>, r: nat, i: nat): map<nat, seq<nat>> {
    groups[r := (if r in groups then groups[r] else []) + [i]]
  }

  lemma GatherMore(root: seq<nat>, i: nat, groups: map<nat, seq<nat>>)
    requires i < |root| && Gathered(root, i, groups)
    ensures Gathered(root, i + 1, WithMember(groups, root[i], i))
  {
  }

  lemma {:induction false} MembersAre(root: seq<nat>, r: nat, i: nat)
    requires i <= |root|
    ensures forall k: nat :: k in Members(root, r, i) <==> k < i && root[k] == r
    ensures forall j, k :: 0 <= j < k < |Members(root, r, i)| ==> Members(root, r, i)[j] < Members(root, r, i)[k]
  {
    if i > 0 {
      MembersAre(root, r, i - 1);
      var rest := Members(root, r, i - 1);
      forall k | 0 <= k < |rest| ensures rest[k] < i - 1 { assert rest[k] in rest; }
    }
  }

  function BoxesAt(boxes: seq<Box>, at: seq<nat>): (out: seq<Box>)
    requires forall k: nat :: k in at ==> k < |boxes|
    ensures |out| == |at| && forall k :: 0 <= k < |at| ==> at[k] < |boxes| && out[k] == boxes[at[k]]
  {
    assert forall k :: 0 <= k < |at| ==> at[k] in at;
    seq(|at|, k requires 0 <= k < |at| => boxes[at[k]])
  }

  /** One group per root, in increasing order of roots, each the boxes of its tree in index order. */
  ghost predicate IsGrouped(boxes: seq<Box>, root: seq<nat>, roots: seq<nat>, out: seq<seq<Box>>)
    requires |boxes| == |root|
  {
    && |out| == |roots| && (forall j, k :: 0 <= j < k < |roots| ==> roots[j] < roots[k])
    && (forall i :: 0 <= i < |root| ==> root[i] in roots)
    && (forall g :: 0 <= g < |out| ==> IsGroup(boxes, root, roots[g], out[g]))
  }

  ghost predicate AreGroups(boxes: seq<Box>, root: seq<nat>, out: seq<seq<Box>>)
    requires |boxes| == |root|
  {
    exists roots :: IsGrouped(boxes, root, roots, out)
  }

  ghost predicate IsGroup(boxes: seq<Box>, root: seq<nat>, r: nat, group: seq<Box>)
    requires |boxes| == |root|
  {
    var at := Members(root, r, |root|);
    at != [] && |group| == |at| && forall k :: 0 <= k < |at| ==> at[k] < |boxes| && group[k] == boxes[at[k]]
  }

  method ListGroups(boxes: seq<Box>, ghost root: seq<nat>, groups: map<nat, seq<nat>>) returns (out: seq<seq<Box>>)
    requires |boxes| == |root| && Gathered(root, |root|, groups)
    ensures AreGroups(boxes, root, out)
  {
    var order := SortedKeys(groups.Keys);
    out := [];
    for g := 0 to |order|
      invariant |out| == g && forall h :: 0 <= h < g ==> IsGroup(boxes, root, order[h], out[h])
    {
      assert order[g] in groups;
      MembersAre(root, order[g], |root|);
      out := out + [BoxesAt(boxes, groups[order[g]])];
    }
    forall i | 0 <= i < |root|
      ensures root[i] in order
    {
      MembersAre(root, root[i], |root|);
      assert i in Members(root, root[i], |root|);
    }
    assert IsGrouped(boxes, root, order, out);
  }

  method SortedKeys(keys: set<nat>) returns (order: seq<nat>)
    ensures forall k :: k in order <==> k in keys
    ensures forall j, k :: 0 <= j < k < |order| ==> order[j] < order[k]
  {
    var rest, list := keys, [];
    while rest != {}
      invariant rest <= keys && forall k :: k in list <==> k in keys - rest
      invariant Distinct(list)
      decreases rest
    {
      var k := AnyOf(rest);
      DistinctAppend(list, k);
      list := list + [k];
      rest := rest - {k};
    }
    order := Sort(list, (a: nat, b: nat) => a < b);
    DistinctTransfers(list, order);
    KeysIncrease(order);
  }

  lemma KeysIncrease(order: seq<nat>)
    requires Distinct(order) && SortedBy((a: nat, b: nat) => a < b, order)
    ensures forall j, k :: 0 <= j < k < |order| ==> order[j] < order[k]
  {
    forall j, k | 0 <= j < k < |order|
      ensures order[j] < order[k]
    {
      var less := (a: nat, b: nat) => a < b;
      assert !less(order[k], order[j]);
    }
  }

  // ----- ConnectedComponents -----

  /**
   * The groups hold the boxes of the list and no others, each group in canonical order, and two boxes
   * are in the same group exactly when a chain of connected boxes joins them.
   */
  ghost predicate AreComponents(boxes: seq<Box>, out: seq<seq<Box>>) {
    && (forall g :: 0 <= g < |out| ==> out[g] != [] && Sorted(out[g]))
    && (forall g, b :: 0 <= g < |out| && b in out[g] ==> b in boxes)
    && (forall i :: 0 <= i < |boxes| ==> Placed(boxes[i], out))
    && (forall i: nat, j: nat, g, h ::
          (i < |boxes| && j < |boxes| && 0 <= g < |out| && 0 <= h < |out| && boxes[i] in out[g] && boxes[j] in out[h]) ==>
          (g == h <==> Chained(boxes, i, j)))
  }

  ghost predicate Placed(b: Box, out: seq<seq<Box>>) {
    exists g :: 0 <= g < |out| && b in out[g]
  }

  /** A box is in the group of its root, and in no other. */
  lemma GroupHolds(boxes: seq<Box>, root: seq<nat>, r: nat, group: seq<Box>, i: nat)
    requires |boxes| == |root| && Sorted(boxes) && IsGroup(boxes, root, r, group) && i < |boxes|
    ensures boxes[i] in group <==> root[i] == r
  {
    var at := Members(root, r, |root|);
    MembersAre(root, r, |root|);
    if root[i] == r {
      assert i in at;
      var k :| 0 <= k < |at| && at[k] == i;
      assert group[k] == boxes[i];
    }
    if boxes[i] in group {
      var k :| 0 <= k < |group| && group[k] == boxes[i];
      assert at[k] in at;
      SortedIsDistinct(boxes, at[k], i);
    }
  }

  lemma GroupIsSorted(boxes: seq<Box>, root: seq<nat>, r: nat, group: seq<Box>)
    requires |boxes| == |root| && Sorted(boxes) && IsGroup(boxes, root, r, group)
    ensures group != [] && Sorted(group) && forall b :: b in group ==> b in boxes
  {
    MembersAre(root, r, |root|);
  }

  lemma GroupedAreComponents(boxes: seq<Box>, root: seq<nat>, roots: seq<nat>, out: seq<seq<Box>>)
    requires Sorted(boxes) && root == RootOf(boxes) && IsGrouped(boxes, root, roots, out)
    ensures AreComponents(boxes, out)
  {
    forall g | 0 <= g < |out|
      ensures out[g] != [] && Sorted(out[g]) && forall b :: b in out[g] ==> b in boxes
    {
      GroupIsSorted(boxes, root, roots[g], out[g]);
    }
    forall i | 0 <= i < |boxes|
      ensures Placed(boxes[i], out)
    {
      var g :| 0 <= g < |roots| && roots[g] == root[i];
      GroupHolds(boxes, root, roots[g], out[g], i);
    }
    forall i: nat, j: nat, g, h |
      i < |boxes| && j < |boxes| && 0 <= g < |out| && 0 <= h < |out| && boxes[i] in out[g] && boxes[j] in out[h]
      ensures g == h <==> Chained(boxes, i, j)
    {
      GroupHolds(boxes, root, roots[g], out[g], i);
      GroupHolds(boxes, root, roots[h], out[h], j);
      RootsAreChains(boxes, i, j);
    }
  }

  /** The components of the boxes, listed by the roots that comparing every pair leaves. */
  ghost predicate IsResult(boxes: seq<Box>, out: seq<seq<Box>>) {
    AreComponents(boxes, out) && AreGroups(boxes, RootOf(boxes), out)
  }

  method ConnectedComponents<M(==)>(boxes: seq<Painted<M>>, join: (M, M) -> M, ghost n: nat) returns (out: seq<seq<Box>>)
    requires OfDims(Geo(boxes), n)
    ensures Normalized(NormalOf(boxes), n) && IsResult(NormalOf(boxes), out)
  {
    var kept := Normalize(boxes, join, n);
    var list := Geo(kept);
    NormalIsUnique(boxes, list, n);
    if |list| == 0 {
      assert IsGrouped(list, RootOf(list), [], []);
      return [];
    }
    var ds := new DisjointSet(|list|);
    assert ds.root == RootsTo(list, 0, 0);
    ds.JoinConnected(list);
    out := ds.Groups(list);
    GroupsAreResult(list, out);
  }

  lemma GroupsAreResult(boxes: seq<Box>, out: seq<seq<Box>>)
    requires Sorted(boxes) && AreGroups(boxes, RootOf(boxes), out)
    ensures IsResult(boxes, out)
  {
    var roots :| IsGrouped(boxes, RootOf(boxes), roots, out);
    GroupedAreComponents(boxes, RootOf(boxes), roots, out);
  }

  /** The roots of the groups are the roots of the boxes. */
  lemma RootsOfGroups(boxes: seq<Box>, root: seq<nat>, roots: seq<nat>, out: seq<seq<Box>>, r: nat)
    requires |boxes| == |root| && IsGrouped(boxes, root, roots, out)
    ensures r in roots <==> r in root
  {
    if r in roots {
      var g :| 0 <= g < |roots| && roots[g] == r;
      MembersAre(root, r, |root|);
      var at := Members(root, r, |root|);
      assert IsGroup(boxes, root, r, out[g]) && at[0] in at;
    }
  }

  /** The boxes determine the result, groups and order. */
  lemma ResultIsUnique(boxes: seq<Box>, out: seq<seq<Box>>, out': seq<seq<Box>>)
    requires IsResult(boxes, out) && IsResult(boxes, out')
    ensures out == out'
  {
    var s: seq<nat> :| IsGrouped(boxes, RootOf(boxes), s, out);
    var t: seq<nat> :| IsGrouped(boxes, RootOf(boxes), t, out');
    SameRoots(boxes, RootOf(boxes), s, out, t, out');
    forall g | 0 <= g < |out|
      ensures out[g] == out'[g]
    {
      assert IsGroup(boxes, RootOf(boxes), s[g], out[g]) && IsGroup(boxes, RootOf(boxes), s[g], out'[g]);
    }
  }

  lemma SameRoots(boxes: seq<Box>, root: seq<nat>, s: seq<nat>, out: seq<seq<Box>>, t: seq<nat>, out': seq<seq<Box>>)
    requires |boxes| == |root| && IsGrouped(boxes, root, s, out) && IsGrouped(boxes, root, t, out')
    ensures s == t
  {
    var less := (a: nat, b: nat) => a < b;
    assert Increasing(less, s) && Increasing(less, t) && Asymmetric(less, s);
    forall r: nat
      ensures r in Elements(s) <==> r in Elements(t)
    {
      RootsOfGroups(boxes, root, s, out, r);
      RootsOfGroups(boxes, root, t, out', r);
    }
    IncreasingIsUnique(less, s, t);
  }
}
