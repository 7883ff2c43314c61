/** Sorted, de-duplicated coordinates, as slabCoordinates and uniqueBreakpoints compact them. */
module Breakpoints {
  import opened Sequences

  predicate Rising(s: seq<real>) {
    forall j, k :: 0 <= j < k < |s| ==> s[j] < s[k]
  }

  ghost function WithValue(s: seq<real>, x: real): seq<real> {
    if s == [] || x < s[0] then [x] + s
    else if x == s[0] then s
    else [s[0]] + WithValue(s[1..], x)
  }

  /** The values of a list in increasing order, each once. */
  ghost function Unique(list: seq<real>): seq<real> {
    if list == [] then [] else WithValue(Unique(list[..|list| - 1]), list[|list| - 1])
  }

  lemma {:induction false} WithValueRises(s: seq<real>, x: real)
    requires Rising(s)
    ensures Rising(WithValue(s, x)) && forall y :: y in WithValue(s, x) <==> y in s || y == x
  {
    if s != [] && x > s[0] {
      WithValueRises(s[1..], x);
      var t := WithValue(s[1..], x);
      forall k | 0 <= k < |t|
        ensures s[0] < t[k]
      {
        assert t[k] in t;
        if t[k] != x {
          var j :| 0 <= j < |s[1..]| && s[1..][j] == t[k];
          assert s[j + 1] == t[k];
        }
      }
      assert s == [s[0]] + s[1..];
    }
  }

  lemma {:induction false} UniqueRises(list: seq<real>)
    ensures Rising(Unique(list)) && forall y :: y in Unique(list) <==> y in list
  {
    if list != [] {
      var rest, last := list[..|list| - 1], list[|list| - 1];
      UniqueRises(rest);
      WithValueRises(Unique(rest), last);
      assert list == rest + [last];
    }
  }

  lemma RisingIsUnique(s: seq<real>, t: seq<real>)
    requires Rising(s) && Rising(t) && forall y :: y in s <==> y in t
    ensures s == t
  {
    var less := (a: real, b: real) => a < b;
    assert Increasing(less, s) && Increasing(less, t) && Asymmetric(less, s);
    assert Elements(s) == Elements(t) by {
      forall y: real ensures y in Elements(s) <==> y in Elements(t) { }
    }
    IncreasingIsUnique(less, s, t);
  }

  /** Sorting and then dropping every value equal to the one before it. */
  method SortUnique(list: seq<real>) returns (out: seq<real>)
    ensures out == Unique(list)
  {
    var sorted := Sort(list, (a: real, b: real) => a < b);
    out := Compact(sorted);
    UniqueRises(list);
    RisingIsUnique(out, Unique(list));
  }

  method Compact(sorted: seq<real>) returns (out: seq<real>)
    requires SortedBy((a: real, b: real) => a < b, sorted)
    ensures Rising(out) && forall y :: y in out <==> y in sorted
  {
    var less := (a: real, b: real) => a < b;
    assert forall j, k :: 0 <= j < k < |sorted| ==> !less(sorted[k], sorted[j]);
    out := [];
    for i := 0 to |sorted|
      invariant Rising(out) && forall y :: y in out <==> y in sorted[..i]
      invariant if i == 0 then out == [] else out != [] && out[|out| - 1] == sorted[i - 1]
    {
      assert sorted[..i + 1] == sorted[..i] + [sorted[i]];
      if i > 0 {
        assert !less(sorted[i], sorted[i - 1]);
        assert forall j :: 0 <= j < |out| ==> out[j] <= out[|out| - 1] <= sorted[i];
      }
      if |out| == 0 || out[|out| - 1] != sorted[i] { out := out + [sorted[i]]; }
    }
    assert sorted[..|sorted|] == sorted;
  }

  /** The consecutive values a point lies between. */
  lemma Bracket(s: seq<real>, x: real, a: nat, b: nat) returns (j: nat)
    requires Rising(s) && a < |s| && b < |s| && s[a] <= x < s[b]
    ensures j + 1 < |s| && s[j] <= x < s[j + 1]
  {
    j := a;
    while s[j + 1] <= x
      invariant a <= j < b && s[j] <= x
      decreases b - j
    {
      j := j + 1;
    }
  }

  /** A listed value at or below a point is at or below the value the point's slab starts with; above, likewise. */
  lemma BracketBounds(s: seq<real>, x: real, j: nat, v: real)
    requires Rising(s) && j + 1 < |s| && s[j] <= x < s[j + 1] && v in s
    ensures v <= x ==> v <= s[j]
    ensures v > x ==> v >= s[j + 1]
  {
    var k :| 0 <= k < |s| && s[k] == v;
  }
}
