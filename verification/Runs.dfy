/**
 * Labelled runs on the doubled line. Every canonical list of the one-dimensional packages is one:
 * a normalized interval set (labels all equal), the covers of a sweep, the winner segments.
 */
module Runs {
  import opened Line

  datatype Option<+T> = None | Some(value: T)

  datatype Run<L> = Run(lo: Fine, hi: Fine, tag: L)

  predicate On<L>(r: Run<L>, p: Fine) {
    Le(r.lo, p) && Lt(p, r.hi)
  }

  /** Nonempty runs in order, disjoint, and maximal: runs that meet carry different labels. */
  ghost predicate Canonical<L>(rs: seq<Run<L>>) {
    && (forall k :: 0 <= k < |rs| ==> Lt(rs[k].lo, rs[k].hi))
    && (forall j, k :: 0 <= j < k < |rs| ==> Le(rs[j].hi, rs[k].lo))
    && (forall j, k :: 0 <= j < k < |rs| && rs[j].hi == rs[k].lo ==> rs[j].tag != rs[k].tag)
  }

  /** Some run with this label is on the fine point. */
  ghost predicate Labelled<L>(rs: seq<Run<L>>, p: Fine, l: L) {
    exists k :: 0 <= k < |rs| && On(rs[k], p) && rs[k].tag == l
  }

  /** The two lists give every real point the same label, or none. */
  ghost predicate Agree<L(!new)>(rs: seq<Run<L>>, ss: seq<Run<L>>) {
    forall x: real, l: L :: Labelled(rs, At(x), l) <==> Labelled(ss, At(x), l)
  }

  lemma TailCanonical<L>(rs: seq<Run<L>>)
    requires Canonical(rs) && rs != []
    ensures Canonical(rs[1..])
    ensures forall k :: 0 <= k < |rs[1..]| ==> Le(rs[0].hi, rs[1..][k].lo)
  {
  }

  /** The first run is the only one that can be on points before its end. */
  lemma HeadDecides<L>(rs: seq<Run<L>>, p: Fine, l: L)
    requires Canonical(rs) && rs != [] && Lt(p, rs[0].hi)
    ensures Labelled(rs, p, l) <==> Le(rs[0].lo, p) && rs[0].tag == l
  {
    if Le(rs[0].lo, p) && rs[0].tag == l {
      assert On(rs[0], p);
    }
  }

  /** Beyond the end of the first run only the rest decides. */
  lemma TailDecides<L>(rs: seq<Run<L>>, p: Fine, l: L)
    requires rs != [] && Le(rs[0].hi, p)
    ensures Labelled(rs, p, l) <==> Labelled(rs[1..], p, l)
  {
    if Labelled(rs[1..], p, l) {
      var k :| 0 <= k < |rs[1..]| && On(rs[1..][k], p) && rs[1..][k].tag == l;
      assert On(rs[k + 1], p) && rs[k + 1].tag == l;
    }
    if Labelled(rs, p, l) {
      var k :| 0 <= k < |rs| && On(rs[k], p) && rs[k].tag == l;
      assert rs[1..][k - 1] == rs[k];
    }
  }

  /** Agreeing lists cannot have a first run that starts strictly earlier. */
  lemma HeadStarts<L(!new)>(rs: seq<Run<L>>, ss: seq<Run<L>>)
    requires Canonical(rs) && Canonical(ss) && Agree(rs, ss) && rs != []
    ensures ss != [] && Le(ss[0].lo, rs[0].lo)
  {
    if ss == [] || Lt(rs[0].lo, ss[0].lo) {
      var x := RealBetween(rs[0].lo, if ss == [] then rs[0].hi else Min(rs[0].hi, ss[0].lo));
      HeadDecides(rs, At(x), rs[0].tag);
      assert false;
    }
  }

  lemma HeadLabels<L(!new)>(rs: seq<Run<L>>, ss: seq<Run<L>>)
    requires Canonical(rs) && Canonical(ss) && Agree(rs, ss) && rs != [] && ss != []
    requires rs[0].lo == ss[0].lo
    ensures rs[0].tag == ss[0].tag
  {
    var x := RealBetween(rs[0].lo, Min(rs[0].hi, ss[0].hi));
    HeadDecides(rs, At(x), rs[0].tag);
    HeadDecides(ss, At(x), rs[0].tag);
  }

  /** Agreeing lists whose first runs start together cannot have one that ends strictly earlier. */
  lemma HeadEnds<L(!new)>(rs: seq<Run<L>>, ss: seq<Run<L>>)
    requires Canonical(rs) && Canonical(ss) && Agree(rs, ss) && rs != [] && ss != []
    requires rs[0].lo == ss[0].lo
    ensures Le(ss[0].hi, rs[0].hi)
  {
    HeadLabels(rs, ss);
    if Lt(rs[0].hi, ss[0].hi) {
      var l := ss[0].tag;
      var limit := if |rs| == 1 then ss[0].hi
                   else if rs[1].lo == rs[0].hi then Min(rs[1].hi, ss[0].hi)
                   else Min(rs[1].lo, ss[0].hi);
      var x := RealBetween(rs[0].hi, limit);
      HeadDecides(ss, At(x), l);
      TailDecides(rs, At(x), l);
      TailCanonical(rs);
      if |rs| > 1 {
        HeadDecides(rs[1..], At(x), l);
      }
      assert false;
    }
  }

  lemma TailsAgree<L(!new)>(rs: seq<Run<L>>, ss: seq<Run<L>>)
    requires Canonical(rs) && Canonical(ss) && Agree(rs, ss) && rs != [] && ss != [] && rs[0] == ss[0]
    ensures Agree(rs[1..], ss[1..])
  {
    forall x: real, l: L
      ensures Labelled(rs[1..], At(x), l) <==> Labelled(ss[1..], At(x), l)
    {
      if Le(rs[0].hi, At(x)) {
        TailDecides(rs, At(x), l);
        TailDecides(ss, At(x), l);
        assert Labelled(rs, At(x), l) <==> Labelled(ss, At(x), l);
      } else {
        TailCanonical(rs);
        TailCanonical(ss);
      }
    }
  }

  /** Canonical lists that label the real points alike are identical. */
  lemma {:induction false} CanonicalIsUnique<L(!new)>(rs: seq<Run<L>>, ss: seq<Run<L>>)
    requires Canonical(rs) && Canonical(ss) && Agree(rs, ss)
    ensures rs == ss
    decreases |rs|
  {
    if rs == [] {
      if ss != [] { HeadStarts(ss, rs); }
    } else {
      HeadStarts(rs, ss);
      HeadStarts(ss, rs);
      assert rs[0].lo == ss[0].lo;
      HeadLabels(rs, ss);
      HeadEnds(rs, ss);
      HeadEnds(ss, rs);
      assert rs[0] == ss[0];
      TailsAgree(rs, ss);
      TailCanonical(rs);
      TailCanonical(ss);
      CanonicalIsUnique(rs[1..], ss[1..]);
      assert rs == [rs[0]] + rs[1..] && ss == [ss[0]] + ss[1..];
    }
  }
}
