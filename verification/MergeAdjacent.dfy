/** space/canonical.go: MergeAdjacent, whichever implementation runs. */
module MergeAdjacent {
  import opened Sequences
  import opened Boxes
  import opened BoxSubtraction
  import opened Covers
  import opened BoxSets
  import opened BoxDifference
  import opened Merging
  import opened CrossIndex
  import opened Gridding
  import Scanning
  import Indexing

  const INDEXED_MERGE_THRESHOLD := 2048

  /** The canonical listing of the greedy fixpoint of a list of boxes. */
  ghost predicate IsMergeOf(boxes: seq<Box>, out: seq<Box>) {
    Sorted(out) && Elements(out) == Greedy(Maxima(Solid(boxes)))
  }

  method Run(boxes: seq<Box>, ghost n: nat, hash: Hash, binHash: BinHash) returns (out: seq<Box>)
    requires OfDims(boxes, n)
    ensures IsMergeOf(boxes, out)
  {
    if |boxes| < INDEXED_MERGE_THRESHOLD {
      out := Scanning.ScanMerge(boxes, n, hash);
    } else {
      assert boxes[0] in boxes;
      out := Indexing.IndexedMerge(boxes, |boxes[0]|, hash, binHash);
    }
  }

  /**
   * The scanner and the indexed merger return the same list, whatever hashes each uses and in
   * whatever order each receives the boxes.
   */
  lemma ImplementationsAgree(boxes: seq<Box>, boxes': seq<Box>, scanned: seq<Box>, indexed: seq<Box>)
    requires Solid(boxes) == Solid(boxes') && IsMergeOf(boxes, scanned) && IsMergeOf(boxes', indexed)
    ensures scanned == indexed
  {
    SortedIsUnique(scanned, indexed);
  }

  lemma MaximaAreCover(boxes: seq<Box>, n: nat)
    requires OfDims(boxes, n)
    ensures Cover(Maxima(Solid(boxes)), n)
  {
    MaximaAreMaximal(Solid(boxes));
  }

  lemma SolidKeepsPoints(boxes: seq<Box>, x: Point)
    ensures InSet(Solid(boxes), x) <==> InsideSome(boxes, x)
  {
    if InsideSome(boxes, x) {
      var k :| 0 <= k < |boxes| && Inside(boxes[k], x);
      HollowMeansNoPoint(boxes[k]);
      assert boxes[k] in Solid(boxes);
    }
  }

  /**
   * MergeAdjacent covers exactly the points of its input, with a normalized list in which no two
   * boxes can merge.
   */
  lemma IsCoverPreserving(boxes: seq<Box>, out: seq<Box>, n: nat)
    requires OfDims(boxes, n) && IsMergeOf(boxes, out)
    ensures Normalized(out, n) && Stuck(Elements(out))
    ensures forall x :: InsideSome(out, x) <==> InsideSome(boxes, x)
  {
    var C := Maxima(Solid(boxes));
    MaximaAreCover(boxes, n);
    GreedyIsFixpoint(C, n);
    forall k | 0 <= k < |out|
      ensures |out[k]| == n && !Hollow(out[k])
    {
      assert out[k] in Elements(out);
    }
    forall x
      ensures InsideSome(out, x) <==> InsideSome(boxes, x)
    {
      InsideSomeIsInSet(out, x);
      MaximaKeepPoints(Solid(boxes), x);
      SolidKeepsPoints(boxes, x);
    }
  }

  /** Merging a merged list gives it back. */
  lemma IsIdempotent(boxes: seq<Box>, out: seq<Box>, again: seq<Box>, n: nat)
    requires OfDims(boxes, n) && IsMergeOf(boxes, out) && IsMergeOf(out, again)
    ensures again == out
  {
    IsCoverPreserving(boxes, out, n);
    NormalIsProper(out, n);
    assert Solid(out) == Elements(out);
    MaximaOfAntichain(Elements(out));
    GreedyStops(Elements(out));
    SortedIsUnique(again, out);
  }

  /** The result never has more boxes than the maximal boxes of the input, and strictly fewer once a pair merges. */
  lemma NeverGrows(boxes: seq<Box>, out: seq<Box>, n: nat)
    requires OfDims(boxes, n) && IsMergeOf(boxes, out)
    ensures |out| <= |Maxima(Solid(boxes))|
    ensures !Stuck(Maxima(Solid(boxes))) ==> |out| < |Maxima(Solid(boxes))|
  {
    var C := Maxima(Solid(boxes));
    MaximaAreCover(boxes, n);
    GreedyIsFixpoint(C, n);
    SortedSize(out);
    if !Stuck(C) {
      var a, b := FirstExists(C, n);
      LessIsIrreflexive(a, b);
      GreedyStep(C, a, b);
      MergedShrinks(C, a, b);
      MergedIsCover(C, a, b, n);
      GreedyIsFixpoint(Merged(C, a, b), n);
    }
  }

  lemma SortedSize(s: seq<Box>)
    requires Sorted(s)
    ensures |Elements(s)| == |s|
  {
    forall j, k | 0 <= j < k < |s|
      ensures s[j] != s[k]
    {
      LessIsTotal(s[j], s[k]);
    }
    DistinctIsCardinality(s);
  }
}
