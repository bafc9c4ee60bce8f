/**
 * Lemmas about `Classify` and `PathUpTo`, the functions that specify the two
 * loops of `buildGlyph` (src/App.jsx, lines 45-51 and 62-84): what the
 * classification of the letters into vertices and rings guarantees after any
 * number of letters, and the shape of the command sequence built from the
 * vertices.
 */
module Classification {
  import opened Letters
  import opened RunCompression
  import opened GlyphBuilder

  /** The letter each point was drawn for. */
  function SourceLetters(letters: string, pts: seq<Point>): (s: string)
    requires forall j :: 0 <= j < |pts| ==> pts[j].source < |letters|
    ensures |s| == |pts|
  {
    seq(|pts|, j requires 0 <= j < |pts| => letters[pts[j].source])
  }

  /** One step of the `forEach`: letter `k - 1` is appended to the rings or to the vertices. */
  lemma ClassifyStep(letters: string, pal: bool, half: nat, k: nat)
    requires 1 <= k <= |letters| && AllAZ(letters)
    ensures Classify(letters, pal, half, k) ==
      var (pts, rings) := Classify(letters, pal, half, k - 1);
      if IsRing(letters, k - 1) then (pts, rings + [PointAt(letters, pal, half, k - 1)])
      else (pts + [PointAt(letters, pal, half, k - 1)], rings)
  {
  }

  /** Every point is the one drawn for its own letter, which is a ring exactly when the point is one. */
  ghost predicate PointsOfLetters(letters: string, pal: bool, half: nat, k: nat, pts: seq<Point>, ring: bool)
    requires k <= |letters| && AllAZ(letters)
  {
    forall j :: 0 <= j < |pts| ==>
      pts[j].source < k && pts[j] == PointAt(letters, pal, half, pts[j].source) &&
      IsRing(letters, pts[j].source) == ring
  }

  /** Points appear in the order of their letters. */
  ghost predicate InSourceOrder(pts: seq<Point>) {
    forall j1, j2 :: 0 <= j1 < j2 < |pts| ==> pts[j1].source < pts[j2].source
  }

  /** Every letter below `k` that is (or is not) a ring has a point among `pts`. */
  ghost predicate Covers(letters: string, k: nat, pts: seq<Point>, ring: bool)
    requires k <= |letters|
  {
    forall i :: 0 <= i < k && IsRing(letters, i) == ring ==>
      exists j :: 0 <= j < |pts| && pts[j].source == i
  }

  /**
   * The loop invariant of the `forEach` (lines 45-51): after `k` letters,
   * every one of them is either a vertex or a ring and not both; the vertices
   * are exactly the letters that do not repeat their predecessor, the rings
   * exactly those that do, each in order and drawn at its own wheel position
   * and radius side.
   */
  lemma ClassifyInvariant(letters: string, pal: bool, half: nat, k: nat)
    requires k <= |letters| && AllAZ(letters)
    ensures |Classify(letters, pal, half, k).0| + |Classify(letters, pal, half, k).1| == k
    ensures PointsOfLetters(letters, pal, half, k, Classify(letters, pal, half, k).0, false)
    ensures PointsOfLetters(letters, pal, half, k, Classify(letters, pal, half, k).1, true)
    ensures InSourceOrder(Classify(letters, pal, half, k).0)
    ensures InSourceOrder(Classify(letters, pal, half, k).1)
    ensures Covers(letters, k, Classify(letters, pal, half, k).0, false)
    ensures Covers(letters, k, Classify(letters, pal, half, k).1, true)
  {
    ClassifyCounts(letters, pal, half, k);
    ClassifyPoints(letters, pal, half, k);
    ClassifyCovers(letters, pal, half, k);
  }

  /** Each letter adds exactly one point, a vertex or a ring. */
  lemma {:induction false} ClassifyCounts(letters: string, pal: bool, half: nat, k: nat)
    requires k <= |letters| && AllAZ(letters)
    ensures |Classify(letters, pal, half, k).0| + |Classify(letters, pal, half, k).1| == k
  {
    if k > 0 {
      ClassifyCounts(letters, pal, half, k - 1);
      ClassifyStep(letters, pal, half, k);
    }
  }

  /** Vertices and rings are drawn for their own letters, in letter order, on the right side. */
  lemma {:induction false} ClassifyPoints(letters: string, pal: bool, half: nat, k: nat)
    requires k <= |letters| && AllAZ(letters)
    ensures PointsOfLetters(letters, pal, half, k, Classify(letters, pal, half, k).0, false)
    ensures PointsOfLetters(letters, pal, half, k, Classify(letters, pal, half, k).1, true)
    ensures InSourceOrder(Classify(letters, pal, half, k).0)
    ensures InSourceOrder(Classify(letters, pal, half, k).1)
  {
    if k > 0 {
      ClassifyPoints(letters, pal, half, k - 1);
      ClassifyStep(letters, pal, half, k);
      var (pts, rings) := Classify(letters, pal, half, k - 1);
      var ring := IsRing(letters, k - 1);
      var grown := if ring then rings else pts;
      ExtendPoints(letters, pal, half, k, grown, ring);
      ExtendOrder(letters, pal, half, k, grown);
      KeepPoints(letters, pal, half, k, if ring then pts else rings, !ring);
    }
  }

  /** Every letter read so far has its point, among the vertices or among the rings. */
  lemma {:induction false} ClassifyCovers(letters: string, pal: bool, half: nat, k: nat)
    requires k <= |letters| && AllAZ(letters)
    ensures Covers(letters, k, Classify(letters, pal, half, k).0, false)
    ensures Covers(letters, k, Classify(letters, pal, half, k).1, true)
  {
    if k > 0 {
      ClassifyCovers(letters, pal, half, k - 1);
      ClassifyStep(letters, pal, half, k);
      var (pts, rings) := Classify(letters, pal, half, k - 1);
      var ring := IsRing(letters, k - 1);
      ExtendCover(letters, pal, half, k, if ring then rings else pts, ring);
      KeepCover(letters, k, if ring then pts else rings, !ring);
    }
  }

  /** Appending the point of letter `k - 1` to its own side keeps every point drawn for its own letter. */
  lemma ExtendPoints(letters: string, pal: bool, half: nat, k: nat, grown: seq<Point>, ring: bool)
    requires 1 <= k <= |letters| && AllAZ(letters) && IsRing(letters, k - 1) == ring
    requires PointsOfLetters(letters, pal, half, k - 1, grown, ring)
    ensures PointsOfLetters(letters, pal, half, k, grown + [PointAt(letters, pal, half, k - 1)], ring)
  {
  }

  /** Appending the point of letter `k - 1` keeps the points in order. */
  lemma ExtendOrder(letters: string, pal: bool, half: nat, k: nat, grown: seq<Point>)
    requires 1 <= k <= |letters| && AllAZ(letters)
    requires forall j :: 0 <= j < |grown| ==> grown[j].source < k - 1
    requires InSourceOrder(grown)
    ensures InSourceOrder(grown + [PointAt(letters, pal, half, k - 1)])
  {
  }

  /** Appending the point of letter `k - 1` to its own side covers that letter too. */
  lemma ExtendCover(letters: string, pal: bool, half: nat, k: nat, grown: seq<Point>, ring: bool)
    requires 1 <= k <= |letters| && AllAZ(letters) && IsRing(letters, k - 1) == ring
    requires Covers(letters, k - 1, grown, ring)
    ensures Covers(letters, k, grown + [PointAt(letters, pal, half, k - 1)], ring)
  {
    var p := PointAt(letters, pal, half, k - 1);
    var g' := grown + [p];
    assert p.source == k - 1;
    forall i | 0 <= i < k && IsRing(letters, i) == ring
      ensures exists j :: 0 <= j < |g'| && g'[j].source == i
    {
      if i < k - 1 {
        var j :| 0 <= j < |grown| && grown[j].source == i;
        assert g'[j].source == i;
      } else {
        assert g'[|grown|].source == i;
      }
    }
  }

  /** The other side is left alone: each of its points stays drawn for its own letter. */
  lemma KeepPoints(letters: string, pal: bool, half: nat, k: nat, same: seq<Point>, ring: bool)
    requires 1 <= k <= |letters| && AllAZ(letters)
    requires PointsOfLetters(letters, pal, half, k - 1, same, ring)
    ensures PointsOfLetters(letters, pal, half, k, same, ring)
  {
  }

  /** The other side is left alone: letter `k - 1` does not belong to it, so it still covers its letters. */
  lemma KeepCover(letters: string, k: nat, same: seq<Point>, ring: bool)
    requires 1 <= k <= |letters| && IsRing(letters, k - 1) != ring
    requires Covers(letters, k - 1, same, ring)
    ensures Covers(letters, k, same, ring)
  {
  }

  /**
   * The letters of the vertices are the run-compressed letters read so far:
   * a letter that repeats its predecessor never adds a vertex.
   */
  lemma {:induction false} ClassifyCompresses(letters: string, pal: bool, half: nat, k: nat)
    requires k <= |letters| && AllAZ(letters)
    ensures forall j :: 0 <= j < |Classify(letters, pal, half, k).0| ==>
      Classify(letters, pal, half, k).0[j].source < |letters|
    ensures SourceLetters(letters, Classify(letters, pal, half, k).0) == Compress(letters[..k])
  {
    ClassifyPoints(letters, pal, half, k);
    if k == 0 {
      assert letters[..0] == [];
    } else {
      ClassifyCompresses(letters, pal, half, k - 1);
      ClassifyPoints(letters, pal, half, k - 1);
      ClassifyStep(letters, pal, half, k);
      CompressGrows(letters, Classify(letters, pal, half, k - 1).0, PointAt(letters, pal, half, k - 1), k - 1);
    }
  }

  /**
   * Reading letter `i` extends the compression by that letter exactly when
   * it does not repeat its predecessor, that is, exactly when it adds a
   * vertex.
   */
  lemma CompressGrows(letters: string, pts: seq<Point>, p: Point, i: nat)
    requires i < |letters| && p.source == i
    requires forall j :: 0 <= j < |pts| ==> pts[j].source < |letters|
    requires SourceLetters(letters, pts) == Compress(letters[..i])
    ensures IsRing(letters, i) ==> SourceLetters(letters, pts) == Compress(letters[..i + 1])
    ensures !IsRing(letters, i) ==> SourceLetters(letters, pts + [p]) == Compress(letters[..i + 1])
  {
    assert letters[..i + 1] == letters[..i] + [letters[i]];
    CompressSnoc(letters[..i], letters[i]);
    if i > 0 {
      assert letters[..i][i - 1] == letters[i - 1];
    }
    assert SourceLetters(letters, pts + [p]) == SourceLetters(letters, pts) + [letters[i]];
  }

  /**
   * The command sequence built by the loop at lines 62-84: a move to the
   * first vertex, then segment `i` from vertex `i - 1` to vertex `i`, its bow
   * chosen by the segment index.
   */
  lemma {:induction false} PathShape(pts: seq<Point>, pal: bool, half: nat, k: nat)
    requires 1 <= k <= |pts|
    ensures |PathUpTo(pts, pal, half, k)| == k
    ensures PathUpTo(pts, pal, half, k)[0] == Move(pts[0])
    ensures forall i :: 1 <= i < k ==>
      PathUpTo(pts, pal, half, k)[i] == Quad(i, pts[i - 1], BowOf(pal, half, i), pts[i])
  {
    if k > 1 {
      PathShape(pts, pal, half, k - 1);
    }
  }
}
