/**
 * `buildGlyph` (src/App.jsx, lines 36-86) with the geometry kept abstract.
 *
 * A point records which letter it stands for (its wheel position), where
 * that letter stood in the normalised word, which radius it was drawn at and
 * whether the lead-in has moved it. A path is a `Move` followed by quadratic
 * segments, each naming the two points it joins and the rule that places its
 * control point. The floating-point coordinates that the JavaScript computes
 * from these are not modelled.
 */
module GlyphBuilder {
  import opened Wrappers
  import opened Letters
  import opened AngleMapper

  /** `PAL_SPLIT`: how far a palindrome's letters move off the base radius. */
  const PalSplit: int := 1

  /**
   * The radius a letter is drawn at: `baseR` itself, or `baseR` moved
   * outward or inward by `PAL_SPLIT` in a palindrome.
   */
  datatype Side = Base | Outward | Inward

  /** The amount added to `baseR` for a side. */
  function RadiusOffset(side: Side): (offset: int) {
    match side
    case Base => 0
    case Outward => PalSplit
    case Inward => -PalSplit
  }

  /**
   * A point on the glyph: the letter's wheel position (its angle), its index
   * in the normalised word, its radius side, and whether the lead-in has
   * pulled it toward the centre.
   */
  datatype Point = Point(wheel: nat, source: nat, side: Side, leadIn: bool)

  /**
   * How a segment's control point is placed: a perpendicular bow of the given
   * sign (palindromes) or the radial-then-pull rule (every other word).
   */
  datatype Bow = Leaf(sign: int) | Orbit

  /** One path command: `M x y`, or segment `k`'s `Q cx cy x y` from one vertex to the next. */
  datatype Command = Move(to: Point) | Quad(segment: nat, from: Point, bow: Bow, to: Point)

  /** The result `{ d, dot, rings }`; `d` as its command sequence, `""` being `[]`. */
  datatype Glyph = Glyph(path: seq<Command>, dot: Option<Point>, rings: seq<Point>)

  /** The glyph of a word with no letters: `{ d: "", dot: null, rings: [] }`. */
  const EmptyGlyph := Glyph([], None, [])

  /**
   * `half`, `Math.floor((letters.length - 1) / 2)`: the last index of a
   * word's first half. In a word of odd length it is the middle letter, its
   * own mirror; in a word of even length its mirror is the letter after it.
   */
  function Half(letters: string): (h: nat)
    requires letters != []
    ensures h < |letters|
    ensures |letters| % 2 == 1 ==> h == |letters| - 1 - h
    ensures |letters| % 2 == 0 ==> h + 1 == |letters| - 1 - h
  {
    (|letters| - 1) / 2
  }

  /** The radius side of letter `i`: outward up to `half`, inward after it, `baseR` unless a palindrome. */
  function SideOf(pal: bool, half: nat, i: nat): (side: Side) {
    if !pal then Base else if i <= half then Outward else Inward
  }

  /** Letter `i` repeats the letter just before it, so it becomes a ring. */
  predicate IsRing(letters: string, i: nat)
    requires i < |letters|
  {
    i > 0 && letters[i] == letters[i - 1]
  }

  /** The point `polarToXY` gives letter `i`, before any lead-in. */
  function PointAt(letters: string, pal: bool, half: nat, i: nat): (p: Point)
    requires i < |letters| && IsAZ(letters[i])
  {
    Point(AngleOf(letters[i]).value, i, SideOf(pal, half, i), false)
  }

  /**
   * `pts` and `rings` once the `forEach` callback has run on the first `k`
   * letters: a letter without an angle is skipped, a repeated letter is a
   * ring, any other letter is a vertex.
   */
  function Classify(letters: string, pal: bool, half: nat, k: nat): (r: (seq<Point>, seq<Point>))
    requires k <= |letters|
  {
    if k == 0 then ([], [])
    else
      var (pts, rings) := Classify(letters, pal, half, k - 1);
      var i := k - 1;
      match AngleOf(letters[i])
      case None => (pts, rings)
      case Some(idx) =>
        var p := Point(idx, i, SideOf(pal, half, i), false);
        if IsRing(letters, i) then (pts, rings + [p]) else (pts + [p], rings)
  }

  /**
   * The first letter is always a vertex, and stays the first vertex however
   * many letters follow.
   */
  lemma {:induction false} FirstLetterIsVertex(letters: string, pal: bool, half: nat, k: nat)
    requires 1 <= k <= |letters|
    requires AllAZ(letters)
    ensures |Classify(letters, pal, half, k).0| >= 1
    ensures Classify(letters, pal, half, k).0[0] == PointAt(letters, pal, half, 0)
  {
    var i := k - 1;
    assert AngleOf(letters[i]).Some?;
    if k > 1 {
      FirstLetterIsVertex(letters, pal, half, k - 1);
      var (pts, rings) := Classify(letters, pal, half, k - 1);
      assert Classify(letters, pal, half, k).0[0] == pts[0];
    } else {
      assert !IsRing(letters, 0);
    }
  }

  /** The rule for segment `k`'s control point (line 72): the bow flips once `k - 1` passes `half`. */
  function BowOf(pal: bool, half: nat, k: nat): (b: Bow)
    requires k >= 1
  {
    if !pal then Orbit else if k - 1 <= half then Leaf(-1) else Leaf(1)
  }

  /**
   * `d` after the loop at lines 63-84 has run up to (excluding) vertex `k`:
   * the move to the first vertex, then segment `i` from vertex `i - 1` to
   * vertex `i` for each `i` below `k`.
   */
  function PathUpTo(pts: seq<Point>, pal: bool, half: nat, k: nat): (path: seq<Command>)
    requires 1 <= k <= |pts|
  {
    if k == 1 then [Move(pts[0])]
    else PathUpTo(pts, pal, half, k - 1) + [Quad(k - 1, pts[k - 2], BowOf(pal, half, k - 1), pts[k - 1])]
  }

  /** The lead-in moves the first vertex toward the centre (lines 57-60). */
  function LeadIn(p: Point): (q: Point) {
    p.(leadIn := true)
  }

  /**
   * The glyph of a non-empty normalised word, `pal` telling whether the word
   * is a perfect palindrome: the dot is the first vertex as drawn, the path
   * runs through the vertices with the first one pulled in by the lead-in.
   */
  function GlyphOfLetters(letters: string, pal: bool): (g: Glyph)
    requires letters != [] && AllAZ(letters)
  {
    var half := Half(letters);
    var (pts, rings) := Classify(letters, pal, half, |letters|);
    FirstLetterIsVertex(letters, pal, half, |letters|);
    var moved := pts[0 := LeadIn(pts[0])];
    Glyph(PathUpTo(moved, pal, half, |moved|), Some(pts[0]), rings)
  }

  /** What `buildGlyph(word, wheelR, C)` returns, with coordinates abstract. */
  function GlyphOf(word: string): (g: Glyph) {
    var letters := Normalize(word);
    if |letters| == 0 then EmptyGlyph else GlyphOfLetters(letters, IsPerfectPalindrome(word))
  }

  /**
   * `buildGlyph`: one pass over the letters filling `pts` and `rings`, the
   * start dot copied from the first vertex, the lead-in applied to that
   * vertex in place, then one pass over the vertices appending a segment each.
   */
  method BuildGlyph(word: string) returns (g: Glyph)
    ensures g == GlyphOf(word)
  {
    var pal := IsPerfectPalindrome(word);
    var letters := Normalize(word);
    if |letters| == 0 {
      return EmptyGlyph;
    }

    var pts: seq<Point> := [];
    var rings: seq<Point> := [];
    var half := Half(letters);

    for i := 0 to |letters|
      invariant (pts, rings) == Classify(letters, pal, half, i)
    {
      var ang := AngleOf(letters[i]);
      if ang.Some? {
        var p := Point(ang.value, i, SideOf(pal, half, i), false);
        if i > 0 && letters[i] == letters[i - 1] {
          rings := rings + [p];
        } else {
          pts := pts + [p];
        }
      }
    }

    FirstLetterIsVertex(letters, pal, half, |letters|);
    var dot := pts[0];
    pts := pts[0 := LeadIn(pts[0])];

    var d := [Move(pts[0])];
    for i := 1 to |pts|
      invariant d == PathUpTo(pts, pal, half, i)
    {
      var a, b := pts[i - 1], pts[i];
      var bow := if pal then (if i - 1 <= half then Leaf(-1) else Leaf(1)) else Orbit;
      d := d + [Quad(i, a, bow, b)];
    }
    g := Glyph(d, Some(dot), rings);
  }
}
