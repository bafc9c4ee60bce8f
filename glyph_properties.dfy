/**
 * What `buildGlyph` guarantees about the glyph of a word: every letter is
 * classified exactly once, the vertices are the run-compressed letters, the
 * start dot is the untouched first letter, the radius and bow rules follow
 * the palindrome `half`, and the path is one move followed by one segment per
 * pair of neighbouring vertices.
 *
 * Most properties are stated for `GlyphOfLetters(letters, pal)`, the glyph of
 * a non-empty normalised word; `GlyphOf(word)` is that glyph for
 * `Normalize(word)` and `IsPerfectPalindrome(word)`.
 */
module GlyphProperties {
  import opened Wrappers
  import opened Letters
  import opened AngleMapper
  import opened RunCompression
  import opened GlyphBuilder
  import opened Classification

  /** The vertices of a glyph, in path order: where each command ends. */
  function Vertices(g: Glyph): (vs: seq<Point>)
    ensures |vs| == |g.path|
  {
    seq(|g.path|, k requires 0 <= k < |g.path| => g.path[k].to)
  }

  /** The wheel positions the path visits, in order. */
  function Wheels(g: Glyph): (ws: seq<nat>)
    ensures |ws| == |g.path|
  {
    seq(|g.path|, k requires 0 <= k < |g.path| => g.path[k].to.wheel)
  }

  /** `pts` as the `forEach` leaves it, before the lead-in. */
  function ClassifiedVertices(letters: string, pal: bool): (pts: seq<Point>)
    requires letters != []
  {
    Classify(letters, pal, Half(letters), |letters|).0
  }

  /** `rings` as the `forEach` leaves it. */
  function ClassifiedRings(letters: string, pal: bool): (rings: seq<Point>)
    requires letters != []
  {
    Classify(letters, pal, Half(letters), |letters|).1
  }

  /**
   * The glyph in terms of the classification: the dot is the first vertex
   * as drawn, the path visits the vertices with only the first one moved by
   * the lead-in, and the rings are kept as found.
   */
  lemma GlyphFromClassified(letters: string, pal: bool)
    requires letters != [] && AllAZ(letters)
    ensures |ClassifiedVertices(letters, pal)| >= 1
    ensures GlyphOfLetters(letters, pal).dot == Some(ClassifiedVertices(letters, pal)[0])
    ensures GlyphOfLetters(letters, pal).rings == ClassifiedRings(letters, pal)
    ensures |Vertices(GlyphOfLetters(letters, pal))| == |ClassifiedVertices(letters, pal)|
    ensures Vertices(GlyphOfLetters(letters, pal))[0] == LeadIn(ClassifiedVertices(letters, pal)[0])
    ensures forall k :: 1 <= k < |ClassifiedVertices(letters, pal)| ==>
      Vertices(GlyphOfLetters(letters, pal))[k] == ClassifiedVertices(letters, pal)[k]
    ensures GlyphOfLetters(letters, pal).path[0] == Move(LeadIn(ClassifiedVertices(letters, pal)[0]))
    ensures forall k :: 1 <= k < |GlyphOfLetters(letters, pal).path| ==>
      GlyphOfLetters(letters, pal).path[k] ==
        Quad(k, Vertices(GlyphOfLetters(letters, pal))[k - 1], BowOf(pal, Half(letters), k),
             Vertices(GlyphOfLetters(letters, pal))[k])
  {
    var half := Half(letters);
    FirstLetterIsVertex(letters, pal, half, |letters|);
    var pts := ClassifiedVertices(letters, pal);
    var moved := pts[0 := LeadIn(pts[0])];
    PathShape(moved, pal, half, |moved|);
    var g := GlyphOfLetters(letters, pal);
    assert g.path == PathUpTo(moved, pal, half, |moved|);
    var vs := Vertices(g);
    forall k | 0 <= k < |moved| ensures vs[k] == moved[k] {
      if k > 0 {
        assert g.path[k] == Quad(k, moved[k - 1], BowOf(pal, half, k), moved[k]);
      }
    }
  }

  /** Every point stands for a letter below `k` that is a ring exactly when `ring` holds. */
  ghost predicate SourcesClassified(letters: string, k: nat, pts: seq<Point>, ring: bool)
    requires k <= |letters|
  {
    forall j :: 0 <= j < |pts| ==> pts[j].source < k && IsRing(letters, pts[j].source) == ring
  }

  /** Order, classification and coverage only depend on the points' sources. */
  lemma TransferSources(letters: string, k: nat, a: seq<Point>, b: seq<Point>, ring: bool)
    requires k <= |letters| && |a| == |b|
    requires forall j :: 0 <= j < |a| ==> a[j].source == b[j].source
    requires SourcesClassified(letters, k, a, ring) && InSourceOrder(a) && Covers(letters, k, a, ring)
    ensures SourcesClassified(letters, k, b, ring) && InSourceOrder(b) && Covers(letters, k, b, ring)
  {
  }

  /**
   * Every letter is classified exactly once: the vertices are the letters
   * that do not repeat their predecessor, the rings the letters that do, each
   * list in letter order, and together they account for every letter.
   */
  lemma ClassifiedOnce(letters: string, pal: bool)
    requires letters != [] && AllAZ(letters)
    ensures |GlyphOfLetters(letters, pal).path| + |GlyphOfLetters(letters, pal).rings| == |letters|
    ensures SourcesClassified(letters, |letters|, Vertices(GlyphOfLetters(letters, pal)), false)
    ensures SourcesClassified(letters, |letters|, GlyphOfLetters(letters, pal).rings, true)
    ensures InSourceOrder(Vertices(GlyphOfLetters(letters, pal)))
    ensures InSourceOrder(GlyphOfLetters(letters, pal).rings)
    ensures Covers(letters, |letters|, Vertices(GlyphOfLetters(letters, pal)), false)
    ensures Covers(letters, |letters|, GlyphOfLetters(letters, pal).rings, true)
  {
    var half := Half(letters);
    ClassifyInvariant(letters, pal, half, |letters|);
    GlyphFromClassified(letters, pal);
    VertexSources(letters, pal);
    var pts, rings := ClassifiedVertices(letters, pal), ClassifiedRings(letters, pal);
    var vs := Vertices(GlyphOfLetters(letters, pal));
    assert SourcesClassified(letters, |letters|, pts, false);
    assert SourcesClassified(letters, |letters|, rings, true);
    TransferSources(letters, |letters|, pts, vs, false);
  }

  /** The lead-in moves the first vertex but keeps its source: the path's vertices stand for the classified letters. */
  lemma VertexSources(letters: string, pal: bool)
    requires letters != [] && AllAZ(letters)
    ensures |Vertices(GlyphOfLetters(letters, pal))| == |ClassifiedVertices(letters, pal)|
    ensures forall k :: 0 <= k < |ClassifiedVertices(letters, pal)| ==>
      Vertices(GlyphOfLetters(letters, pal))[k].source == ClassifiedVertices(letters, pal)[k].source
  {
    GlyphFromClassified(letters, pal);
  }

  /** The letters of two point lists with the same sources are the same. */
  lemma SameSourcesSameLetters(letters: string, a: seq<Point>, b: seq<Point>)
    requires |a| == |b|
    requires forall k :: 0 <= k < |a| ==> a[k].source == b[k].source < |letters|
    ensures SourceLetters(letters, a) == SourceLetters(letters, b)
  {
  }

  /**
   * The vertex letters are the run-length compression of the letters, and
   * the first letter always starts the path.
   */
  lemma VerticesAreRunCompressed(letters: string, pal: bool)
    requires letters != [] && AllAZ(letters)
    ensures forall k :: 0 <= k < |GlyphOfLetters(letters, pal).path| ==>
      Vertices(GlyphOfLetters(letters, pal))[k].source < |letters|
    ensures SourceLetters(letters, Vertices(GlyphOfLetters(letters, pal))) == Compress(letters)
    ensures GlyphOfLetters(letters, pal).path[0].to.source == 0
  {
    var half := Half(letters);
    GlyphFromClassified(letters, pal);
    FirstLetterIsVertex(letters, pal, half, |letters|);
    ClassifyCompresses(letters, pal, half, |letters|);
    var pts := ClassifiedVertices(letters, pal);
    var vs := Vertices(GlyphOfLetters(letters, pal));
    assert letters[..|letters|] == letters;
    assert forall k :: 0 <= k < |pts| ==> vs[k].source == pts[k].source;
    SameSourcesSameLetters(letters, vs, pts);
  }

  /** The path visits, in order, the wheel positions of the run-compressed letters. */
  lemma WheelsFollowCompressedLetters(letters: string, pal: bool)
    requires letters != [] && AllAZ(letters)
    ensures |Wheels(GlyphOfLetters(letters, pal))| == |Compress(letters)|
    ensures forall k :: 0 <= k < |Compress(letters)| ==>
      AngleOf(Compress(letters)[k]) == Some(Wheels(GlyphOfLetters(letters, pal))[k])
  {
    var g := GlyphOfLetters(letters, pal);
    VerticesAreRunCompressed(letters, pal);
    PointsFollowRadiusRule(letters, pal);
    var vs := Vertices(g);
    forall k | 0 <= k < |Compress(letters)|
      ensures AngleOf(Compress(letters)[k]) == Some(Wheels(g)[k])
    {
      assert g.path[k].to == vs[k];
      assert letters[vs[k].source] == SourceLetters(letters, vs)[k];
    }
  }

  /**
   * The radius offset of letter `i`: `+PAL_SPLIT` up to `half`,
   * `-PAL_SPLIT` after it in a palindrome, none in any other word.
   */
  lemma SideOffset(pal: bool, half: nat, i: nat)
    ensures RadiusOffset(SideOf(pal, half, i)) == (if !pal then 0 else if i <= half then PalSplit else -PalSplit)
    ensures pal ==> RadiusOffset(SideOf(pal, half, i)) != 0
  {
  }

  /** A point drawn for its own letter: at that letter's wheel position and at the radius of the palindrome rule. */
  predicate DrawnAt(letters: string, pal: bool, half: nat, p: Point) {
    p.source < |letters| &&
    AngleOf(letters[p.source]) == Some(p.wheel) &&
    RadiusOffset(p.side) == (if !pal then 0 else if p.source <= half then PalSplit else -PalSplit)
  }

  /**
   * Every point of the glyph, vertex or ring, sits at its letter's wheel
   * position and at the radius of the palindrome rule: `+PAL_SPLIT` up to
   * `half`, `-PAL_SPLIT` after it, `baseR` itself for any other word.
   */
  lemma PointsFollowRadiusRule(letters: string, pal: bool)
    requires letters != [] && AllAZ(letters)
    ensures forall k :: 0 <= k < |GlyphOfLetters(letters, pal).path| ==>
      DrawnAt(letters, pal, Half(letters), GlyphOfLetters(letters, pal).path[k].to)
    ensures forall j :: 0 <= j < |GlyphOfLetters(letters, pal).rings| ==>
      DrawnAt(letters, pal, Half(letters), GlyphOfLetters(letters, pal).rings[j])
  {
    var half := Half(letters);
    GlyphFromClassified(letters, pal);
    ClassifyPoints(letters, pal, half, |letters|);
    var g := GlyphOfLetters(letters, pal);
    var pts, rings := ClassifiedVertices(letters, pal), ClassifiedRings(letters, pal);
    forall k | 0 <= k < |g.path| ensures DrawnAt(letters, pal, half, g.path[k].to) {
      var p := pts[k];
      assert p == PointAt(letters, pal, half, p.source);
      SideOffset(pal, half, p.source);
      assert g.path[k].to == Vertices(g)[k];
    }
    forall j | 0 <= j < |rings| ensures DrawnAt(letters, pal, half, rings[j]) {
      var p := rings[j];
      assert p == PointAt(letters, pal, half, p.source);
      SideOffset(pal, half, p.source);
    }
  }

  /** Neighbouring vertices always stand for different letters, hence different wheel positions. */
  lemma AdjacentVerticesDiffer(letters: string, pal: bool)
    requires letters != [] && AllAZ(letters)
    ensures forall k :: 1 <= k < |GlyphOfLetters(letters, pal).path| ==>
      GlyphOfLetters(letters, pal).path[k - 1].to.wheel != GlyphOfLetters(letters, pal).path[k].to.wheel
  {
    var g := GlyphOfLetters(letters, pal);
    VerticesAreRunCompressed(letters, pal);
    PointsFollowRadiusRule(letters, pal);
    CompressShape(letters);
    var c := Compress(letters);
    var vs := Vertices(g);
    forall k | 1 <= k < |g.path| ensures g.path[k - 1].to.wheel != g.path[k].to.wheel {
      var a, b := g.path[k - 1].to, g.path[k].to;
      assert a == vs[k - 1] && b == vs[k];
      assert letters[a.source] == SourceLetters(letters, vs)[k - 1] == c[k - 1];
      assert letters[b.source] == SourceLetters(letters, vs)[k] == c[k];
      AngleOfInjective(letters[a.source], letters[b.source]);
    }
  }

  /**
   * The start dot is the first letter's exact point; the path starts at the
   * same point moved by the lead-in, and no other point is moved.
   */
  lemma DotIsUnmovedFirstLetter(letters: string, pal: bool)
    requires letters != [] && AllAZ(letters)
    ensures GlyphOfLetters(letters, pal).dot.Some?
    ensures AngleOf(letters[0]) == Some(GlyphOfLetters(letters, pal).dot.value.wheel)
    ensures GlyphOfLetters(letters, pal).dot.value.source == 0
    ensures !GlyphOfLetters(letters, pal).dot.value.leadIn
    ensures GlyphOfLetters(letters, pal).dot.value.side == if pal then Outward else Base
    ensures GlyphOfLetters(letters, pal).path[0] == Move(GlyphOfLetters(letters, pal).dot.value.(leadIn := true))
    ensures forall k :: 1 <= k < |GlyphOfLetters(letters, pal).path| ==> !GlyphOfLetters(letters, pal).path[k].to.leadIn
    ensures forall j :: 0 <= j < |GlyphOfLetters(letters, pal).rings| ==> !GlyphOfLetters(letters, pal).rings[j].leadIn
  {
    var half := Half(letters);
    GlyphFromClassified(letters, pal);
    FirstLetterIsVertex(letters, pal, half, |letters|);
    ClassifyPoints(letters, pal, half, |letters|);
    var g := GlyphOfLetters(letters, pal);
    var pts, rings := ClassifiedVertices(letters, pal), ClassifiedRings(letters, pal);
    forall k | 1 <= k < |g.path| ensures !g.path[k].to.leadIn {
      assert g.path[k].to == Vertices(g)[k] == pts[k];
      assert pts[k] == PointAt(letters, pal, half, pts[k].source);
    }
    forall j | 0 <= j < |rings| ensures !rings[j].leadIn {
      assert rings[j] == PointAt(letters, pal, half, rings[j].source);
    }
  }

  /** Segment `k` is a quadratic segment numbered `k`, starting where command `k - 1` ended, with the bow of segment `k`. */
  lemma SegmentsChain(letters: string, pal: bool)
    requires letters != [] && AllAZ(letters)
    ensures forall k :: 1 <= k < |GlyphOfLetters(letters, pal).path| ==>
      GlyphOfLetters(letters, pal).path[k] ==
        Quad(k, GlyphOfLetters(letters, pal).path[k - 1].to, BowOf(pal, Half(letters), k),
             GlyphOfLetters(letters, pal).path[k].to)
  {
    GlyphFromClassified(letters, pal);
    var g := GlyphOfLetters(letters, pal);
    var vs := Vertices(g);
    forall k | 1 <= k < |g.path|
      ensures g.path[k] == Quad(k, g.path[k - 1].to, BowOf(pal, Half(letters), k), g.path[k].to)
    {
      assert g.path[k - 1].to == vs[k - 1];
      assert g.path[k].to == vs[k];
    }
  }

  /**
   * The path is one move to the first vertex followed by exactly one
   * quadratic segment per further vertex: segment `k` runs from vertex
   * `k - 1` to vertex `k`. A palindrome's segment bows with sign -1 while
   * `k - 1 <= half` and with sign +1 after; any other word's segments use the
   * radial-then-pull rule.
   */
  lemma PathIsMoveThenSegments(letters: string, pal: bool)
    requires letters != [] && AllAZ(letters)
    ensures |GlyphOfLetters(letters, pal).path| == |Compress(letters)|
    ensures GlyphOfLetters(letters, pal).path[0].Move?
    ensures forall k :: 1 <= k < |GlyphOfLetters(letters, pal).path| ==>
      GlyphOfLetters(letters, pal).path[k].Quad? && GlyphOfLetters(letters, pal).path[k].segment == k &&
      GlyphOfLetters(letters, pal).path[k].from == GlyphOfLetters(letters, pal).path[k - 1].to
    ensures !pal ==> forall k :: 1 <= k < |GlyphOfLetters(letters, pal).path| ==>
      GlyphOfLetters(letters, pal).path[k].bow == Orbit
    ensures pal ==> forall k :: 1 <= k < |GlyphOfLetters(letters, pal).path| ==>
      GlyphOfLetters(letters, pal).path[k].bow.Leaf? &&
      (GlyphOfLetters(letters, pal).path[k].bow.sign == -1 <==> k - 1 <= Half(letters)) &&
      (GlyphOfLetters(letters, pal).path[k].bow.sign == 1 <==> k - 1 > Half(letters))
  {
    GlyphFromClassified(letters, pal);
    VerticesAreRunCompressed(letters, pal);
    SegmentsChain(letters, pal);
    var g := GlyphOfLetters(letters, pal);
    var half := Half(letters);
    forall k | 1 <= k < |g.path|
      ensures g.path[k].Quad? && g.path[k].segment == k && g.path[k].from == g.path[k - 1].to
      ensures g.path[k].bow == BowOf(pal, half, k)
    {
      assert g.path[k] == Quad(k, g.path[k - 1].to, BowOf(pal, half, k), g.path[k].to);
    }
  }

  /** In a strictly increasing run of sources, sources `k - j` positions apart differ by at least `k - j`. */
  lemma {:induction false} SourceGap(vs: seq<Point>, j: nat, k: nat)
    requires j <= k < |vs| && InSourceOrder(vs)
    ensures vs[k].source >= vs[j].source + (k - j)
  {
    if j < k {
      SourceGap(vs, j, k - 1);
    }
  }

  /**
   * When no letter repeats its predecessor, vertex `k` is letter `k`: every
   * letter is a vertex and there are no rings.
   */
  lemma RingFreeVerticesAreLetters(letters: string, pal: bool)
    requires letters != [] && AllAZ(letters)
    requires forall i :: 0 < i < |letters| ==> letters[i] != letters[i - 1]
    ensures GlyphOfLetters(letters, pal).rings == []
    ensures |GlyphOfLetters(letters, pal).path| == |letters|
    ensures forall k :: 0 <= k < |letters| ==> GlyphOfLetters(letters, pal).path[k].to.source == k
  {
    var g := GlyphOfLetters(letters, pal);
    ClassifiedOnce(letters, pal);
    CompressIdentity(letters);
    PathIsMoveThenSegments(letters, pal);
    var vs := Vertices(g);
    var n := |letters|;
    forall k | 0 <= k < n ensures g.path[k].to.source == k {
      assert g.path[k].to == vs[k];
      SourceGap(vs, 0, k);
      SourceGap(vs, k, n - 1);
    }
  }

  /**
   * In a palindrome a letter and its mirror sit on opposite sides of `baseR`,
   * the one in the first half outward, except the middle letter of a word of
   * odd length, which is its own mirror and sits outward. In any other word
   * every letter sits on `baseR`.
   */
  lemma MirroredSides(letters: string, i: nat)
    requires letters != [] && i < |letters|
    ensures var m := |letters| - 1 - i;
      i != m ==> (SideOf(true, Half(letters), i) == Outward <==> SideOf(true, Half(letters), m) == Inward)
    ensures i == |letters| - 1 - i ==> SideOf(true, Half(letters), i) == Outward
    ensures i < |letters| - 1 - i ==> SideOf(true, Half(letters), i) == Outward
    ensures SideOf(false, Half(letters), i) == Base
  {
  }

  /**
   * An alternative bow rule, keyed on the source index of the segment's
   * starting letter rather than on the segment's position in the path.
   */
  function SourceIndexBow(pal: bool, half: nat, from: Point): (b: Bow) {
    if !pal then Orbit else if from.source <= half then Leaf(-1) else Leaf(1)
  }

  /**
   * The bow of `buildGlyph` is chosen by segment position (`i - 1 <= half`).
   * It agrees with the source-index rule whenever no letter repeats.
   */
  lemma BowAgreesWithSourceIndexWithoutRings(letters: string, pal: bool)
    requires letters != [] && AllAZ(letters)
    requires forall i :: 0 < i < |letters| ==> letters[i] != letters[i - 1]
    ensures forall k :: 1 <= k < |GlyphOfLetters(letters, pal).path| ==>
      GlyphOfLetters(letters, pal).path[k].Quad? &&
      GlyphOfLetters(letters, pal).path[k].bow ==
        SourceIndexBow(pal, Half(letters), GlyphOfLetters(letters, pal).path[k].from)
  {
    var g := GlyphOfLetters(letters, pal);
    RingFreeVerticesAreLetters(letters, pal);
    PathIsMoveThenSegments(letters, pal);
    forall k | 1 <= k < |g.path|
      ensures g.path[k].Quad? && g.path[k].bow == SourceIndexBow(pal, Half(letters), g.path[k].from)
    {
      assert g.path[k].from == g.path[k - 1].to;
      assert g.path[k].from.source == k - 1;
    }
  }

  /** A glyph is empty (`{ d: "", dot: null, rings: [] }`) exactly when the word has no letter A-Z. */
  lemma EmptyExactlyWithoutLetters(word: string)
    ensures GlyphOf(word) == EmptyGlyph <==> Normalize(word) == []
    ensures Normalize(word) != [] ==> GlyphOf(word).dot.Some? && GlyphOf(word).path != []
  {
    if Normalize(word) != [] {
      GlyphFromClassified(Normalize(word), IsPerfectPalindrome(word));
      assert GlyphOf(word).path != EmptyGlyph.path;
    }
  }

  /**
   * For every word, empty or not, the vertices and rings together account
   * for each of its letters A-Z once.
   */
  lemma EveryLetterClassifiedOnce(word: string)
    ensures |GlyphOf(word).path| + |GlyphOf(word).rings| == |Normalize(word)|
  {
    if Normalize(word) != [] {
      ClassifiedOnce(Normalize(word), IsPerfectPalindrome(word));
    }
  }
}
