/** The glyphs of a few words, worked out from the general properties. */
module GlyphExamples {
  import opened Wrappers
  import opened Letters
  import opened AngleMapper
  import opened RunCompression
  import opened GlyphBuilder
  import opened Classification
  import opened GlyphProperties

  /** The vertices of HELLO are H, E, L, O whatever the palindrome flag. */
  lemma HelloWheels(letters: string, pal: bool)
    requires letters == "HELLO"
    ensures Wheels(GlyphOfLetters(letters, pal)) == [7, 4, 11, 14]
  {
    assert AllAZ(letters);
    CompressHello(letters);
    WheelsFollowCompressedLetters(letters, pal);
    var ws := Wheels(GlyphOfLetters(letters, pal));
    assert AngleOf('H') == Some(ws[0]);
    assert AngleOf('E') == Some(ws[1]);
    assert AngleOf('L') == Some(ws[2]);
    assert AngleOf('O') == Some(ws[3]);
  }

  /** The one ring of HELLO is its second L. */
  lemma HelloRing(letters: string, pal: bool)
    requires letters == "HELLO"
    ensures |GlyphOfLetters(letters, pal).rings| == 1
    ensures GlyphOfLetters(letters, pal).rings[0].source == 3
    ensures GlyphOfLetters(letters, pal).rings[0].wheel == 11
  {
    assert AllAZ(letters);
    var g := GlyphOfLetters(letters, pal);
    CompressHello(letters);
    PathIsMoveThenSegments(letters, pal);
    ClassifiedOnce(letters, pal);
    PointsFollowRadiusRule(letters, pal);
    assert IsRing(letters, g.rings[0].source);
  }

  /**
   * HELLO: the path visits H, E, L, O; the second L is a ring; the word is
   * not a palindrome, so every segment orbits the centre.
   */
  lemma HelloExample(w: string)
    requires w == "HELLO"
    ensures Wheels(GlyphOf(w)) == [7, 4, 11, 14]
    ensures |GlyphOf(w).rings| == 1 && GlyphOf(w).rings[0].source == 3 && GlyphOf(w).rings[0].wheel == 11
    ensures forall k :: 1 <= k < 4 ==> GlyphOf(w).path[k].Quad? && GlyphOf(w).path[k].bow == Orbit
  {
    assert AllAZ(w);
    NormalizeFixed(w);
    var pal := IsPerfectPalindrome(w);
    assert !pal by { PalindromeIff(w); assert w[0] != w[4]; }
    assert GlyphOf(w) == GlyphOfLetters(w, pal);
    HelloWheels(w, pal);
    HelloRing(w, pal);
    PathIsMoveThenSegments(w, pal);
  }

  /** "LLL" is one vertex and two rings, whatever the palindrome flag. */
  lemma TripleLetters(letters: string, pal: bool)
    requires letters == "LLL"
    ensures Wheels(GlyphOfLetters(letters, pal)) == [11]
    ensures |GlyphOfLetters(letters, pal).rings| == 2
    ensures GlyphOfLetters(letters, pal).rings[0].source == 1
    ensures GlyphOfLetters(letters, pal).rings[1].source == 2
  {
    assert AllAZ(letters);
    var g := GlyphOfLetters(letters, pal);
    CompressTriple(letters);
    WheelsFollowCompressedLetters(letters, pal);
    assert AngleOf('L') == Some(Wheels(g)[0]);
    ClassifiedOnce(letters, pal);
    assert g.rings[0].source < g.rings[1].source;
    assert IsRing(letters, g.rings[0].source);
  }

  /**
   * "LLL" is a palindrome with `half` 1: the dot and the first ring sit
   * outside `baseR`, the second ring inside it.
   */
  lemma TripleLetterExample(w: string)
    requires w == "LLL"
    ensures IsPerfectPalindrome(w)
    ensures Wheels(GlyphOf(w)) == [11]
    ensures GlyphOf(w).dot.Some? && GlyphOf(w).dot.value.side == Outward
    ensures |GlyphOf(w).rings| == 2
    ensures GlyphOf(w).rings[0].side == Outward && GlyphOf(w).rings[1].side == Inward
  {
    assert AllAZ(w);
    NormalizeFixed(w);
    PalindromeIff(w);
    var g := GlyphOfLetters(w, true);
    assert GlyphOf(w) == g;
    TripleLetters(w, true);
    DotIsUnmovedFirstLetter(w, true);
    PointsFollowRadiusRule(w, true);
    assert Half(w) == 1;
    assert DrawnAt(w, true, 1, g.rings[0]) && DrawnAt(w, true, 1, g.rings[1]);
  }

  /** "LOVE" repeats no letter: four vertices in letter order, no ring. */
  lemma LoveLetters(letters: string, pal: bool)
    requires letters == "LOVE"
    ensures Wheels(GlyphOfLetters(letters, pal)) == [11, 14, 21, 4]
    ensures GlyphOfLetters(letters, pal).rings == []
  {
    assert AllAZ(letters);
    CompressLove(letters);
    WheelsFollowCompressedLetters(letters, pal);
    var ws := Wheels(GlyphOfLetters(letters, pal));
    assert AngleOf('L') == Some(ws[0]);
    assert AngleOf('O') == Some(ws[1]);
    assert AngleOf('V') == Some(ws[2]);
    assert AngleOf('E') == Some(ws[3]);
    RingFreeVerticesAreLetters(letters, pal);
  }

  /** LOVE: four vertices, no ring, and every segment orbits the centre. */
  lemma LoveExample(w: string)
    requires w == "LOVE"
    ensures Wheels(GlyphOf(w)) == [11, 14, 21, 4]
    ensures GlyphOf(w).rings == []
    ensures forall k :: 1 <= k < 4 ==> GlyphOf(w).path[k].Quad? && GlyphOf(w).path[k].bow == Orbit
  {
    assert AllAZ(w);
    NormalizeFixed(w);
    var pal := IsPerfectPalindrome(w);
    assert !pal by { PalindromeIff(w); assert w[0] != w[3]; }
    assert GlyphOf(w) == GlyphOfLetters(w, pal);
    LoveLetters(w, pal);
    PathIsMoveThenSegments(w, pal);
  }

  /** A word without letters A-Z draws nothing. */
  lemma NoLetterExample(w: string)
    requires w == "" || w == "42 !"
    ensures GlyphOf(w) == EmptyGlyph
  {
    NormalizeEmpty(w);
    EmptyExactlyWithoutLetters(w);
  }

  /** "ANNA" is two A vertices around one N vertex; the second N is a ring. */
  lemma AnnaLetters(letters: string, pal: bool)
    requires letters == "ANNA"
    ensures Wheels(GlyphOfLetters(letters, pal)) == [0, 13, 0]
    ensures |GlyphOfLetters(letters, pal).rings| == 1
    ensures GlyphOfLetters(letters, pal).rings[0].source == 2
  {
    assert AllAZ(letters);
    var g := GlyphOfLetters(letters, pal);
    assert letters[1..] == "NNA" && letters[2..] == "NA" && letters[3..] == "A";
    assert Compress(letters[2..]) == "NA";
    assert Compress(letters) == "ANA";
    WheelsFollowCompressedLetters(letters, pal);
    var ws := Wheels(g);
    assert AngleOf('A') == Some(ws[0]);
    assert AngleOf('N') == Some(ws[1]);
    assert AngleOf('A') == Some(ws[2]);
    ClassifiedOnce(letters, pal);
    assert IsRing(letters, g.rings[0].source);
  }

  /**
   * "Anna!" is the palindrome ANNA with `half` 1: its ring is drawn inside
   * `baseR`, and both segments bow with sign -1.
   */
  lemma AnnaExample(w: string)
    requires w == "Anna!"
    ensures Wheels(GlyphOf(w)) == [0, 13, 0]
    ensures |GlyphOf(w).rings| == 1 && GlyphOf(w).rings[0].side == Inward
    ensures forall k :: 1 <= k < 3 ==> GlyphOf(w).path[k].Quad? && GlyphOf(w).path[k].bow == Leaf(-1)
  {
    AnnaIsPalindrome(w);
    var letters := Normalize(w);
    var g := GlyphOfLetters(letters, true);
    assert GlyphOf(w) == g;
    AnnaLetters(letters, true);
    PointsFollowRadiusRule(letters, true);
    PathIsMoveThenSegments(letters, true);
    assert Half(letters) == 1;
    assert DrawnAt(letters, true, 1, g.rings[0]);
  }

  /** "AABCBAA" compresses to "ABCBA". */
  lemma CompressMirrored(s: string)
    requires s == "AABCBAA"
    ensures Compress(s) == "ABCBA"
  {
    assert s[1..] == "ABCBAA" && s[2..] == "BCBAA" && s[3..] == "CBAA";
    assert s[4..] == "BAA" && s[5..] == "AA" && s[6..] == "A";
    assert Compress(s[5..]) == "A";
    assert Compress(s[4..]) == "BA";
    assert Compress(s[3..]) == "CBA";
    assert Compress(s[2..]) == "BCBA";
    assert Compress(s[1..]) == "ABCBA";
  }

  /** Five increasing non-ring sources of "AABCBAA" starting at 0 must be 0, 2, 3, 4, 5. */
  lemma MirroredSources(letters: string, vs: seq<Point>)
    requires letters == "AABCBAA" && |vs| == 5 && InSourceOrder(vs) && vs[0].source == 0
    requires SourcesClassified(letters, |letters|, vs, false)
    ensures vs[3].source == 4
  {
    assert vs[1].source != 1 by { assert !IsRing(letters, vs[1].source) && IsRing(letters, 1); }
    assert vs[4].source != 6 by { assert !IsRing(letters, vs[4].source) && IsRing(letters, 6); }
    SourceGap(vs, 1, 3);
    SourceGap(vs, 3, 4);
  }

  /** In "AABCBAA" the fourth vertex is letter 4, the second B. */
  lemma MirroredPairVertices(letters: string, pal: bool)
    requires letters == "AABCBAA"
    ensures |GlyphOfLetters(letters, pal).path| == 5
    ensures GlyphOfLetters(letters, pal).path[3].to.source == 4
  {
    assert AllAZ(letters);
    var g := GlyphOfLetters(letters, pal);
    CompressMirrored(letters);
    PathIsMoveThenSegments(letters, pal);
    VerticesAreRunCompressed(letters, pal);
    ClassifiedOnce(letters, pal);
    var vs := Vertices(g);
    assert vs[0].source == g.path[0].to.source;
    MirroredSources(letters, vs);
    assert g.path[3].to == vs[3];
  }

  /**
   * "AABCBAA" is a palindrome with `half` 3 and a ring at letter 1. Its
   * fourth segment starts at letter 4, past `half`, yet bows with sign -1,
   * because the sign follows the segment's position (`i - 1 <= half`), not
   * the source index of the letter it starts from.
   */
  lemma BowDiffersFromSourceIndexWithRings(w: string)
    requires w == "AABCBAA"
    ensures IsPerfectPalindrome(w)
    ensures |GlyphOf(w).path| == 5
    ensures GlyphOf(w).path[4].Quad? && GlyphOf(w).path[4].bow == Leaf(-1)
    ensures SourceIndexBow(true, Half(Normalize(w)), GlyphOf(w).path[4].from) == Leaf(1)
  {
    assert AllAZ(w);
    NormalizeFixed(w);
    PalindromeIff(w);
    assert w[0] == w[6] && w[1] == w[5] && w[2] == w[4];
    var g := GlyphOfLetters(w, true);
    assert GlyphOf(w) == g;
    MirroredPairVertices(w, true);
    PathIsMoveThenSegments(w, true);
    assert Half(w) == 3;
  }
}
