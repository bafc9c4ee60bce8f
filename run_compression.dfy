/**
 * Run-length compression of a letter sequence: every run of equal adjacent
 * letters collapses to one letter. This is the reference against which the
 * glyph's vertex sequence is proved (each repeat of the letter before it
 * becomes a ring instead of a vertex).
 */
module RunCompression {

  /** The letters of `s` with each run of equal neighbours kept once. */
  function Compress(s: string): (c: string)
    ensures |c| <= |s|
  {
    if |s| <= 1 then s
    else if s[0] == s[1] then Compress(s[1..])
    else [s[0]] + Compress(s[1..])
  }

  /**
   * Appending a letter to `s` appends it to the compression unless it
   * repeats the last letter of `s`.
   */
  lemma {:induction false} CompressSnoc(s: string, x: char)
    ensures Compress(s + [x]) ==
      if |s| > 0 && s[|s| - 1] == x then Compress(s) else Compress(s) + [x]
  {
    if |s| == 1 {
      assert s + [x] == [s[0], x];
      assert [x][1..] == [];
    } else if |s| > 1 {
      assert (s + [x])[1..] == s[1..] + [x];
      CompressSnoc(s[1..], x);
    }
  }

  /**
   * A compression keeps the first letter, never holds two equal neighbours,
   * and is empty only for the empty sequence.
   */
  lemma {:induction false} CompressShape(s: string)
    ensures Compress(s) == [] <==> s == []
    ensures s != [] ==> Compress(s)[0] == s[0]
    ensures forall i :: 0 < i < |Compress(s)| ==> Compress(s)[i] != Compress(s)[i - 1]
  {
    if |s| > 1 {
      CompressShape(s[1..]);
    }
  }

  /** A sequence is its own compression exactly when no two neighbours are equal. */
  lemma {:induction false} CompressIdentity(s: string)
    ensures Compress(s) == s <==> forall i :: 0 < i < |s| ==> s[i] != s[i - 1]
  {
    CompressShape(s);
    if |s| > 1 {
      CompressIdentity(s[1..]);
      assert forall i :: 1 < i < |s| ==> s[i] == s[1..][i - 1];
      if s[0] == s[1] {
        assert |Compress(s)| <= |s[1..]| < |s|;
      }
    }
  }

  /** "HELLO" keeps H, E, L, O: the second L joins the run before it. */
  lemma CompressHello(s: string)
    requires s == "HELLO"
    ensures Compress(s) == "HELO"
  {
    assert s[1..] == "ELLO" && s[2..] == "LLO" && s[3..] == "LO" && s[4..] == "O";
    assert Compress(s[3..]) == "LO";
    assert Compress(s[2..]) == "LO";
    assert Compress(s[1..]) == "ELO";
  }

  /** "LLL" keeps a single L. */
  lemma CompressTriple(s: string)
    requires s == "LLL"
    ensures Compress(s) == "L"
  {
    assert s[1..] == "LL" && s[2..] == "L";
    assert Compress(s[1..]) == "L";
  }

  /** "LOVE" has no repeated neighbours and is kept whole. */
  lemma CompressLove(s: string)
    requires s == "LOVE"
    ensures Compress(s) == "LOVE"
  {
    assert s[1..] == "OVE" && s[2..] == "VE";
    assert Compress("VE") == "VE";
  }
}
