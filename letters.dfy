/**
 * Word normalisation and palindrome detection of the glyph builder
 * (src/App.jsx, lines 30-33 and 39).
 *
 * Upper-casing is modelled for ASCII only: `toUpperCase` maps 'a'..'z' to
 * 'A'..'Z' and every other character to itself.
 */
module Letters {

  /** A character of the fixed alphabet, 'A' to 'Z'. */
  predicate IsAZ(c: char) {
    'A' <= c <= 'Z'
  }

  /** Every character is one of 'A'..'Z'. */
  predicate AllAZ(s: string) {
    forall i :: 0 <= i < |s| ==> IsAZ(s[i])
  }

  /** `toUpperCase` on one character, ASCII only. */
  function Upper(c: char): (u: char)
    ensures IsAZ(u) <==> IsAZ(c) || 'a' <= c <= 'z'
    ensures !('a' <= c <= 'z') ==> u == c
    ensures 'a' <= c <= 'z' ==> u as int - 'A' as int == c as int - 'a' as int
  {
    if 'a' <= c <= 'z' then (c as int - 32) as char else c
  }

  /**
   * `w.toUpperCase().replace(/[^A-Z]/g, "")`: the word upper-cased with
   * everything outside 'A'..'Z' removed.
   */
  function Normalize(w: string): (s: string)
    ensures |s| <= |w|
    ensures AllAZ(s)
  {
    if w == [] then []
    else (if IsAZ(Upper(w[0])) then [Upper(w[0])] else []) + Normalize(w[1..])
  }

  /** Normalisation works character by character: it distributes over concatenation. */
  lemma {:induction false} NormalizeAppend(a: string, b: string)
    ensures Normalize(a + b) == Normalize(a) + Normalize(b)
  {
    if a == [] {
      assert a + b == b;
    } else {
      assert (a + b)[0] == a[0];
      assert (a + b)[1..] == a[1..] + b;
      NormalizeAppend(a[1..], b);
    }
  }

  /** A word made only of 'A'..'Z' is already normalised. */
  lemma {:induction false} NormalizeFixed(s: string)
    requires AllAZ(s)
    ensures Normalize(s) == s
  {
    if s != [] {
      NormalizeFixed(s[1..]);
    }
  }

  /** Nothing survives normalisation exactly when no character upper-cases into 'A'..'Z'. */
  lemma {:induction false} NormalizeEmpty(w: string)
    ensures Normalize(w) == [] <==> forall i :: 0 <= i < |w| ==> !IsAZ(Upper(w[i]))
  {
    if w != [] {
      NormalizeEmpty(w[1..]);
      assert forall i :: 1 <= i < |w| ==> w[i] == w[1..][i - 1];
    }
  }

  /** Normalising twice is normalising once. */
  lemma NormalizeIdempotent(w: string)
    ensures Normalize(Normalize(w)) == Normalize(w)
  {
    NormalizeFixed(Normalize(w));
  }

  /** `[...s].reverse().join("")`. */
  function Reverse(s: string): (r: string)
    ensures |r| == |s|
  {
    if s == [] then [] else Reverse(s[1..]) + [s[0]]
  }

  /** Position `k` of the reversed string holds the mirrored character. */
  lemma {:induction false} ReverseAt(s: string, k: nat)
    requires k < |s|
    ensures Reverse(s)[k] == s[|s| - 1 - k]
  {
    if k < |s| - 1 {
      ReverseAt(s[1..], k);
    }
  }

  /**
   * `isPerfectPalindrome`: the normalised word is non-empty, equals its
   * reverse, and its first and last letters agree. (The JavaScript returns the
   * empty string, which is falsy, for an empty normalised word.)
   */
  function IsPerfectPalindrome(w: string): (b: bool) {
    var s := Normalize(w);
    |s| > 0 && s == Reverse(s) && s[0] == s[|s| - 1]
  }

  /**
   * A word is a perfect palindrome exactly when its normalised letters are
   * non-empty and read the same from both ends; the first == last test is
   * implied by equality with the reverse.
   */
  lemma PalindromeIff(w: string)
    ensures IsPerfectPalindrome(w) <==> Normalize(w) != [] && Normalize(w) == Reverse(Normalize(w))
    ensures IsPerfectPalindrome(w) <==>
      Normalize(w) != [] &&
      forall i :: 0 <= i < |Normalize(w)| ==> Normalize(w)[i] == Normalize(w)[|Normalize(w)| - 1 - i]
  {
    var s := Normalize(w);
    if s != [] {
      if s == Reverse(s) {
        ReverseAt(s, 0);
        forall i | 0 <= i < |s| ensures s[i] == s[|s| - 1 - i] {
          ReverseAt(s, i);
        }
      }
      if forall i :: 0 <= i < |s| ==> s[i] == s[|s| - 1 - i] {
        forall i | 0 <= i < |s| ensures Reverse(s)[i] == s[i] {
          ReverseAt(s, i);
        }
      }
    }
  }

  /** "ANNA", and "Anna!" which normalises to it, are perfect palindromes. */
  lemma AnnaIsPalindrome(w: string)
    requires w == "ANNA" || w == "Anna!"
    ensures Normalize(w) == "ANNA"
    ensures IsPerfectPalindrome(w)
  {
    var s: string := "ANNA";
    if w == "ANNA" {
      NormalizeFixed(w);
    } else {
      assert w == "Anna" + "!";
      NormalizeAppend("Anna", "!");
      assert Normalize("Anna") == "ANNA";
    }
    PalindromeIff(w);
  }

  /** "EARTH" is not a palindrome, and neither is a word without letters. */
  lemma EarthIsNotPalindrome(w: string)
    requires w == "EARTH" || w == "" || w == "42 !"
    ensures !IsPerfectPalindrome(w)
  {
    PalindromeIff(w);
    if w == "EARTH" {
      NormalizeFixed(w);
      assert w[0] != w[4];
    } else if w == "42 !" {
      NormalizeEmpty(w);
    }
  }
}
