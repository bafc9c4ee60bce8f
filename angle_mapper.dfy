/**
 * The alphabet wheel (src/App.jsx, lines 12-14 and 24-28): the 26 letters
 * sit evenly around a circle, 'A' at twelve o'clock, going clockwise.
 *
 * `angleOf` returns an angle in radians; the model returns the letter's
 * position on the wheel, from which the angle is computed, and states the
 * angle exactly as a fraction of a full turn.
 */
module AngleMapper {
  import opened Wrappers
  import opened Letters

  /** `ALPHABET`. */
  const Alphabet: string := "ABCDEFGHIJKLMNOPQRSTUVWXYZ"

  /** `WHEEL_OFFSET`: the wheel is not rotated, 'A' sits at twelve o'clock. */
  const WheelOffset: nat := 0

  /** `Array.prototype.indexOf`: the first position of `x` in `s`, if any. */
  function IndexOf(s: string, x: char): (r: Option<nat>)
    ensures r.None? <==> x !in s
    ensures r.Some? ==> r.value < |s| && s[r.value] == x && x !in s[..r.value]
  {
    if s == [] then None
    else if s[0] == x then Some(0)
    else match IndexOf(s[1..], x)
      case None => None
      case Some(i) => assert s[..i + 1] == [s[0]] + s[1..][..i]; Some(i + 1)
  }

  /** The wheel holds the letters 'A'..'Z' in alphabetical order. */
  lemma AlphabetInOrder()
    ensures |Alphabet| == 26
    ensures forall k :: 0 <= k < 26 ==> Alphabet[k] as int == 'A' as int + k
  {
  }

  /**
   * `angleOf(ch)`: the position of the upper-cased character on the wheel,
   * `None` (the JavaScript `null`) when it is not one of the 26 letters.
   * It is computed as the distance from 'A'; `AngleOfIsIndexOf` proves it
   * equal to the lookup `ALPHABET.indexOf(ch.toUpperCase())`.
   */
  function AngleOf(ch: char): (idx: Option<nat>)
    ensures idx.None? <==> !IsAZ(Upper(ch))
    ensures idx.Some? ==> idx.value < |Alphabet| && Alphabet[idx.value] == Upper(ch)
  {
    AlphabetInOrder();
    if IsAZ(Upper(ch)) then Some(Upper(ch) as int - 'A' as int) else None
  }

  /** The wheel position is exactly what `ALPHABET.indexOf` finds for the upper-cased character. */
  lemma AngleOfIsIndexOf(ch: char)
    ensures AngleOf(ch) == IndexOf(Alphabet, Upper(ch))
  {
    AlphabetInOrder();
    var r := IndexOf(Alphabet, Upper(ch));
    if IsAZ(Upper(ch)) {
      var k := Upper(ch) as int - 'A' as int;
      assert Alphabet[k] == Upper(ch);
      assert r.Some?;
      assert Alphabet[r.value] == Alphabet[k];
    }
  }

  /** Two characters share a wheel position exactly when they upper-case to the same letter. */
  lemma AngleOfInjective(c1: char, c2: char)
    requires AngleOf(c1).Some? && AngleOf(c2).Some?
    ensures AngleOf(c1) == AngleOf(c2) <==> Upper(c1) == Upper(c2)
  {
  }

  /** Lower and upper case of a letter share one wheel position. */
  lemma AngleOfCaseInsensitive(c: char)
    requires 'a' <= c <= 'z'
    ensures AngleOf(c) == AngleOf((c as int - 32) as char)
    ensures AngleOf(c).Some?
  {
  }

  /**
   * The angle `PI / 2 - ((idx + WHEEL_OFFSET) * 2 * PI) / 26`, in exact
   * arithmetic and measured in full turns instead of radians: the angle
   * `angleOf(ch)` returns for a letter is `AngleInTurns(AngleOf(ch).value)`
   * turns. The 26 angles lie within one turn, from a quarter turn (twelve
   * o'clock) downward.
   */
  function AngleInTurns(idx: nat): (t: real)
    ensures idx < 26 ==> -3.0 / 4.0 < t <= 1.0 / 4.0
  {
    1.0 / 4.0 - (idx + WheelOffset) as real / 26.0
  }

  /**
   * Letters `i` and `j` are `j - i` 26ths of a turn apart, clockwise, so the
   * 26 angles are pairwise distinct and evenly spaced.
   */
  lemma AnglesEvenlySpaced(i: nat, j: nat)
    requires i < 26 && j < 26
    ensures AngleInTurns(i) - AngleInTurns(j) == (j - i) as real / 26.0
  {
  }
}
