/**
 * The word split of the `App` component:
 * `input.split(/\s+/).map((w) => w.trim()).filter(Boolean)`.
 * The input is cut at every run of whitespace, each field is trimmed, and
 * the empty fields (at a leading or trailing run, or for an empty input)
 * are dropped.
 */
module Tokenizer {

  /**
   * The characters JavaScript's `\s` matches, which are also the ones
   * `String.prototype.trim` removes: the ASCII controls TAB, LF, VT, FF, CR,
   * SPACE, NO-BREAK SPACE, OGHAM SPACE MARK, the spaces U+2000 to U+200A,
   * LINE and PARAGRAPH SEPARATOR, NARROW NO-BREAK SPACE, MEDIUM MATHEMATICAL
   * SPACE, IDEOGRAPHIC SPACE and the byte order mark.
   */
  predicate IsSpace(c: char) {
    c == '\U{0009}' || c == '\U{000A}' || c == '\U{000B}' || c == '\U{000C}' || c == '\U{000D}' ||
    c == ' ' || c == '\U{00A0}' || c == '\U{1680}' || ('\U{2000}' <= c <= '\U{200A}') ||
    c == '\U{2028}' || c == '\U{2029}' || c == '\U{202F}' || c == '\U{205F}' ||
    c == '\U{3000}' || c == '\U{FEFF}'
  }

  /** `s` holds no whitespace at all. */
  predicate NoSpace(s: string) {
    forall i :: 0 <= i < |s| ==> !IsSpace(s[i])
  }

  /**
   * `s.split(/\s+/)`: the fields between the runs of whitespace. A leading
   * or trailing run gives an empty first or last field, and the empty
   * string splits into one empty field. Defined character by character: a
   * non-whitespace character joins the first field of the rest, a
   * whitespace character followed by more whitespace belongs to the same
   * run, and the last character of a run starts a new field.
   */
  function Split(s: string): (fs: seq<string>)
    ensures |fs| >= 1
  {
    if s == [] then [""]
    else
      var rest := Split(s[1..]);
      if !IsSpace(s[0]) then [[s[0]] + rest[0]] + rest[1..]
      else if |s| > 1 && IsSpace(s[1]) then rest
      else [""] + rest
  }

  /** `s.trim()`: `s` without its leading and trailing whitespace. */
  function Trim(s: string): (t: string)
    ensures |t| <= |s|
    ensures t != [] ==> !IsSpace(t[0]) && !IsSpace(t[|t| - 1])
    decreases |s|
  {
    if s != [] && IsSpace(s[0]) then Trim(s[1..])
    else if s != [] && IsSpace(s[|s| - 1]) then Trim(s[..|s| - 1])
    else s
  }

  /** Whitespace followed by whitespace is whitespace. */
  lemma AllSpaceAppend(a: string, b: string)
    requires AllSpace(a) && AllSpace(b)
    ensures AllSpace(a + b)
  {
    assert forall i :: |a| <= i < |a + b| ==> (a + b)[i] == b[i - |a|];
  }

  /** The whitespace `Trim` cuts from the front and from the back of `s`. */
  lemma {:induction false} TrimCuts(s: string) returns (a: string, b: string)
    ensures s == a + Trim(s) + b && AllSpace(a) && AllSpace(b)
    decreases |s|
  {
    if s != [] && IsSpace(s[0]) {
      var a', b' := TrimCuts(s[1..]);
      TrimCutsFront(s, a', b');
      a, b := [s[0]] + a', b';
    } else if s != [] && IsSpace(s[|s| - 1]) {
      var a', b' := TrimCuts(s[..|s| - 1]);
      TrimCutsBack(s, a', b');
      a, b := a', b' + [s[|s| - 1]];
    } else {
      a, b := [], [];
      assert s == a + Trim(s) + b;
    }
  }

  /** Concatenation is associative. */
  lemma Associative<T>(x: seq<T>, y: seq<T>, z: seq<T>)
    ensures x + (y + z) == (x + y) + z
  {
  }

  /** One more element in front of `a + t + b` joins `a`. */
  lemma RegroupFront<T>(s: seq<T>, a: seq<T>, t: seq<T>, b: seq<T>)
    requires s != [] && s[1..] == a + t + b
    ensures s == ([s[0]] + a) + t + b
  {
    assert s == [s[0]] + s[1..];
    Associative([s[0]], a + t, b);
    Associative([s[0]], a, t);
  }

  /** One more element after `a + t + b` joins `b`. */
  lemma RegroupBack<T>(s: seq<T>, a: seq<T>, t: seq<T>, b: seq<T>)
    requires s != [] && s[..|s| - 1] == a + t + b
    ensures s == a + t + (b + [s[|s| - 1]])
  {
    assert s == s[..|s| - 1] + [s[|s| - 1]];
    Associative(a + t, b, [s[|s| - 1]]);
  }

  /** Cutting a leading whitespace character. */
  lemma TrimCutsFront(s: string, a: string, b: string)
    requires s != [] && IsSpace(s[0])
    requires s[1..] == a + Trim(s[1..]) + b && AllSpace(a)
    ensures s == ([s[0]] + a) + Trim(s) + b && AllSpace([s[0]] + a)
  {
    RegroupFront(s, a, Trim(s[1..]), b);
    AllSpaceAppend([s[0]], a);
  }

  /** Cutting a trailing whitespace character. */
  lemma TrimCutsBack(s: string, a: string, b: string)
    requires s != [] && IsSpace(s[|s| - 1]) && !IsSpace(s[0])
    requires s[..|s| - 1] == a + Trim(s[..|s| - 1]) + b && AllSpace(b)
    ensures s == a + Trim(s) + (b + [s[|s| - 1]]) && AllSpace(b + [s[|s| - 1]])
  {
    RegroupBack(s, a, Trim(s[..|s| - 1]), b);
    AllSpaceAppend(b, [s[|s| - 1]]);
  }

  /**
   * Trimming keeps the middle of `s`: only whitespace is cut from either
   * end, and nothing is left exactly when `s` is all whitespace.
   */
  lemma TrimKeepsMiddle(s: string)
    ensures exists a, b :: s == a + Trim(s) + b && AllSpace(a) && AllSpace(b)
    ensures Trim(s) == [] <==> AllSpace(s)
  {
    var t := Trim(s);
    var a, b := TrimCuts(s);
    if t == [] {
      assert s == a + b;
      assert forall i :: |a| <= i < |s| ==> s[i] == b[i - |a|];
    } else {
      assert s[|a|] == t[0];
    }
  }

  /** `.map((w) => w.trim())`. */
  function TrimAll(fs: seq<string>): (ts: seq<string>)
    ensures |ts| == |fs|
  {
    seq(|fs|, i requires 0 <= i < |fs| => Trim(fs[i]))
  }

  /** `.filter(Boolean)`: the non-empty strings, in order. */
  function NonEmpty(fs: seq<string>): (ws: seq<string>)
    ensures |ws| <= |fs|
    ensures forall j :: 0 <= j < |ws| ==> ws[j] != []
  {
    if fs == [] then []
    else if fs[0] == [] then NonEmpty(fs[1..])
    else [fs[0]] + NonEmpty(fs[1..])
  }

  /** The words the `App` component draws a glyph for, in input order. */
  function Words(input: string): (ws: seq<string>) {
    NonEmpty(TrimAll(Split(input)))
  }

  /** The characters of `s` that are not whitespace, in order. */
  function RemoveSpaces(s: string): (r: string) {
    if s == [] then [] else (if IsSpace(s[0]) then [] else [s[0]]) + RemoveSpaces(s[1..])
  }

  /** The strings of `fs` one after the other. */
  function Concat(fs: seq<string>): (s: string) {
    if fs == [] then [] else fs[0] + Concat(fs[1..])
  }

  /** `s` is nothing but whitespace. */
  predicate AllSpace(s: string) {
    forall i :: 0 <= i < |s| ==> IsSpace(s[i])
  }

  /** Removing whitespace keeps a whitespace-free string and empties an all-whitespace one. */
  lemma {:induction false} RemoveSpacesRuns(s: string)
    ensures NoSpace(s) ==> RemoveSpaces(s) == s
    ensures AllSpace(s) <==> RemoveSpaces(s) == []
  {
    if s != [] {
      RemoveSpacesRuns(s[1..]);
      assert forall i :: 1 <= i < |s| ==> s[i] == s[1..][i - 1];
    }
  }

  /** Concatenation peels off its first string. */
  lemma ConcatCons(x: string, ys: seq<string>)
    ensures Concat([x] + ys) == x + Concat(ys)
  {
  }

  /** No field of a split holds whitespace: the separators are consumed whole. */
  lemma {:induction false} SplitFieldsHaveNoSpace(s: string)
    ensures forall j :: 0 <= j < |Split(s)| ==> NoSpace(Split(s)[j])
  {
    if s != [] {
      var rest := Split(s[1..]);
      SplitFieldsHaveNoSpace(s[1..]);
      if !IsSpace(s[0]) {
        var f := [s[0]] + rest[0];
        assert forall i :: 1 <= i < |f| ==> f[i] == rest[0][i - 1];
        assert Split(s)[1..] == rest[1..];
      } else if !(|s| > 1 && IsSpace(s[1])) {
        assert Split(s)[1..] == rest;
      }
    }
  }

  /** The fields of a split are the input with its whitespace removed, cut into pieces. */
  lemma {:induction false} SplitConcat(s: string)
    ensures Concat(Split(s)) == RemoveSpaces(s)
  {
    if s != [] {
      var rest := Split(s[1..]);
      SplitConcat(s[1..]);
      ConcatCons(rest[0], rest[1..]);
      assert rest == [rest[0]] + rest[1..];
      if !IsSpace(s[0]) {
        ConcatCons([s[0]] + rest[0], rest[1..]);
      } else if !(|s| > 1 && IsSpace(s[1])) {
        ConcatCons("", rest);
      }
    }
  }

  /** Trimming a whitespace-free string changes nothing. */
  lemma TrimNoSpace(s: string)
    requires NoSpace(s)
    ensures Trim(s) == s
  {
  }

  /** The `trim` step is redundant: every field of the split is already trimmed. */
  lemma WordsAreNonEmptyFields(input: string)
    ensures Words(input) == NonEmpty(Split(input))
  {
    var fs := Split(input);
    SplitFieldsHaveNoSpace(input);
    forall j | 0 <= j < |fs| ensures TrimAll(fs)[j] == fs[j] {
      TrimNoSpace(fs[j]);
    }
    assert TrimAll(fs) == fs;
  }

  /** Filtering out empty strings does not change the concatenation. */
  lemma {:induction false} NonEmptyConcat(fs: seq<string>)
    ensures Concat(NonEmpty(fs)) == Concat(fs)
  {
    if fs != [] {
      NonEmptyConcat(fs[1..]);
      if fs[0] != [] {
        ConcatCons(fs[0], NonEmpty(fs[1..]));
      } else {
        assert Concat(fs) == [] + Concat(fs[1..]);
      }
    }
  }

  /** Filtering keeps only strings of the original list. */
  lemma {:induction false} NonEmptyFrom(fs: seq<string>, j: nat)
    requires j < |NonEmpty(fs)|
    ensures exists i :: 0 <= i < |fs| && fs[i] == NonEmpty(fs)[j]
  {
    if fs[0] != [] && j == 0 {
      assert fs[0] == NonEmpty(fs)[0];
    } else if fs[0] == [] {
      NonEmptyFrom(fs[1..], j);
      var i :| 0 <= i < |fs[1..]| && fs[1..][i] == NonEmpty(fs[1..])[j];
      assert fs[i + 1] == NonEmpty(fs)[j];
    } else {
      NonEmptyFrom(fs[1..], j - 1);
      var i :| 0 <= i < |fs[1..]| && fs[1..][i] == NonEmpty(fs[1..])[j - 1];
      assert fs[i + 1] == NonEmpty(fs)[j];
    }
  }

  /**
   * Every word is non-empty and free of whitespace, and the words spell out
   * the input with its whitespace removed.
   */
  lemma WordsShape(input: string)
    ensures forall j :: 0 <= j < |Words(input)| ==> Words(input)[j] != [] && NoSpace(Words(input)[j])
    ensures Concat(Words(input)) == RemoveSpaces(input)
  {
    var fs := Split(input);
    WordsAreNonEmptyFields(input);
    SplitFieldsHaveNoSpace(input);
    forall j | 0 <= j < |Words(input)| ensures NoSpace(Words(input)[j]) {
      NonEmptyFrom(fs, j);
    }
    NonEmptyConcat(fs);
    SplitConcat(input);
  }

  /** An input yields no word exactly when it is nothing but whitespace. */
  lemma WordsEmptyIff(input: string)
    ensures Words(input) == [] <==> AllSpace(input)
  {
    WordsShape(input);
    RemoveSpacesRuns(input);
    var ws := Words(input);
    if ws != [] {
      assert Concat(ws) == ws[0] + Concat(ws[1..]);
    }
  }

  /** Good words: non-empty and without whitespace. */
  predicate WellFormedWords(ws: seq<string>) {
    forall j :: 0 <= j < |ws| ==> ws[j] != [] && NoSpace(ws[j])
  }

  /** A whitespace-free prefix joins the first field of what follows it. */
  lemma {:induction false} SplitAfterWord(w: string, t: string)
    requires NoSpace(w)
    ensures Split(w + t) == [w + Split(t)[0]] + Split(t)[1..]
  {
    if w == [] {
      assert w + t == t;
      assert w + Split(t)[0] == Split(t)[0];
      assert Split(t) == [Split(t)[0]] + Split(t)[1..];
    } else {
      assert (w + t)[0] == w[0];
      assert (w + t)[1..] == w[1..] + t;
      SplitAfterWord(w[1..], t);
      assert [w[0]] + (w[1..] + Split(t)[0]) == w + Split(t)[0];
    }
  }

  /**
   * A run of whitespace before a word, or at the very end, ends a field: it
   * contributes one empty field and nothing else.
   */
  lemma {:induction false} SplitAfterSpaces(sp: string, t: string)
    requires sp != [] && AllSpace(sp)
    requires t == [] || !IsSpace(t[0])
    ensures Split(sp + t) == [""] + Split(t)
  {
    var s := sp + t;
    assert s[0] == sp[0];
    assert s[1..] == sp[1..] + t;
    if |sp| > 1 {
      assert s[1] == sp[1];
      assert forall i :: 0 <= i < |sp[1..]| ==> sp[1..][i] == sp[i + 1];
      SplitAfterSpaces(sp[1..], t);
    } else if t != [] {
      assert s[1] == t[0];
    }
  }

  /** `seps` fits between the words `ws`: one non-empty run of whitespace between each two neighbours. */
  predicate Separators(ws: seq<string>, seps: seq<string>) {
    (if ws == [] then seps == [] else |seps| == |ws| - 1) &&
    forall j :: 0 <= j < |seps| ==> seps[j] != [] && AllSpace(seps[j])
  }

  /** The words `ws` with `seps[j]` written between word `j` and word `j + 1`. */
  function JoinWith(ws: seq<string>, seps: seq<string>): (s: string)
    requires Separators(ws, seps)
  {
    if ws == [] then []
    else if |ws| == 1 then ws[0]
    else ws[0] + seps[0] + JoinWith(ws[1..], seps[1..])
  }

  /** Removing whitespace works piece by piece. */
  lemma {:induction false} RemoveSpacesAppend(a: string, b: string)
    ensures RemoveSpaces(a + b) == RemoveSpaces(a) + RemoveSpaces(b)
  {
    if a != [] {
      assert (a + b)[0] == a[0];
      assert (a + b)[1..] == a[1..] + b;
      RemoveSpacesAppend(a[1..], b);
    } else {
      assert a + b == b;
    }
  }

  /** A joined text, with anything after it, starts with the first letter of its first word. */
  lemma JoinWithStart(ws: seq<string>, seps: seq<string>, trail: string)
    requires ws != [] && ws[0] != [] && Separators(ws, seps)
    ensures JoinWith(ws, seps) + trail != [] && (JoinWith(ws, seps) + trail)[0] == ws[0][0]
  {
  }

  /**
   * Splitting good words joined by whitespace runs, with whitespace after
   * them, gives the words back, plus one empty field when that trailing
   * whitespace is not empty.
   */
  lemma {:induction false} SplitJoinWith(ws: seq<string>, seps: seq<string>, trail: string)
    requires ws != [] && WellFormedWords(ws) && Separators(ws, seps) && AllSpace(trail)
    ensures Split(JoinWith(ws, seps) + trail) == ws + (if trail == [] then [] else [""])
  {
    var w := ws[0];
    if |ws| == 1 {
      SplitAfterWord(w, trail);
      if trail == [] {
        assert w + trail == w;
      } else {
        SplitAfterSpaces(trail, "");
        assert trail + "" == trail;
      }
      assert w + "" == w;
    } else {
      var r := JoinWith(ws[1..], seps[1..]) + trail;
      SplitJoinWith(ws[1..], seps[1..], trail);
      JoinWithStart(ws[1..], seps[1..], trail);
      assert ws[1] == ws[1..][0];
      SplitAfterSpaces(seps[0], r);
      Associative(w + seps[0], JoinWith(ws[1..], seps[1..]), trail);
      Associative(w, seps[0], r);
      assert JoinWith(ws, seps) + trail == w + (seps[0] + r);
      SplitAfterWord(w, seps[0] + r);
      assert w + "" == w;
      assert ws == [w] + ws[1..];
    }
  }

  /** Filtering works piece by piece. */
  lemma {:induction false} NonEmptyAppend(a: seq<string>, b: seq<string>)
    ensures NonEmpty(a + b) == NonEmpty(a) + NonEmpty(b)
  {
    if a != [] {
      assert (a + b)[0] == a[0];
      assert (a + b)[1..] == a[1..] + b;
      NonEmptyAppend(a[1..], b);
    } else {
      assert a + b == b;
    }
  }

  /** Filtering changes nothing when every string is non-empty. */
  lemma {:induction false} NonEmptyKeepsWords(ws: seq<string>)
    requires forall j :: 0 <= j < |ws| ==> ws[j] != []
    ensures NonEmpty(ws) == ws
  {
    if ws != [] {
      NonEmptyKeepsWords(ws[1..]);
    }
  }

  /** The fields of whitespace, good words separated by whitespace runs, and whitespace. */
  lemma SplitLayout(lead: string, ws: seq<string>, seps: seq<string>, trail: string)
    requires ws != [] && WellFormedWords(ws) && Separators(ws, seps) && AllSpace(lead) && AllSpace(trail)
    ensures Split(lead + JoinWith(ws, seps) + trail) ==
      (if lead == [] then [] else [""]) + ws + (if trail == [] then [] else [""])
  {
    var body := JoinWith(ws, seps) + trail;
    SplitJoinWith(ws, seps, trail);
    assert lead + JoinWith(ws, seps) + trail == lead + body;
    if lead != [] {
      JoinWithStart(ws, seps, trail);
      SplitAfterSpaces(lead, body);
    } else {
      assert lead + body == body;
    }
  }

  /** Filtering drops the empty fields around non-empty strings and keeps the strings. */
  lemma NonEmptyPadded(ws: seq<string>, front: bool, back: bool)
    requires forall j :: 0 <= j < |ws| ==> ws[j] != []
    ensures NonEmpty((if front then [""] else []) + ws + (if back then [""] else [])) == ws
  {
    var pre: seq<string> := if front then [""] else [];
    var tail: seq<string> := if back then [""] else [];
    NonEmptyAppend(pre + ws, tail);
    NonEmptyAppend(pre, ws);
    NonEmptyKeepsWords(ws);
    assert NonEmpty(pre) == [] && NonEmpty(tail) == [];
  }

  /**
   * Round trip: good words separated by any runs of whitespace, with any
   * whitespace before and after them, are cut back into exactly those words.
   */
  lemma WordsOfJoinWith(lead: string, ws: seq<string>, seps: seq<string>, trail: string)
    requires WellFormedWords(ws) && Separators(ws, seps) && AllSpace(lead) && AllSpace(trail)
    ensures Words(lead + JoinWith(ws, seps) + trail) == ws
  {
    var input := lead + JoinWith(ws, seps) + trail;
    WordsAreNonEmptyFields(input);
    if ws == [] {
      assert input == lead + trail;
      AllSpaceAppend(lead, trail);
      WordsEmptyIff(input);
    } else {
      SplitLayout(lead, ws, seps, trail);
      NonEmptyPadded(ws, lead != [], trail != []);
    }
  }

  /** `input` is the good words `ws` separated by `seps`, after `lead` and before `trail`. */
  predicate Layout(input: string, lead: string, ws: seq<string>, seps: seq<string>, trail: string) {
    AllSpace(lead) && AllSpace(trail) && WellFormedWords(ws) && Separators(ws, seps) &&
    input == lead + JoinWith(ws, seps) + trail
  }

  /** A character before a joined text extends its first word. */
  lemma JoinWithPrepend(c: char, ws: seq<string>, seps: seq<string>)
    requires ws != [] && Separators(ws, seps)
    ensures Separators([[c] + ws[0]] + ws[1..], seps)
    ensures JoinWith([[c] + ws[0]] + ws[1..], seps) == [c] + JoinWith(ws, seps)
  {
    var ws2 := [[c] + ws[0]] + ws[1..];
    assert ws2[1..] == ws[1..];
  }

  /** A whitespace character in front of a layout joins its leading whitespace. */
  lemma LayoutSpace(c: char, rest: string, lead: string, ws: seq<string>, seps: seq<string>, trail: string)
    requires IsSpace(c) && Layout(rest, lead, ws, seps, trail)
    ensures Layout([c] + rest, [c] + lead, ws, seps, trail)
  {
    assert [c] + rest == ([c] + lead) + JoinWith(ws, seps) + trail;
    AllSpaceAppend([c], lead);
  }

  /** A letter in front of nothing but whitespace is the only word. */
  lemma LayoutFirstWord(c: char, rest: string, lead: string, seps: seq<string>, trail: string)
    requires !IsSpace(c) && Layout(rest, lead, [], seps, trail)
    ensures Layout([c] + rest, [], [[c]], [], lead + trail)
  {
    AllSpaceAppend(lead, trail);
    assert JoinWith([[c]], []) == [c];
    assert [c] + rest == [] + JoinWith([[c]], []) + (lead + trail);
  }

  /** A letter right in front of the first word extends it. */
  lemma LayoutExtend(c: char, rest: string, ws: seq<string>, seps: seq<string>, trail: string)
    requires !IsSpace(c) && ws != [] && Layout(rest, [], ws, seps, trail)
    ensures Layout([c] + rest, [], [[c] + ws[0]] + ws[1..], seps, trail)
  {
    var ws2 := [[c] + ws[0]] + ws[1..];
    JoinWithPrepend(c, ws, seps);
    assert [c] + rest == [] + JoinWith(ws2, seps) + trail;
    assert NoSpace([c] + ws[0]) by {
      assert forall i :: 1 <= i < |[c] + ws[0]| ==> ([c] + ws[0])[i] == ws[0][i - 1];
    }
    forall k | 1 <= k < |ws2| ensures ws2[k] != [] && NoSpace(ws2[k]) {
      assert ws2[k] == ws[k];
    }
  }

  /** A letter in front of leading whitespace is a new first word, and that whitespace its separator. */
  lemma LayoutPrepend(c: char, rest: string, lead: string, ws: seq<string>, seps: seq<string>, trail: string)
    requires !IsSpace(c) && ws != [] && lead != [] && Layout(rest, lead, ws, seps, trail)
    ensures Layout([c] + rest, [], [[c]] + ws, [lead] + seps, trail)
  {
    var ws2 := [[c]] + ws;
    var seps2 := [lead] + seps;
    assert ws2[1..] == ws && seps2[1..] == seps;
    assert JoinWith(ws2, seps2) == [c] + lead + JoinWith(ws, seps);
    assert [c] + rest == [] + JoinWith(ws2, seps2) + trail;
  }

  /** The layout of `input`, built from its last character back to its first. */
  lemma {:induction false} LayoutOf(input: string) returns (lead: string, ws: seq<string>, seps: seq<string>, trail: string)
    ensures Layout(input, lead, ws, seps, trail)
  {
    if input == [] {
      lead, ws, seps, trail := [], [], [], [];
      assert input == lead + JoinWith(ws, seps) + trail;
    } else {
      var c, rest := input[0], input[1..];
      assert input == [c] + rest;
      var l, w, sp, t := LayoutOf(rest);
      if IsSpace(c) {
        LayoutSpace(c, rest, l, w, sp, t);
        lead, ws, seps, trail := [c] + l, w, sp, t;
      } else if w == [] {
        LayoutFirstWord(c, rest, l, sp, t);
        lead, ws, seps, trail := [], [[c]], [], l + t;
      } else if l == [] {
        LayoutExtend(c, rest, w, sp, t);
        lead, ws, seps, trail := [], [[c] + w[0]] + w[1..], sp, t;
      } else {
        LayoutPrepend(c, rest, l, w, sp, t);
        lead, ws, seps, trail := [], [[c]] + w, [l] + sp, t;
      }
    }
  }

  /** Every input is laid out as whitespace, good words separated by whitespace runs, and whitespace. */
  lemma HasLayout(input: string)
    ensures exists lead, ws, seps, trail :: Layout(input, lead, ws, seps, trail)
  {
    var lead, ws, seps, trail := LayoutOf(input);
  }

  /**
   * The words of any input are its maximal runs of non-whitespace: the input
   * is some whitespace, then `Words(input)` separated by runs of whitespace,
   * then some whitespace.
   */
  lemma WordsAreTheRuns(input: string)
    ensures exists lead, seps, trail :: Layout(input, lead, Words(input), seps, trail)
  {
    HasLayout(input);
    var lead, ws, seps, trail :| Layout(input, lead, ws, seps, trail);
    WordsOfJoinWith(lead, ws, seps, trail);
    assert Layout(input, lead, Words(input), seps, trail);
  }
}
