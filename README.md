# Orbitals glyph builder in Dafny

Orbitals turns a word into a glyph drawn over a wheel holding the 26 letters
A–Z. `buildGlyph` (src/App.jsx) does this in several steps:

- It upper-cases the word and keeps only the letters A–Z.
- It walks the letters once. A letter equal to the letter just before it
  becomes a small *ring*. Every other letter becomes a *vertex* of the path,
  at that letter's wheel position.
- In a *perfect palindrome*, letters up to `half = floor((n - 1) / 2)` sit
  `PAL_SPLIT` outside the base radius and later letters sit `PAL_SPLIT`
  inside it.
- It records the first vertex as the start *dot* and pulls that vertex
  toward the centre (the *lead-in*).
- It emits an SVG path: one `M` to the first vertex, then one quadratic `Q`
  segment per further vertex. The control point of a palindrome's segment
  bows to one side and then the other (a "leaf"). In any other word it
  follows a radial-then-pull rule.

The `App` component cuts its input into words with
`input.split(/\s+/).map((w) => w.trim()).filter(Boolean)` and draws one glyph
per word.

The model keeps every decision and leaves out the floating-point geometry:

- A point records its wheel position, its index in the normalised word, its
  radius side (base, outward or inward) and whether the lead-in moved it.
- A path is a list of commands. `Move(to)` is the move to the first vertex.
  `Quad(segment, from, bow, to)` is a segment between two vertices; its
  `bow` names the control-point rule: `Leaf(sign)` for a palindrome, `Orbit`
  for any other word.

Modules, one per file:

- `Wrappers`: `Option`.
- `Letters`: upper-casing, normalisation, reversal and `isPerfectPalindrome`.
- `AngleMapper`: `angleOf` as a position on the wheel.
- `RunCompression`: run-length compression. It is the independent reference
  for which letters become vertices.
- `GlyphBuilder`: the data model, the specification functions `Classify`,
  `PathUpTo` and `GlyphOf`, and the imperative `BuildGlyph`. Its two loops are
  proved against those functions.
- `Classification`: lemmas about `Classify` and `PathUpTo`, the functions
  that specify the two loops.
- `GlyphProperties`: what the glyph of a word guarantees.
- `GlyphExamples`: the glyphs of HELLO, LLL, LOVE, ANNA, AABCBAA and
  letterless words.
- `Tokenizer`: the word split of line 115.

Two behaviours of the code shape the model:

- **Normalisation.** The code strips everything outside A–Z before
  classifying (line 39), so a letter's index is its index in the stripped
  word. The `null` branch of `angleOf` (line 46) is modelled but cannot fire
  on stripped letters.
- **Palindrome bow sign.** The sign follows the segment's position in the
  vertex list (`i - 1 <= half`, line 72). `GlyphProperties.SourceIndexBow` is
  the alternative rule keyed on the source index of the segment's first
  letter.
  - `GlyphProperties.BowAgreesWithSourceIndexWithoutRings` proves the two
    rules agree whenever no letter repeats.
  - `GlyphExamples.BowDiffersFromSourceIndexWithRings` shows they differ for
    AABCBAA.

## Model

| member | source | states |
|---|---|---|
| Letters.Upper | src/App.jsx:31 | upper-casing yields a letter A–Z exactly for A–Z and a–z, sends each of a–z to its own capital (same distance from the start of the alphabet) and leaves every other character unchanged |
| Letters.Normalize | src/App.jsx:39 | the normalised word holds only letters A–Z and is never longer than the input |
| Letters.NormalizeAppend | src/App.jsx:39 | normalisation works character by character: it distributes over concatenation |
| Letters.NormalizeFixed | src/App.jsx:39 | a word already made of A–Z is its own normalisation |
| Letters.NormalizeEmpty | src/App.jsx:39-40 | nothing survives normalisation exactly when no character upper-cases into A–Z |
| Letters.NormalizeIdempotent | src/App.jsx:31 | normalising twice is normalising once |
| Letters.Reverse | src/App.jsx:32 | the reverse has the same length |
| Letters.ReverseAt | src/App.jsx:32 | position k of the reverse holds the mirrored character |
| Letters.PalindromeIff | src/App.jsx:30-33 | `IsPerfectPalindrome(w)` holds iff the normalised letters are non-empty and equal their reverse, iff they are non-empty and every letter equals its mirror; the first == last test adds nothing |
| Letters.AnnaIsPalindrome | src/App.jsx:30-33 | "ANNA" and "Anna!" (which normalises to ANNA) are perfect palindromes |
| Letters.EarthIsNotPalindrome | src/App.jsx:30-33 | "EARTH", "" and "42 !" are not perfect palindromes |
| AngleMapper.IndexOf | src/App.jsx:25-26 | `indexOf` finds nothing exactly when the character is absent; otherwise it returns the first position holding it |
| AngleMapper.AlphabetInOrder | src/App.jsx:12 | the alphabet lists A–Z in code order |
| AngleMapper.AngleOf | src/App.jsx:24-28 | `angleOf` returns no angle exactly for a character whose upper case is not A–Z; otherwise its wheel position holds that upper-case letter |
| AngleMapper.AngleOfIsIndexOf | src/App.jsx:25-26 | the wheel position is `ALPHABET.indexOf(ch.toUpperCase())` |
| AngleMapper.AngleOfInjective | src/App.jsx:24-28 | two letters A–Z share a wheel position only if they are the same letter |
| AngleMapper.AngleOfCaseInsensitive | src/App.jsx:24-26 | `angleOf` ignores case: each lower-case letter a–z has an angle, the same as its capital |
| AngleMapper.AnglesEvenlySpaced | src/App.jsx:27 | letters i and j are (j - i)/26 of a turn apart, clockwise from 12 o'clock, so the angles are distinct and evenly spaced |
| AngleMapper.AngleInTurns | src/App.jsx:27 | the angle of a wheel position, in turns, lies within one turn: from a quarter turn (12 o'clock) down to above minus three quarters |
| GlyphBuilder.FirstLetterIsVertex | src/App.jsx:45-54 | the first letter is always a vertex and stays the first vertex however many letters follow, so `pts[0]` exists for the dot |
| GlyphBuilder.Half | src/App.jsx:43 | `half` is a letter index; in an odd-length word it is the middle letter, its own mirror, and in an even-length word its mirror is the next letter |
| GlyphBuilder.BuildGlyph | src/App.jsx:36-86 | the two-loop method returns exactly the glyph `GlyphOf(word)` whose properties are proved in `GlyphProperties` |
| Classification.ClassifyInvariant | src/App.jsx:45-51 | `Classify` after k letters: each is a vertex or a ring and not both; vertices are the non-repeats and rings the repeats, in letter order, drawn for their own letters |
| Classification.ClassifyCounts | src/App.jsx:45-51 | every letter read adds exactly one point |
| Classification.ClassifyPoints | src/App.jsx:45-50 | every point is the one drawn for its letter (position, radius side), in letter order, and is a ring exactly when its letter repeats |
| Classification.ClassifyCovers | src/App.jsx:45-51 | every letter read has its point among the vertices or the rings |
| Classification.ClassifyCompresses | src/App.jsx:45-51 | the vertex letters after k letters are the run-length compression of those k letters |
| Classification.CompressGrows | src/App.jsx:50 | `IsRing` holds for a letter exactly when it does not extend the compression of the letters before it; otherwise the letter becomes a vertex |
| Classification.PathShape | src/App.jsx:62-84 | `PathUpTo`: the path loop emits a move to the first vertex, then segment i from vertex i-1 to vertex i with the bow rule `BowOf` of segment i |
| RunCompression.Compress | src/App.jsx:50 | the compression is never longer than its input |
| RunCompression.CompressSnoc | src/App.jsx:50 | appending a letter grows the compression unless it repeats the last letter |
| RunCompression.CompressShape | src/App.jsx:50 | the compression is empty only for empty input, keeps the first letter and never has two equal neighbours |
| RunCompression.CompressIdentity | src/App.jsx:50 | a word is its own compression exactly when no two neighbours are equal |
| RunCompression.CompressHello | src/App.jsx:50 | HELLO compresses to HELO |
| RunCompression.CompressTriple | src/App.jsx:50 | LLL compresses to L |
| RunCompression.CompressLove | src/App.jsx:50 | LOVE is kept whole |
| GlyphProperties.GlyphFromClassified | src/App.jsx:53-85 | `GlyphOfLetters`: the dot is the first vertex as drawn; the path visits the vertices in order with only the first one moved by `LeadIn`; the rings are returned as found |
| GlyphProperties.VertexSources | src/App.jsx:54-60 | the lead-in moves the first vertex but keeps every vertex standing for the letter it was classified for |
| GlyphProperties.ClassifiedOnce | src/App.jsx:45-51 | path and rings together account for every letter once: the vertices are exactly the non-repeating letters and the rings exactly the repeats, each in letter order |
| GlyphProperties.VerticesAreRunCompressed | src/App.jsx:45-51 | the letters of the path vertices are the run-length compression of the word; the first letter starts the path |
| GlyphProperties.WheelsFollowCompressedLetters | src/App.jsx:45-63 | the path visits, in order, the wheel positions of the run-compressed letters |
| GlyphProperties.MirroredSides | src/App.jsx:43-48 | `SideOf` in a palindrome puts a letter and its mirror on opposite sides of `baseR`, the first-half one outward, and the middle letter of an odd word outward; in any word that is not a palindrome every letter sits on `baseR` |
| GlyphProperties.PointsFollowRadiusRule | src/App.jsx:43-50 | every vertex and ring sits at its own letter's wheel position and at the palindrome radius rule |
| GlyphProperties.AdjacentVerticesDiffer | src/App.jsx:50 | consecutive path vertices are at different wheel positions: a repeat never draws a zero-length segment |
| GlyphProperties.DotIsUnmovedFirstLetter | src/App.jsx:53-62 | the dot is the first letter's exact point; the path starts at that point moved by `LeadIn`, and no other point is moved |
| GlyphProperties.SegmentsChain | src/App.jsx:62-84 | command k (k >= 1) is the quadratic segment numbered k from the end of command k-1, with the bow rule of segment k |
| GlyphProperties.PathIsMoveThenSegments | src/App.jsx:62-84 | one move followed by one segment per further vertex, segment k starting where k-1 ended; `BowOf` gives palindrome segments sign -1 while k-1 <= half and +1 after, and other words orbit |
| GlyphProperties.RingFreeVerticesAreLetters | src/App.jsx:45-51 | without repeated letters there are no rings and vertex k is letter k |
| GlyphProperties.BowAgreesWithSourceIndexWithoutRings | src/App.jsx:72 | without repeated letters the position-based bow sign equals the sign chosen by the source index of the segment's first letter |
| GlyphProperties.EmptyExactlyWithoutLetters | src/App.jsx:39-40 | `GlyphOf(word)` is `{ d: "", dot: null, rings: [] }` exactly when the word has no character that upper-cases into A–Z; otherwise it has a dot and a path |
| GlyphProperties.EveryLetterClassifiedOnce | src/App.jsx:39-51 | for every word, vertices plus rings number its letters A–Z |
| GlyphExamples.HelloWheels | src/App.jsx:45-63 | the path of HELLO visits H, E, L, O |
| GlyphExamples.HelloRing | src/App.jsx:50 | the one ring of HELLO is its second L |
| GlyphExamples.HelloExample | src/App.jsx:36-86 | HELLO: vertices H, E, L, O, one ring at the second L, every segment orbits |
| GlyphExamples.TripleLetters | src/App.jsx:45-51 | LLL is one vertex and two rings, at letters 1 and 2 |
| GlyphExamples.TripleLetterExample | src/App.jsx:36-86 | LLL is a palindrome: dot and first ring outward, second ring inward |
| GlyphExamples.LoveLetters | src/App.jsx:45-63 | LOVE is four vertices L, O, V, E and no ring |
| GlyphExamples.LoveExample | src/App.jsx:36-86 | LOVE: four vertices, no ring, every segment orbits |
| GlyphExamples.NoLetterExample | src/App.jsx:39-40 | "" and "42 !" give the empty glyph |
| GlyphExamples.AnnaLetters | src/App.jsx:45-63 | ANNA is vertices A, N, A and one ring at letter 2 |
| GlyphExamples.AnnaExample | src/App.jsx:36-86 | "Anna!": vertices A, N, A, its ring drawn inward, both segments bow with sign -1 |
| GlyphExamples.MirroredPairVertices | src/App.jsx:45-51 | AABCBAA has five vertices and the fourth is letter 4 |
| GlyphExamples.BowDiffersFromSourceIndexWithRings | src/App.jsx:72 | in the palindrome AABCBAA segment 4 starts at letter 4, past half = 3, yet bows with sign -1; a source-index rule would give +1 |
| Tokenizer.Split | src/App.jsx:115 | `split(/\s+/)` always yields at least one field; `SplitLayout` and `WordsAreTheRuns` fix where it cuts |
| Tokenizer.Trim | src/App.jsx:115 | `trim()` leaves a string that neither starts nor ends with whitespace and is no longer than the input |
| Tokenizer.TrimKeepsMiddle | src/App.jsx:115 | `trim()` cuts only whitespace from the two ends and keeps the middle; it leaves nothing exactly when the string is all whitespace |
| Tokenizer.NonEmpty | src/App.jsx:115 | `filter(Boolean)` keeps only non-empty strings and never adds any |
| Tokenizer.SplitFieldsHaveNoSpace | src/App.jsx:115 | no field of the split contains whitespace |
| Tokenizer.SplitConcat | src/App.jsx:115 | the fields, put back together, are the input with its whitespace removed |
| Tokenizer.TrimNoSpace | src/App.jsx:115 | trimming a whitespace-free string changes nothing |
| Tokenizer.WordsAreNonEmptyFields | src/App.jsx:115 | the `trim` step (`TrimAll`) is redundant: the words are the non-empty fields of the split |
| Tokenizer.NonEmptyConcat | src/App.jsx:115 | dropping empty strings does not change the text they spell |
| Tokenizer.WordsShape | src/App.jsx:115 | every word of `Words(input)` is non-empty and whitespace-free, and the words spell the input without its whitespace |
| Tokenizer.WordsEmptyIff | src/App.jsx:115 | an input yields no word exactly when it is all whitespace |
| Tokenizer.SplitAfterSpaces | src/App.jsx:115 | a run of whitespace before a word or at the end of the input ends the field before it and adds one empty field |
| Tokenizer.SplitJoinWith | src/App.jsx:115 | splitting good words separated by any whitespace runs, then whitespace, gives the words back plus one empty field exactly when that trailing whitespace is present |
| Tokenizer.SplitLayout | src/App.jsx:115 | `split(/\s+/)` of whitespace, good words separated by whitespace runs, and whitespace is the words with one empty field before and after exactly when the leading and trailing whitespace is present |
| Tokenizer.NonEmptyAppend | src/App.jsx:115 | `filter(Boolean)` distributes over concatenation |
| Tokenizer.WordsOfJoinWith | src/App.jsx:115 | round trip: good words separated by any whitespace runs, with any leading and trailing whitespace, give back exactly those words |
| Tokenizer.HasLayout | src/App.jsx:115 | every input is whitespace, good words separated by whitespace runs, and whitespace |
| Tokenizer.WordsAreTheRuns | src/App.jsx:115 | the words of any input are its maximal runs of non-whitespace: the input is whitespace, `Words(input)` separated by whitespace runs, and whitespace |

## Left out

- Floating-point geometry is not modelled. This covers `polarToXY` (line 29), `Math.cos`/`Math.sin` and the radian angle of `angleOf` (line 27). A point keeps its wheel position instead. `AngleInTurns` states the angle exactly as a fraction of a turn.
- Radii are not modelled: `baseR = wheelR - RING_MARGIN_PX` (line 38), and the `wheelR` and `C` parameters. A point records only its radius side relative to `baseR`.
- The lead-in arithmetic is not modelled (lines 57-60): the vector toward the centre, `Math.hypot`, the fallback length 1, and `LEAD_IN_PX`. Only the fact that the first vertex alone is moved is kept, as the `leadIn` flag.
- Control-point arithmetic is not modelled (lines 69-80): the perpendicular, the factor `0.3 * baseR`, `RADIAL_FACTOR` and `PULL_FACTOR`. A segment records only which rule places its control point and, for a palindrome, its sign.
- The path is a list of commands, not the `d` string. Formatting with `toFixed(2)` (lines 62 and 83) is not modelled.
- Letters.Upper: upper-cases ASCII only. JavaScript's full Unicode `toUpperCase` turns some non-ASCII characters into A–Z letters (ı to I, ſ to S, ß to SS, the ligature ﬁ to FI). The model drops those characters where the code keeps their letters.
- The `(word || "")` guard (line 39) is not modelled: the model takes a string, so `null` and `undefined` words do not arise.
- Letters.IsPerfectPalindrome: returns `false` where the JavaScript returns the falsy empty string for a letterless word.
- The React components `Glyph` and `App` are not modelled (lines 89-132): SVG rendering, `useState`, the checkboxes and the textarea. The `key={w}` collision when a word repeats is part of that UI. Only the word split of line 115 is modelled.
- The stroke constants `STROKE_OUT` and `STROKE_IN` (lines 18-19) only affect rendering.
