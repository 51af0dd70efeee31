/**
 * Rust string helpers the core relies on: `char::is_whitespace`,
 * `str::split_whitespace`, `str::trim`, `str::split`, `[String]::join`,
 * `str::len` (UTF-8 bytes) and string concatenation of a list.
 */
module Text {

  /** Unicode White_Space, the set tested by Rust's `char::is_whitespace`. */
  predicate IsWhitespace(c: char) {
    var n := c as int;
    (9 <= n <= 13) || n == 32 || n == 0x85 || n == 0xA0 || n == 0x1680
    || (0x2000 <= n <= 0x200A) || n == 0x2028 || n == 0x2029 || n == 0x202F
    || n == 0x205F || n == 0x3000
  }

  predicate NoWhitespace(s: string) {
    forall i :: 0 <= i < |s| ==> !IsWhitespace(s[i])
  }

  /** The text with every whitespace character deleted. */
  function RemoveWhitespace(s: string): string {
    if s == [] then []
    else if IsWhitespace(s[0]) then RemoveWhitespace(s[1..])
    else [s[0]] + RemoveWhitespace(s[1..])
  }

  /** Concatenation of a list of strings (`concat()` / `collect::<String>()`). */
  function Flatten(ss: seq<string>): string {
    if ss == [] then [] else ss[0] + Flatten(ss[1..])
  }

  /** `ws.join(sep)`. */
  function Join(ws: seq<string>, sep: string): string {
    if ws == [] then []
    else if |ws| == 1 then ws[0]
    else ws[0] + sep + Join(ws[1..], sep)
  }

  /** Length of the longest whitespace-free prefix. */
  function WordLength(s: string): (n: nat)
    ensures n <= |s| && NoWhitespace(s[..n])
    ensures n < |s| ==> IsWhitespace(s[n])
  {
    if s == [] || IsWhitespace(s[0]) then 0 else 1 + WordLength(s[1..])
  }

  /** `s.split_whitespace()`: the maximal runs of non-whitespace characters, in order. */
  function Words(s: string): seq<string>
    decreases |s|
  {
    if s == [] then []
    else if IsWhitespace(s[0]) then Words(s[1..])
    else
      var n := WordLength(s);
      [s[..n]] + Words(s[n..])
  }

  /** Number of bytes of the UTF-8 encoding of one character. */
  function Utf8Width(c: char): nat {
    var n := c as int;
    if n < 0x80 then 1 else if n < 0x800 then 2 else if n < 0x10000 then 3 else 4
  }

  /** `s.len()`: the length in UTF-8 bytes. */
  function Utf8Len(s: string): nat {
    if s == [] then 0 else Utf8Width(s[0]) + Utf8Len(s[1..])
  }

  /** `s.trim_start()`: drops the longest whitespace prefix. */
  function TrimStart(s: string): (r: string)
    ensures |r| <= |s| && r == s[|s| - |r|..]
    ensures r == [] || !IsWhitespace(r[0])
    ensures forall i :: 0 <= i < |s| - |r| ==> IsWhitespace(s[i])
  {
    if s != [] && IsWhitespace(s[0]) then TrimStart(s[1..]) else s
  }

  /** `s.trim_end()`: drops the longest whitespace suffix. */
  function TrimEnd(s: string): (r: string)
    ensures |r| <= |s| && r == s[..|r|]
    ensures r == [] || !IsWhitespace(r[|r| - 1])
    ensures forall i :: |r| <= i < |s| ==> IsWhitespace(s[i])
  {
    if s != [] && IsWhitespace(s[|s| - 1]) then TrimEnd(s[..|s| - 1]) else s
  }

  /** `s.trim()`. */
  function Trim(s: string): string {
    TrimEnd(TrimStart(s))
  }

  /**
   * `s.split(p)` for a pattern matching any character of `seps`: the pieces
   * between separators, empty ones included, so there is always one more piece
   * than there are separators.
   */
  function Split(s: string, seps: set<char>): (r: seq<string>)
    ensures |r| >= 1
    ensures forall i, j :: 0 <= i < |r| && 0 <= j < |r[i]| ==> r[i][j] !in seps
    decreases |s|
  {
    if s == [] then [""]
    else
      var rest := Split(s[1..], seps);
      if s[0] in seps then [""] + rest else [[s[0]] + rest[0]] + rest[1..]
  }

  /** Number of characters of `s` that belong to `cs`. */
  function CountChars(s: string, cs: set<char>): nat {
    if s == [] then 0 else (if s[0] in cs then 1 else 0) + CountChars(s[1..], cs)
  }

  predicate IsAsciiUpper(c: char) {
    'A' <= c <= 'Z'
  }

  /** `char::is_ascii_punctuation`: the printable ASCII characters that are neither letters, digits nor space. */
  predicate IsAsciiPunctuation(c: char) {
    ('!' <= c <= '/') || (':' <= c <= '@') || ('[' <= c <= '`') || ('{' <= c <= '~')
  }

  /** Lower-casing of one character, on the ASCII letters; every other character is kept. */
  function Lower(c: char): (r: char)
    ensures !IsAsciiUpper(r)
    ensures IsWhitespace(r) <==> IsWhitespace(c)
    ensures IsAsciiPunctuation(r) <==> IsAsciiPunctuation(c)
  {
    if IsAsciiUpper(c) then (c as int + 32) as char else c
  }

  /** `s.to_lowercase()`, on the ASCII letters. */
  function LowerAll(s: string): string {
    seq(|s|, i requires 0 <= i < |s| => Lower(s[i]))
  }

  /** Each string of a list lower-cased. */
  function LowerEach(ws: seq<string>): seq<string> {
    seq(|ws|, i requires 0 <= i < |ws| => LowerAll(ws[i]))
  }

  /**
   * `s.replace(pat, rep)`: the non-overlapping occurrences of pat, found left
   * to right, replaced by rep; an empty pattern matches before every
   * character and at the end.
   */
  function Replace(s: string, pat: string, rep: string): string
    decreases |s|, if |s| >= |pat| && s[..|pat|] == pat then 1 else 0
  {
    if pat == [] then rep + (if s == [] then [] else [s[0]] + Replace(s[1..], pat, rep))
    else if |s| >= |pat| && s[..|pat|] == pat then rep + Replace(s[|pat|..], pat, rep)
    else if s == [] then []
    else [s[0]] + Replace(s[1..], pat, rep)
  }

  // ---------------------------------------------------------------------------
  // Lemmas
  // ---------------------------------------------------------------------------

  lemma {:induction false} FlattenAppend(a: seq<string>, b: seq<string>)
    ensures Flatten(a + b) == Flatten(a) + Flatten(b)
    decreases |a|
  {
    if a == [] {
      assert a + b == b;
    } else {
      assert (a + b)[1..] == a[1..] + b;
      FlattenAppend(a[1..], b);
    }
  }

  lemma {:induction false} RemoveWhitespaceAppend(a: string, b: string)
    ensures RemoveWhitespace(a + b) == RemoveWhitespace(a) + RemoveWhitespace(b)
    decreases |a|
  {
    if a == [] {
      assert a + b == b;
    } else {
      assert (a + b)[1..] == a[1..] + b;
      RemoveWhitespaceAppend(a[1..], b);
    }
  }

  lemma {:induction false} RemoveWhitespaceNone(a: string)
    requires NoWhitespace(a)
    ensures RemoveWhitespace(a) == a
    decreases |a|
  {
    if a != [] {
      RemoveWhitespaceNone(a[1..]);
    }
  }

  /** Every word is non-empty and free of whitespace. */
  lemma {:induction false} WordsAreWords(s: string)
    ensures forall i :: 0 <= i < |Words(s)| ==> Words(s)[i] != [] && NoWhitespace(Words(s)[i])
    decreases |s|
  {
    if s == [] {
    } else if IsWhitespace(s[0]) {
      WordsAreWords(s[1..]);
    } else {
      var n := WordLength(s);
      WordsAreWords(s[n..]);
    }
  }

  /** Concatenating the words gives back the text without its whitespace. */
  lemma {:induction false} FlattenWords(s: string)
    ensures Flatten(Words(s)) == RemoveWhitespace(s)
    decreases |s|
  {
    if s == [] {
    } else if IsWhitespace(s[0]) {
      FlattenWords(s[1..]);
    } else {
      var n := WordLength(s);
      FlattenWords(s[n..]);
      assert s == s[..n] + s[n..];
      RemoveWhitespaceAppend(s[..n], s[n..]);
      RemoveWhitespaceNone(s[..n]);
      assert Flatten([s[..n]] + Words(s[n..])) == s[..n] + Flatten(Words(s[n..]));
    }
  }

  /** A text of whitespace only has no words. */
  lemma {:induction false} WordsOfBlank(s: string)
    requires forall i :: 0 <= i < |s| ==> IsWhitespace(s[i])
    ensures Words(s) == []
    decreases |s|
  {
    if s != [] {
      WordsOfBlank(s[1..]);
    }
  }

  /** Every character of every word is a non-whitespace character of the text. */
  lemma {:induction false} WordChars(s: string)
    ensures forall i, j :: 0 <= i < |Words(s)| && 0 <= j < |Words(s)[i]| ==>
      Words(s)[i][j] in s && !IsWhitespace(Words(s)[i][j])
    decreases |s|
  {
    if s == [] {
    } else if IsWhitespace(s[0]) {
      WordChars(s[1..]);
    } else {
      var n := WordLength(s);
      WordChars(s[n..]);
      forall i, j | 0 <= i < |Words(s)| && 0 <= j < |Words(s)[i]|
        ensures Words(s)[i][j] in s
      {
        if i == 0 {
          assert Words(s)[i][j] == s[j];
        } else {
          assert Words(s)[i] == Words(s[n..])[i - 1];
          assert Words(s)[i][j] in s[n..];
        }
      }
    }
  }

  /** Conversely every non-whitespace character of the text lies in some word. */
  lemma {:induction false} CharInSomeWord(s: string, c: char) returns (k: nat)
    requires c in s && !IsWhitespace(c)
    ensures k < |Words(s)| && c in Words(s)[k]
    decreases |s|
  {
    if IsWhitespace(s[0]) {
      var k' := CharInSomeWord(s[1..], c);
      k := k';
    } else {
      var n := WordLength(s);
      if c in s[..n] {
        k := 0;
      } else {
        assert s == s[..n] + s[n..];
        var k' := CharInSomeWord(s[n..], c);
        k := k' + 1;
      }
    }
  }

  lemma {:induction false} WordLengthOfPrefix(w: string, t: string)
    requires NoWhitespace(w) && (t == [] || IsWhitespace(t[0]))
    ensures WordLength(w + t) == |w|
    decreases |w|
  {
    if w != [] {
      assert (w + t)[1..] == w[1..] + t;
      WordLengthOfPrefix(w[1..], t);
    }
  }

  lemma WordsOfPrefix(w: string, t: string)
    requires w != [] && NoWhitespace(w) && (t == [] || IsWhitespace(t[0]))
    ensures Words(w + t) == [w] + Words(t)
  {
    WordLengthOfPrefix(w, t);
    assert (w + t)[..|w|] == w;
    assert (w + t)[|w|..] == t;
  }

  /** Splitting a space-joined list of words gives the list back. */
  lemma {:induction false} WordsOfJoin(ws: seq<string>)
    requires forall i :: 0 <= i < |ws| ==> ws[i] != [] && NoWhitespace(ws[i])
    ensures Words(Join(ws, " ")) == ws
    decreases |ws|
  {
    if |ws| == 1 {
      WordsOfPrefix(ws[0], "");
      assert ws[0] + "" == ws[0];
    } else if |ws| > 1 {
      var rest := Join(ws[1..], " ");
      WordsOfJoin(ws[1..]);
      assert ws[0] + " " + rest == ws[0] + (" " + rest);
      WordsOfPrefix(ws[0], " " + rest);
      assert (" " + rest)[1..] == rest;
    }
  }

  /** Replacing a pattern by itself changes nothing. */
  lemma {:induction false} ReplaceSelf(s: string, pat: string)
    ensures Replace(s, pat, pat) == s
    decreases |s|
  {
    if pat == [] {
      if s != [] {
        ReplaceSelf(s[1..], pat);
        assert s == [s[0]] + s[1..];
      }
    } else if |s| >= |pat| && s[..|pat|] == pat {
      ReplaceSelf(s[|pat|..], pat);
      assert s == s[..|pat|] + s[|pat|..];
    } else if s != [] {
      ReplaceSelf(s[1..], pat);
      assert s == [s[0]] + s[1..];
    }
  }

  lemma {:induction false} WordLengthLower(s: string)
    ensures WordLength(LowerAll(s)) == WordLength(s)
    decreases |s|
  {
    if s != [] && !IsWhitespace(s[0]) {
      assert LowerAll(s)[1..] == LowerAll(s[1..]);
      WordLengthLower(s[1..]);
    }
  }

  /** Lower-casing commutes with `split_whitespace`, since it keeps every character's whitespace-ness. */
  lemma {:induction false} WordsLower(s: string)
    ensures Words(LowerAll(s)) == LowerEach(Words(s))
    decreases |s|
  {
    var l := LowerAll(s);
    if s == [] {
    } else if IsWhitespace(s[0]) {
      assert l[1..] == LowerAll(s[1..]);
      WordsLower(s[1..]);
    } else {
      var n := WordLength(s);
      WordLengthLower(s);
      assert l[..n] == LowerAll(s[..n]);
      assert l[n..] == LowerAll(s[n..]);
      WordsLower(s[n..]);
      assert LowerEach([s[..n]] + Words(s[n..])) == [LowerAll(s[..n])] + LowerEach(Words(s[n..]));
    }
  }

  /** Deleting whitespace leaves none. */
  lemma {:induction false} RemoveWhitespaceClean(s: string)
    ensures NoWhitespace(RemoveWhitespace(s))
    decreases |s|
  {
    if s != [] {
      RemoveWhitespaceClean(s[1..]);
    }
  }

  /** In a text whose only whitespace is the space character, `replace(" ", "")` deletes the whitespace. */
  lemma {:induction false} ReplaceSpaces(s: string)
    requires forall i :: 0 <= i < |s| && IsWhitespace(s[i]) ==> s[i] == ' '
    ensures Replace(s, " ", "") == RemoveWhitespace(s)
    decreases |s|
  {
    if s != [] {
      ReplaceSpaces(s[1..]);
      if s[0] == ' ' {
        assert s[..1] == " ";
      } else {
        assert s[..1] != " " by { assert s[..1][0] != ' '; }
      }
    }
  }

  // ---------------------------------------------------------------------------
  // Splitting, trimming and blank text
  // ---------------------------------------------------------------------------

  /** Every character is whitespace (`s.trim().is_empty()`). */
  predicate Blank(s: string) {
    forall i :: 0 <= i < |s| ==> IsWhitespace(s[i])
  }

  /** The text with every character of `cs` deleted. */
  function RemoveChars(s: string, cs: set<char>): string {
    if s == [] then [] else (if s[0] in cs then [] else [s[0]]) + RemoveChars(s[1..], cs)
  }

  /**
   * `s.split("\n\n")`: the pieces between blank-line separators, found left
   * to right without overlapping, empty pieces included.
   */
  function SplitParagraphs(s: string): (r: seq<string>)
    ensures |r| >= 1
    decreases |s|
  {
    if |s| >= 2 && s[0] == '\n' && s[1] == '\n' then [""] + SplitParagraphs(s[2..])
    else if s == [] then [""]
    else
      var rest := SplitParagraphs(s[1..]);
      [[s[0]] + rest[0]] + rest[1..]
  }

  /** A whitespace-only text has no whitespace-free residue. */
  lemma {:induction false} RemoveWhitespaceBlank(s: string)
    requires Blank(s)
    ensures RemoveWhitespace(s) == []
    decreases |s|
  {
    if s != [] {
      RemoveWhitespaceBlank(s[1..]);
    }
  }

  /** Whitespace-only text concatenates to whitespace-only text, and only so. */
  lemma BlankAppend(a: string, b: string)
    ensures Blank(a + b) <==> Blank(a) && Blank(b)
  {
    assert forall i :: 0 <= i < |a| ==> (a + b)[i] == a[i];
    assert forall i :: 0 <= i < |b| ==> (a + b)[|a| + i] == b[i];
  }

  /** Cutting a whitespace prefix only removes whitespace. */
  lemma RemoveWhitespaceTrimStart(s: string)
    ensures RemoveWhitespace(TrimStart(s)) == RemoveWhitespace(s)
  {
    var t := TrimStart(s);
    var k := |s| - |t|;
    assert s == s[..k] + t;
    RemoveWhitespaceAppend(s[..k], t);
    RemoveWhitespaceBlank(s[..k]);
  }

  /** Cutting a whitespace suffix only removes whitespace. */
  lemma RemoveWhitespaceTrimEnd(s: string)
    ensures RemoveWhitespace(TrimEnd(s)) == RemoveWhitespace(s)
  {
    var u := TrimEnd(s);
    assert s == u + s[|u|..];
    RemoveWhitespaceAppend(u, s[|u|..]);
    RemoveWhitespaceBlank(s[|u|..]);
  }

  /** Trimming only removes whitespace. */
  lemma RemoveWhitespaceTrim(s: string)
    ensures RemoveWhitespace(Trim(s)) == RemoveWhitespace(s)
  {
    RemoveWhitespaceTrimStart(s);
    RemoveWhitespaceTrimEnd(TrimStart(s));
  }

  /** `s.trim().is_empty()` holds exactly for whitespace-only text. */
  lemma TrimEmpty(s: string)
    ensures Trim(s) == [] <==> Blank(s)
  {
  }

  /** The characters of `Trim(s)` are characters of `s`. */
  lemma TrimChars(s: string)
    ensures forall j :: 0 <= j < |Trim(s)| ==> Trim(s)[j] in s
  {
    var t := TrimStart(s);
    var k := |s| - |t|;
    forall j | 0 <= j < |Trim(s)| ensures Trim(s)[j] in s {
      assert Trim(s)[j] == t[j] == s[k + j];
    }
  }

  /** `split` on characters yields one piece more than there are separators. */
  lemma {:induction false} SplitCount(s: string, seps: set<char>)
    ensures |Split(s, seps)| == CountChars(s, seps) + 1
    decreases |s|
  {
    if s != [] {
      SplitCount(s[1..], seps);
    }
  }

  /** The pieces of a character `split`, concatenated, are the text without its separators. */
  lemma {:induction false} FlattenSplit(s: string, seps: set<char>)
    ensures Flatten(Split(s, seps)) == RemoveChars(s, seps)
    decreases |s|
  {
    if s != [] {
      FlattenSplit(s[1..], seps);
      var rest := Split(s[1..], seps);
      if s[0] in seps {
        assert ([""] + rest)[1..] == rest;
      } else {
        var r := [[s[0]] + rest[0]] + rest[1..];
        assert r[1..] == rest[1..];
        assert Flatten(rest) == rest[0] + Flatten(rest[1..]);
      }
    }
  }

  /** Every piece of a list is whitespace-only. */
  predicate AllBlank(ps: seq<string>) {
    forall k :: 0 <= k < |ps| ==> Blank(ps[k])
  }

  lemma AllBlankCons(p: string, ps: seq<string>)
    ensures AllBlank([p] + ps) <==> Blank(p) && AllBlank(ps)
  {
    assert ([p] + ps)[0] == p;
    assert forall k :: 0 <= k < |ps| ==> ([p] + ps)[k + 1] == ps[k];
  }

  /** Splitting at blank lines: every piece is blank exactly when the text is. */
  lemma {:induction false} SplitParagraphsBlank(s: string)
    ensures AllBlank(SplitParagraphs(s)) <==> Blank(s)
    decreases |s|
  {
    if |s| >= 2 && s[0] == '\n' && s[1] == '\n' {
      var tail := s[2..];
      SplitParagraphsBlank(tail);
      AllBlankCons("", SplitParagraphs(tail));
      assert s == s[..2] + tail;
      BlankAppend(s[..2], tail);
    } else if s != [] {
      var rest := SplitParagraphs(s[1..]);
      SplitParagraphsBlank(s[1..]);
      assert rest == [rest[0]] + rest[1..];
      AllBlankCons(rest[0], rest[1..]);
      AllBlankCons([s[0]] + rest[0], rest[1..]);
      BlankAppend([s[0]], rest[0]);
      assert s == [s[0]] + s[1..];
      BlankAppend([s[0]], s[1..]);
    }
  }
}
