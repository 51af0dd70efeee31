/**
 * The word-level chunkers of the chunking benchmark
 * (`BenchmarkRunner::simulate_chunking`): fixed groups of words, sentence
 * packing, adaptive groups and a sliding window.
 *
 * A chunker that would loop forever (a step or group size of 0) or panic
 * (`chunks(0)`) yields an error value instead.
 */
module BenchmarkChunking {
  import opened Seqs
  import opened Wrappers
  import opened Text

  datatype Strategy = Fixed | Semantic | Adaptive | Sliding

  datatype BenchConfig = BenchConfig(
    maxChunkSize: nat,
    minChunkSize: nat,
    overlapRatio: real,
    strategy: Strategy,
    preserveSentences: bool,
    preserveParagraphs: bool)

  datatype BenchError = ZeroChunkSize | NoProgress

  type Chunks = Result<seq<string>, BenchError>
  type Groups = Result<seq<seq<string>>, BenchError>

  /** The configuration of each strategy in `BenchmarkConfig::default`. */
  function DefaultConfigs(): map<Strategy, BenchConfig> {
    map[
      Fixed := BenchConfig(512, 64, 0.0, Fixed, false, false),
      Semantic := BenchConfig(512, 128, 0.1, Semantic, true, true),
      Adaptive := BenchConfig(768, 256, 0.15, Adaptive, true, false),
      Sliding := BenchConfig(400, 200, 0.25, Sliding, false, false)]
  }

  /** The separator `join(" ")` puts between words. */
  const Space: string := " "

  /** Each group of words joined by single spaces. */
  function Joined(gs: seq<seq<string>>): (r: seq<string>)
    ensures |r| == |gs|
  {
    seq(|gs|, k requires 0 <= k < |gs| => Join(gs[k], Space))
  }

  function JoinedResult(r: Groups): Chunks {
    if r.Ok? then Ok(Joined(r.value)) else Err(r.error)
  }

  /** The groups one after the other. */
  function ConcatGroups(gs: seq<seq<string>>): seq<string> {
    if gs == [] then [] else gs[0] + ConcatGroups(gs[1..])
  }

  /** The words of every chunk, one chunk after the other. */
  function Resplit(chunks: seq<string>): seq<string> {
    if chunks == [] then [] else Words(chunks[0]) + Resplit(chunks[1..])
  }

  function Prepend(g: seq<string>, r: Groups): Groups {
    if r.Ok? then Ok([g] + r.value) else r
  }

  function PrependAll(gs: seq<seq<string>>, r: Groups): Groups {
    if r.Ok? then Ok(gs + r.value) else r
  }

  lemma PrependAllSnoc(gs: seq<seq<string>>, g: seq<string>, r: Groups)
    ensures PrependAll(gs, Prepend(g, r)) == PrependAll(gs + [g], r)
  {
    if r.Ok? {
      assert gs + ([g] + r.value) == gs + [g] + r.value;
    }
  }

  lemma JoinedSnoc(gs: seq<seq<string>>, g: seq<string>)
    ensures Joined(gs + [g]) == Joined(gs) + [Join(g, Space)]
  {
  }

  /** Proper words: non-empty and free of whitespace. */
  predicate ProperWords(ws: seq<string>) {
    forall i :: 0 <= i < |ws| ==> ws[i] != [] && NoWhitespace(ws[i])
  }

  lemma {:induction false} ConcatGroupsAppend(a: seq<seq<string>>, b: seq<seq<string>>)
    ensures ConcatGroups(a + b) == ConcatGroups(a) + ConcatGroups(b)
    decreases |a|
  {
    if a == [] {
      assert a + b == b;
    } else {
      assert (a + b)[1..] == a[1..] + b;
      ConcatGroupsAppend(a[1..], b);
      assert ConcatGroups(a + b) == a[0] + ConcatGroups(a[1..] + b);
      assert a[0] + (ConcatGroups(a[1..]) + ConcatGroups(b)) == (a[0] + ConcatGroups(a[1..])) + ConcatGroups(b);
    }
  }

  /**
   * Re-splitting the joined chunks gives back the words of all groups, in
   * order, when every group is a non-empty list of proper words.
   */
  lemma {:induction false} ResplitJoined(gs: seq<seq<string>>)
    requires forall k :: 0 <= k < |gs| ==> gs[k] != [] && ProperWords(gs[k])
    ensures Resplit(Joined(gs)) == ConcatGroups(gs)
    decreases |gs|
  {
    if gs != [] {
      WordsOfJoin(gs[0]);
      assert Joined(gs)[1..] == Joined(gs[1..]);
      ResplitJoined(gs[1..]);
    }
  }

  // ---------------------------------------------------------------------------
  // Fixed: `words.chunks(max_chunk_size)`
  // ---------------------------------------------------------------------------

  function FixedGroups(words: seq<string>, size: nat): seq<seq<string>>
    requires size > 0
    decreases |words|
  {
    if words == [] then []
    else
      var m := Min(size, |words|);
      [words[..m]] + FixedGroups(words[m..], size)
  }

  /**
   * The fixed groups are non-empty, hold at most `size` words, and together
   * are the word list in order; there are none exactly when there are no
   * words.
   */
  lemma {:induction false} FixedGroupsShape(words: seq<string>, size: nat)
    requires size > 0
    ensures var gs := FixedGroups(words, size);
      (forall k :: 0 <= k < |gs| ==> 1 <= |gs[k]| <= size)
      && ConcatGroups(gs) == words
      && (gs == [] <==> words == [])
    decreases |words|
  {
    if words != [] {
      var m := Min(size, |words|);
      FixedGroupsShape(words[m..], size);
      assert words[..m] + words[m..] == words;
    }
  }

  /** Every group of proper words is made of proper words. */
  lemma GroupsOfProper(words: seq<string>, gs: seq<seq<string>>)
    requires ProperWords(words) && ConcatGroups(gs) == words
    ensures forall k :: 0 <= k < |gs| ==> ProperWords(gs[k])
  {
    forall k | 0 <= k < |gs| ensures ProperWords(gs[k]) {
      var o := GroupInConcat(gs, k);
      assert forall i :: 0 <= i < |gs[k]| ==> gs[k][i] == words[o + i];
    }
  }

  /** Group `k` occupies a slice of the concatenation, from offset `o`. */
  lemma {:induction false} GroupInConcat(gs: seq<seq<string>>, k: nat) returns (o: nat)
    requires k < |gs|
    ensures o + |gs[k]| <= |ConcatGroups(gs)| && ConcatGroups(gs)[o..o + |gs[k]|] == gs[k]
    decreases |gs|
  {
    var all := ConcatGroups(gs);
    assert all == gs[0] + ConcatGroups(gs[1..]);
    if k == 0 {
      o := 0;
      assert all[0..|gs[0]|] == gs[0];
    } else {
      var o' := GroupInConcat(gs[1..], k - 1);
      o := |gs[0]| + o';
      assert gs[1..][k - 1] == gs[k];
      assert all[o..o + |gs[k]|] == ConcatGroups(gs[1..])[o'..o' + |gs[k]|];
    }
  }

  /**
   * Fixed chunking: no chunk holds more than `size` words, and re-splitting
   * the chunks in order gives back the text's word list.
   */
  lemma FixedResplit(text: string, size: nat)
    requires size > 0
    ensures var gs := FixedGroups(Words(text), size);
      (forall k :: 0 <= k < |gs| ==> |Words(Joined(gs)[k])| <= size)
      && Resplit(Joined(gs)) == Words(text)
  {
    var words := Words(text);
    var gs := FixedGroups(words, size);
    WordsAreWords(text);
    FixedGroupsShape(words, size);
    GroupsOfProper(words, gs);
    ResplitJoined(gs);
    forall k | 0 <= k < |gs| ensures |Words(Joined(gs)[k])| <= size {
      WordsOfJoin(gs[k]);
    }
  }

  /** A text with a non-whitespace character yields at least one fixed chunk. */
  lemma FixedNonEmpty(text: string, size: nat, c: char)
    requires size > 0 && c in text && !IsWhitespace(c)
    ensures FixedGroups(Words(text), size) != []
  {
    var k := CharInSomeWord(text, c);
    FixedGroupsShape(Words(text), size);
  }

  // ---------------------------------------------------------------------------
  // Semantic: sentences packed up to `max_chunk_size` bytes
  // ---------------------------------------------------------------------------

  /** The chunks with the chunk being built added, trimmed, unless it is empty. */
  function Flush(acc: seq<string>, current: string): seq<string> {
    if current != [] then acc + [Trim(current)] else acc
  }

  /** Whether `sentence` does not fit after a non-empty `current`. */
  predicate Overflows(current: string, sentence: string, maxSize: nat) {
    Utf8Len(current) + Utf8Len(sentence) > maxSize && current != []
  }

  /**
   * The packing loop from sentence list `ps` on, with the chunks `acc`
   * emitted so far and the chunk `current` being built.
   */
  function SemanticFrom(ps: seq<string>, current: string, maxSize: nat, acc: seq<string>): seq<string>
    decreases |ps|
  {
    if ps == [] then Flush(acc, current)
    else if Overflows(current, ps[0], maxSize) then
      SemanticFrom(ps[1..], ps[0] + ['.'], maxSize, Flush(acc, current))
    else SemanticFrom(ps[1..], current + ps[0] + ['.'], maxSize, acc)
  }

  function SemanticChunks(text: string, maxSize: nat): seq<string> {
    SemanticFrom(Split(text, {'.'}), [], maxSize, [])
  }

  method SemanticChunking(text: string, maxSize: nat) returns (chunks: seq<string>)
    ensures chunks == SemanticChunks(text, maxSize)
  {
    var sentences := Split(text, {'.'});
    chunks := [];
    var current: string := [];
    for i := 0 to |sentences|
      invariant SemanticFrom(sentences[i..], current, maxSize, chunks) == SemanticChunks(text, maxSize)
    {
      var sentence := sentences[i];
      assert sentences[i..][1..] == sentences[i + 1..];
      ghost var overflows := Overflows(current, sentence, maxSize);
      if Utf8Len(current) + Utf8Len(sentence) > maxSize {
        if current != [] {
          chunks := chunks + [Trim(current)];
          current := [];
        }
      }
      assert overflows ==> [] + sentence + ['.'] == sentence + ['.'];
      current := current + sentence + ['.'];
    }
    if current != [] {
      chunks := chunks + [Trim(current)];
    }
  }

  predicate EndsWith(s: string, c: char) {
    s != [] && s[|s| - 1] == c
  }

  /** Trimming a text that ends with a non-whitespace character keeps that character last. */
  lemma TrimKeepsLast(s: string, c: char)
    requires EndsWith(s, c) && !IsWhitespace(c)
    ensures EndsWith(Trim(s), c)
  {
    var t := TrimStart(s);
    assert t != [] && t[|t| - 1] == c;
  }

  predicate AllEndWith(ss: seq<string>, c: char) {
    forall k :: 0 <= k < |ss| ==> EndsWith(ss[k], c)
  }

  lemma FlushPeriods(acc: seq<string>, current: string)
    requires AllEndWith(acc, '.') && (current == [] || EndsWith(current, '.'))
    ensures AllEndWith(Flush(acc, current), '.')
  {
    if current != [] {
      TrimKeepsLast(current, '.');
      var pushed := acc + [Trim(current)];
      forall k | 0 <= k < |pushed| ensures EndsWith(pushed[k], '.') {
        if k < |acc| {
          assert pushed[k] == acc[k];
        }
      }
    }
  }

  lemma {:induction false} SemanticPeriods(ps: seq<string>, current: string, maxSize: nat, acc: seq<string>)
    requires AllEndWith(acc, '.')
    requires current == [] || EndsWith(current, '.')
    ensures AllEndWith(SemanticFrom(ps, current, maxSize, acc), '.')
    decreases |ps|
  {
    FlushPeriods(acc, current);
    if ps != [] {
      var next := ps[0] + ['.'];
      var grown := current + ps[0] + ['.'];
      assert next[|next| - 1] == '.' && grown[|grown| - 1] == '.';
      if Overflows(current, ps[0], maxSize) {
        SemanticPeriods(ps[1..], next, maxSize, Flush(acc, current));
      } else {
        SemanticPeriods(ps[1..], grown, maxSize, acc);
      }
    }
  }

  /** Every semantic chunk ends with '.'. */
  lemma SemanticEndsWithPeriod(text: string, maxSize: nat)
    ensures AllEndWith(SemanticChunks(text, maxSize), '.')
  {
    var ps := Split(text, {'.'});
    SemanticPeriods(ps, [], maxSize, []);
    assert SemanticChunks(text, maxSize) == SemanticFrom(ps, [], maxSize, []);
  }

  /** Each piece followed by `c`, all concatenated. */
  function Terminated(ps: seq<string>, c: char): string {
    if ps == [] then [] else ps[0] + [c] + Terminated(ps[1..], c)
  }

  /** Splitting on `c` and putting `c` back after every piece gives the text plus one `c`. */
  lemma {:induction false} SplitTerminated(s: string, c: char)
    ensures Terminated(Split(s, {c}), c) == s + [c]
    decreases |s|
  {
    if s == [] {
      assert Terminated([""], c) == [] + [c] + [];
    } else {
      var rest := Split(s[1..], {c});
      SplitTerminated(s[1..], c);
      assert s == [s[0]] + s[1..];
      if s[0] == c {
        assert Split(s, {c}) == [""] + rest;
        assert Terminated([""] + rest, c) == [] + [c] + Terminated(rest, c);
      } else {
        var head := [s[0]] + rest[0];
        var more := Terminated(rest[1..], c);
        assert Split(s, {c}) == [head] + rest[1..];
        assert ([head] + rest[1..])[1..] == rest[1..];
        assert Terminated([head] + rest[1..], c) == head + [c] + more;
        assert Terminated(rest, c) == rest[0] + [c] + more;
        assert head + [c] + more == [s[0]] + (rest[0] + [c] + more);
      }
    }
  }

  /** Replacing a middle part by one with the same non-whitespace text keeps the whole's. */
  lemma SameTextMiddle(a: string, t: string, u: string, rest: string)
    requires RemoveWhitespace(t) == RemoveWhitespace(u)
    ensures RemoveWhitespace(a + t + rest) == RemoveWhitespace(a + u + rest)
  {
    RemoveWhitespaceAppend(a + t, rest);
    RemoveWhitespaceAppend(a, t);
    RemoveWhitespaceAppend(a + u, rest);
    RemoveWhitespaceAppend(a, u);
  }

  lemma PushKeepsText(acc: seq<string>, t: string, current: string, rest: string)
    requires RemoveWhitespace(t) == RemoveWhitespace(current)
    ensures RemoveWhitespace(Flatten(acc + [t]) + rest) == RemoveWhitespace(Flatten(acc) + current + rest)
  {
    FlattenAppend(acc, [t]);
    assert Flatten([t]) == t + Flatten([]);
    assert t + [] == t;
    SameTextMiddle(Flatten(acc), t, current, rest);
  }

  lemma FlushKeepsText(acc: seq<string>, current: string, rest: string)
    ensures RemoveWhitespace(Flatten(Flush(acc, current)) + rest) == RemoveWhitespace(Flatten(acc) + current + rest)
  {
    if current != [] {
      RemoveWhitespaceTrim(current);
      PushKeepsText(acc, Trim(current), current, rest);
    } else {
      assert Flatten(acc) + current + rest == Flatten(acc) + rest;
    }
  }

  /** The text the packing loop from `ps` on still holds, whitespace aside. */
  predicate KeepsText(ps: seq<string>, current: string, maxSize: nat, acc: seq<string>) {
    RemoveWhitespace(Flatten(SemanticFrom(ps, current, maxSize, acc)))
    == RemoveWhitespace(Flatten(acc) + current + Terminated(ps, '.'))
  }

  lemma KeepsTextOverflow(ps: seq<string>, current: string, maxSize: nat, acc: seq<string>)
    requires ps != [] && Overflows(current, ps[0], maxSize)
    requires KeepsText(ps[1..], ps[0] + ['.'], maxSize, Flush(acc, current))
    ensures KeepsText(ps, current, maxSize, acc)
  {
    var tail := Terminated(ps[1..], '.');
    var piece := ps[0] + ['.'];
    assert Terminated(ps, '.') == piece + tail;
    FlushKeepsText(acc, current, piece + tail);
    AppendAssoc(Flatten(Flush(acc, current)), piece, tail);
  }

  lemma Assoc4(a: string, b: string, c: string, d: string)
    ensures a + (b + c) + d == a + b + (c + d)
  {
  }

  lemma KeepsTextGrow(ps: seq<string>, current: string, maxSize: nat, acc: seq<string>)
    requires ps != [] && !Overflows(current, ps[0], maxSize)
    requires KeepsText(ps[1..], current + ps[0] + ['.'], maxSize, acc)
    ensures KeepsText(ps, current, maxSize, acc)
  {
    var tail := Terminated(ps[1..], '.');
    var piece := ps[0] + ['.'];
    AppendAssoc(current, ps[0], ['.']);
    assert SemanticFrom(ps, current, maxSize, acc) == SemanticFrom(ps[1..], current + piece, maxSize, acc);
    assert Terminated(ps, '.') == piece + tail;
    Assoc4(Flatten(acc), current, piece, tail);
  }

  lemma {:induction false} SemanticKeepsText(ps: seq<string>, current: string, maxSize: nat, acc: seq<string>)
    ensures KeepsText(ps, current, maxSize, acc)
    decreases |ps|
  {
    if ps == [] {
      FlushKeepsText(acc, current, []);
      assert Terminated(ps, '.') == [];
      assert Flatten(Flush(acc, current)) + [] == Flatten(Flush(acc, current));
    } else if Overflows(current, ps[0], maxSize) {
      SemanticKeepsText(ps[1..], ps[0] + ['.'], maxSize, Flush(acc, current));
      KeepsTextOverflow(ps, current, maxSize, acc);
    } else {
      SemanticKeepsText(ps[1..], current + ps[0] + ['.'], maxSize, acc);
      KeepsTextGrow(ps, current, maxSize, acc);
    }
  }

  /**
   * Apart from whitespace, the semantic chunks hold exactly the text with
   * one '.' added at its end (each piece gets its '.' back, and trimming
   * only drops whitespace).
   */
  lemma SemanticKeepsAll(text: string, maxSize: nat)
    ensures RemoveWhitespace(Flatten(SemanticChunks(text, maxSize))) == RemoveWhitespace(text + ['.'])
  {
    SemanticKeepsText(Split(text, {'.'}), [], maxSize, []);
    assert KeepsText(Split(text, {'.'}), [], maxSize, []);
    SplitTerminated(text, '.');
    assert Flatten([]) + [] + Terminated(Split(text, {'.'}), '.') == text + ['.'];
  }

  // ---------------------------------------------------------------------------
  // Adaptive: groups of min_chunk_size words, 50 more near a sentence end
  // ---------------------------------------------------------------------------

  predicate AnyEndsWithPeriod(ws: seq<string>) {
    exists k :: 0 <= k < |ws| && EndsWith(ws[k], '.')
  }

  /** The size of the group starting at word `i`. */
  function AdaptiveSize(words: seq<string>, i: nat, minSize: nat, maxSize: nat): (size: nat)
    requires i < |words|
    ensures size <= maxSize && size <= minSize + 50 && i + size <= |words|
  {
    var n := |words|;
    var grown :=
      if i + minSize < n && AnyEndsWithPeriod(words[i..i + minSize + Min(50, n - i - minSize)])
      then minSize + 50 else minSize;
    Min(Min(grown, maxSize), n - i)
  }

  function AdaptiveGroups(words: seq<string>, i: nat, minSize: nat, maxSize: nat): Groups
    decreases |words| - i
  {
    if i >= |words| then Ok([])
    else
      var size := AdaptiveSize(words, i, minSize, maxSize);
      if size == 0 then Err(NoProgress)
      else Prepend(words[i..i + size], AdaptiveGroups(words, i + size, minSize, maxSize))
  }

  /** One group, or the failure to make progress, and then the groups after it. */
  lemma AdaptiveUnfold(words: seq<string>, i: nat, minSize: nat, maxSize: nat)
    requires i < |words|
    ensures var size := AdaptiveSize(words, i, minSize, maxSize);
      AdaptiveGroups(words, i, minSize, maxSize)
      == if size == 0 then Err(NoProgress) else Prepend(words[i..i + size], AdaptiveGroups(words, i + size, minSize, maxSize))
  {
  }

  /** The body of the adaptive loop that picks the size of the next group. */
  method GroupSize(words: seq<string>, i: nat, minSize: nat, maxSize: nat) returns (chunkSize: nat)
    requires i < |words|
    ensures chunkSize == AdaptiveSize(words, i, minSize, maxSize)
  {
    chunkSize := minSize;
    if i + chunkSize < |words| {
      var nextWords := words[i..i + chunkSize + Min(50, |words| - i - chunkSize)];
      if AnyEndsWithPeriod(nextWords) {
        chunkSize := chunkSize + 50;
      }
    }
    chunkSize := Min(Min(chunkSize, maxSize), |words| - i);
  }

  method AdaptiveChunking(words: seq<string>, minSize: nat, maxSize: nat) returns (r: Chunks)
    ensures r == JoinedResult(AdaptiveGroups(words, 0, minSize, maxSize))
  {
    var chunks: seq<string> := [];
    ghost var groups: seq<seq<string>> := [];
    var i: nat := 0;
    assert AdaptiveGroups(words, 0, minSize, maxSize).Ok? ==>
      [] + AdaptiveGroups(words, 0, minSize, maxSize).value == AdaptiveGroups(words, 0, minSize, maxSize).value;
    while i < |words|
      invariant i <= |words|
      invariant chunks == Joined(groups)
      invariant PrependAll(groups, AdaptiveGroups(words, i, minSize, maxSize)) == AdaptiveGroups(words, 0, minSize, maxSize)
      decreases |words| - i
    {
      var chunkSize := GroupSize(words, i, minSize, maxSize);
      AdaptiveUnfold(words, i, minSize, maxSize);
      if chunkSize == 0 {
        return Err(NoProgress);
      }
      var group := words[i..i + chunkSize];
      PrependAllSnoc(groups, group, AdaptiveGroups(words, i + chunkSize, minSize, maxSize));
      JoinedSnoc(groups, group);
      chunks := chunks + [Join(group, Space)];
      groups := groups + [group];
      i := i + chunkSize;
    }
    assert groups + [] == groups;
    r := Ok(chunks);
  }

  /**
   * Adaptive groups hold between 1 and `max_chunk_size` words and at most
   * `min_chunk_size + 50`, and together are the words from `i` on.
   */
  lemma {:induction false} AdaptiveShape(words: seq<string>, i: nat, minSize: nat, maxSize: nat)
    requires i <= |words| && AdaptiveGroups(words, i, minSize, maxSize).Ok?
    ensures var gs := AdaptiveGroups(words, i, minSize, maxSize).value;
      (forall k :: 0 <= k < |gs| ==> 1 <= |gs[k]| <= maxSize && |gs[k]| <= minSize + 50)
      && ConcatGroups(gs) == words[i..]
    decreases |words| - i
  {
    if i < |words| {
      var size := AdaptiveSize(words, i, minSize, maxSize);
      AdaptiveShape(words, i + size, minSize, maxSize);
      assert words[i..i + size] + words[i + size..] == words[i..];
    }
  }

  /**
   * Adaptive chunking ends exactly when it never meets an empty group: with
   * both sizes at least 1 it always ends; with a maximum of 0 and any word
   * it never does.
   */
  lemma {:induction false} AdaptiveTerminates(words: seq<string>, i: nat, minSize: nat, maxSize: nat)
    requires i <= |words|
    ensures minSize >= 1 && maxSize >= 1 ==> AdaptiveGroups(words, i, minSize, maxSize).Ok?
    ensures maxSize == 0 && i < |words| ==> AdaptiveGroups(words, i, minSize, maxSize) == Err(NoProgress)
    decreases |words| - i
  {
    if i < |words| && minSize >= 1 && maxSize >= 1 {
      AdaptiveTerminates(words, i + AdaptiveSize(words, i, minSize, maxSize), minSize, maxSize);
    }
  }

  // ---------------------------------------------------------------------------
  // Sliding: windows of max_chunk_size words every step words
  // ---------------------------------------------------------------------------

  /** `(window as f64 * (1.0 - overlap_ratio)) as usize`: floor, saturating at 0. */
  function SlidingStep(window: nat, ratio: real): nat {
    var x := (window as real) * (1.0 - ratio);
    if x <= 0.0 then 0 else x.Floor
  }

  function SlidingGroups(words: seq<string>, window: nat, step: nat, i: nat): Groups
    decreases |words| - i
  {
    if i >= |words| then Ok([])
    else if step == 0 then Err(NoProgress)
    else Prepend(words[i..Min(i + window, |words|)], SlidingGroups(words, window, step, i + step))
  }

  method SlidingChunking(words: seq<string>, window: nat, ratio: real) returns (r: Chunks)
    ensures r == JoinedResult(SlidingGroups(words, window, SlidingStep(window, ratio), 0))
  {
    var step := SlidingStep(window, ratio);
    ghost var groups: seq<seq<string>> := [];
    var chunks: seq<string> := [];
    var i: nat := 0;
    assert SlidingGroups(words, window, step, 0).Ok? ==>
      [] + SlidingGroups(words, window, step, 0).value == SlidingGroups(words, window, step, 0).value;
    while i < |words|
      invariant chunks == Joined(groups)
      invariant PrependAll(groups, SlidingGroups(words, window, step, i)) == SlidingGroups(words, window, step, 0)
      decreases if step == 0 then 0 else |words| - i
    {
      if step == 0 {
        return Err(NoProgress);
      }
      var end := Min(i + window, |words|);
      var group := words[i..end];
      PrependAllSnoc(groups, group, SlidingGroups(words, window, step, i + step));
      JoinedSnoc(groups, group);
      chunks := chunks + [Join(group, Space)];
      groups := groups + [group];
      i := i + step;
      if i >= |words| {
        break;
      }
    }
    assert groups + [] == groups;
    r := Ok(chunks);
  }

  lemma MulStep(k: nat, step: nat)
    ensures (k + 1) * step == k * step + step
  {
  }

  /** Window `k` from position `i` starts at `i + k * step` and ends at most `window` words later. */
  lemma {:induction false} SlidingAt(words: seq<string>, window: nat, step: nat, i: nat, k: nat)
    requires step > 0
    requires SlidingGroups(words, window, step, i).Ok? && k < |SlidingGroups(words, window, step, i).value|
    ensures i + k * step < |words|
    ensures SlidingGroups(words, window, step, i).value[k] == words[i + k * step..Min(i + k * step + window, |words|)]
    decreases |words| - i
  {
    if k > 0 {
      SlidingAt(words, window, step, i + step, k - 1);
      MulStep(k - 1, step);
    }
  }

  /** There are as many windows from `i` as steps of `step` that start before the end. */
  lemma {:induction false} SlidingCount(words: seq<string>, window: nat, step: nat, i: nat)
    requires step > 0 && i <= |words| && SlidingGroups(words, window, step, i).Ok?
    ensures var m := |SlidingGroups(words, window, step, i).value|;
      i + m * step >= |words| && (m > 0 ==> i + (m - 1) * step < |words|)
    decreases |words| - i
  {
    if i < |words| {
      var m := |SlidingGroups(words, window, step, i).value|;
      if i + step < |words| {
        SlidingCount(words, window, step, i + step);
      }
      MulStep(m - 1, step);
    }
  }

  /**
   * Sliding chunking with a positive step: window `k` covers words
   * `[k * step, min(k * step + window, n))`, every window starts inside the
   * text, and none is missing at the end.
   */
  lemma SlidingShape(words: seq<string>, window: nat, step: nat)
    requires step > 0
    ensures SlidingGroups(words, window, step, 0).Ok?
    ensures var gs := SlidingGroups(words, window, step, 0).value;
      |gs| * step >= |words| && (gs != [] ==> (|gs| - 1) * step < |words|)
      && forall k :: 0 <= k < |gs| ==> k * step < |words| && gs[k] == words[k * step..Min(k * step + window, |words|)]
  {
    SlidingTerminates(words, window, step, 0);
    SlidingCount(words, window, step, 0);
    var gs := SlidingGroups(words, window, step, 0).value;
    forall k | 0 <= k < |gs| ensures k * step < |words| && gs[k] == words[k * step..Min(k * step + window, |words|)] {
      SlidingAt(words, window, step, 0, k);
    }
  }

  /** Sliding chunking ends exactly when the step is positive or there are no words. */
  lemma {:induction false} SlidingTerminates(words: seq<string>, window: nat, step: nat, i: nat)
    ensures SlidingGroups(words, window, step, i).Ok? <==> step > 0 || i >= |words|
    decreases |words| - i
  {
    if i < |words| && step > 0 {
      SlidingTerminates(words, window, step, i + step);
    }
  }

  // ---------------------------------------------------------------------------
  // simulate_chunking
  // ---------------------------------------------------------------------------

  function Simulated(text: string, strategy: Strategy, config: BenchConfig): Chunks {
    var words := Words(text);
    match strategy
    case Fixed =>
      if config.maxChunkSize == 0 then Err(ZeroChunkSize) else Ok(Joined(FixedGroups(words, config.maxChunkSize)))
    case Semantic => Ok(SemanticChunks(text, config.maxChunkSize))
    case Adaptive => JoinedResult(AdaptiveGroups(words, 0, config.minChunkSize, config.maxChunkSize))
    case Sliding =>
      JoinedResult(SlidingGroups(words, config.maxChunkSize, SlidingStep(config.maxChunkSize, config.overlapRatio), 0))
  }

  /** `simulate_chunking`. */
  method SimulateChunking(text: string, strategy: Strategy, config: BenchConfig) returns (r: Chunks)
    ensures r == Simulated(text, strategy, config)
  {
    var words := Words(text);
    match strategy {
      case Fixed =>
        if config.maxChunkSize == 0 {
          r := Err(ZeroChunkSize);
        } else {
          r := Ok(Joined(FixedGroups(words, config.maxChunkSize)));
        }
      case Semantic =>
        var chunks := SemanticChunking(text, config.maxChunkSize);
        r := Ok(chunks);
      case Adaptive =>
        r := AdaptiveChunking(words, config.minChunkSize, config.maxChunkSize);
      case Sliding =>
        r := SlidingChunking(words, config.maxChunkSize, config.overlapRatio);
    }
  }

  /**
   * Under the default configurations every strategy ends on every text, and
   * a text with a non-whitespace character gives at least one fixed chunk.
   */
  lemma DefaultsSucceed(text: string, strategy: Strategy)
    ensures strategy in DefaultConfigs()
    ensures Simulated(text, strategy, DefaultConfigs()[strategy]).Ok?
    ensures strategy == Fixed && (exists i :: 0 <= i < |text| && !IsWhitespace(text[i])) ==>
      Simulated(text, strategy, DefaultConfigs()[strategy]).value != []
  {
    var config := DefaultConfigs()[strategy];
    match strategy
    case Fixed =>
      if i :| 0 <= i < |text| && !IsWhitespace(text[i]) {
        FixedNonEmpty(text, 512, text[i]);
      }
    case Semantic =>
    case Adaptive =>
      AdaptiveTerminates(Words(text), 0, 256, 768);
    case Sliding =>
      assert (400 as real) * (1.0 - 0.25) == 300.0;
      SlidingTerminates(Words(text), 400, 300, 0);
  }
}
