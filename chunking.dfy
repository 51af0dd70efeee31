/**
 * `src/chunking.rs`: splitting a token sequence into chunks (fixed size or
 * overlapping windows), the cache in front of the chunkers, padding chunks
 * into a tensor, chunk statistics, coverage-gap analysis and the small text
 * metrics attached to every chunk.
 *
 * The tokenizer is not part of this model: a text arrives already encoded as
 * a sequence of token ids, and decoding a chunk's ids back to text is a
 * function parameter. Floating-point values (`f32`) are exact reals here.
 */
module Chunking {
  import opened Seqs
  import opened Wrappers
  import opened Text

  // ---------------------------------------------------------------------------
  // Data model
  // ---------------------------------------------------------------------------

  datatype Strategy = Fixed | Semantic | Adaptive | Overlapping

  datatype Config = Config(
    maxChunkSize: nat,
    minChunkSize: nat,
    overlapRatio: real,
    strategy: Strategy,
    preserveSentences: bool,
    preserveParagraphs: bool)

  /** `ChunkingConfig::default()`. */
  function DefaultConfig(): Config {
    Config(512, 64, 0.1, Semantic, true, true)
  }

  datatype Metadata = Metadata(
    sentenceCount: nat,
    paragraphCount: nat,
    informationDensity: real,
    endsAtBoundary: bool)

  /** `TextChunk`: its `u32` tokens, decoded text, token span and position in the sequence. */
  datatype Chunk = Chunk(
    tokens: seq<nat>,
    text: string,
    startPosition: nat,
    endPosition: nat,
    chunkIndex: nat,
    metadata: Metadata)

  /** What makes a chunker panic or never return. */
  datatype ChunkError =
    | ZeroChunkSize       // `tokens.chunks(0)` panics
    | StepUnderflow       // `chunk_size - overlap_size` below zero
    | RemainderUnderflow  // `tokens.len() - start_idx` below zero
    | NoProgress          // a step of 0 repeats the same window forever

  type ChunkResult = Result<seq<Chunk>, ChunkError>

  type Decoder = seq<nat> -> string

  // ---------------------------------------------------------------------------
  // Text metrics
  // ---------------------------------------------------------------------------

  const Terminators: set<char> := {'.', '!', '?'}

  /** The trimmed pieces that are not empty, in order. */
  function TrimmedNonEmpty(ps: seq<string>): (r: seq<string>)
    ensures |r| <= |ps|
  {
    if ps == [] then []
    else
      var t := Trim(ps[0]);
      (if t == [] then [] else [t]) + TrimmedNonEmpty(ps[1..])
  }

  /** `split_into_sentences`: split at `.`, `!` and `?`, trim, drop the empty pieces. */
  function SplitIntoSentences(text: string): seq<string> {
    TrimmedNonEmpty(Split(text, Terminators))
  }

  /** `count_sentences`: the number of `.`, `!` and `?` characters. */
  function CountSentences(text: string): nat {
    CountChars(text, Terminators)
  }

  /** The number of pieces that are not whitespace-only (`!p.trim().is_empty()`, see `TrimEmpty`). */
  function CountNonBlank(ps: seq<string>): nat {
    if ps == [] then 0 else (if Blank(ps[0]) then 0 else 1) + CountNonBlank(ps[1..])
  }

  /** `count_paragraphs`: pieces between blank lines that hold something. */
  function CountParagraphs(text: string): nat {
    CountNonBlank(SplitParagraphs(text))
  }

  /** The distinct values of a sequence (a `HashSet` built from it). */
  function Distinct(s: seq<nat>): set<nat> {
    set x | x in s
  }

  predicate NoDuplicates(s: seq<nat>) {
    forall i, j :: 0 <= i < j < |s| ==> s[i] != s[j]
  }

  /** `calculate_information_density`: distinct tokens over tokens, 0 for none. */
  function InformationDensity(ids: seq<nat>): (r: real)
    ensures ids == [] ==> r == 0.0
    ensures ids != [] ==> 0.0 < r <= 1.0
  {
    if ids == [] then 0.0
    else
      DistinctCard(ids);
      (|Distinct(ids)| as real) / (|ids| as real)
  }

  /** A sequence has at most as many distinct values as entries, and exactly as many iff none repeats. */
  lemma {:induction false} DistinctCard(s: seq<nat>)
    ensures |Distinct(s)| <= |s|
    ensures s != [] ==> |Distinct(s)| >= 1
    ensures |Distinct(s)| == |s| <==> NoDuplicates(s)
    decreases |s|
  {
    if s != [] {
      var t := s[1..];
      DistinctCard(t);
      assert Distinct(s) == {s[0]} + Distinct(t) by {
        assert forall x :: x in s <==> x == s[0] || x in t;
      }
      assert s[0] in Distinct(s);
      if s[0] in t {
        var j :| 0 <= j < |t| && t[j] == s[0];
        assert s[0] == s[j + 1];
        assert Distinct(s) == Distinct(t);
      } else {
        assert NoDuplicates(s) <==> NoDuplicates(t) by {
          assert forall i :: 0 <= i < |t| ==> s[i + 1] == t[i];
        }
      }
    }
  }

  /** The density is 1 exactly when no token repeats. */
  lemma DensityOne(ids: seq<nat>)
    requires ids != []
    ensures InformationDensity(ids) == 1.0 <==> NoDuplicates(ids)
  {
    DistinctCard(ids);
  }

  /** The example `[1, 2, 3, 2, 1]`: three distinct tokens out of five. */
  lemma DensityExample()
    ensures InformationDensity([1, 2, 3, 2, 1]) == 0.6
  {
    var s := [1, 2, 3, 2, 1];
    assert Distinct(s) == {1, 2, 3} by {
      assert forall x :: x in s <==> x == 1 || x == 2 || x == 3;
    }
  }

  /** No character of `s` is one of `cs`. */
  predicate NoneOf(s: string, cs: set<char>) {
    forall j :: 0 <= j < |s| ==> s[j] !in cs
  }

  /** Three terminator-free pieces, each closed by a terminator, are three sentences. */
  lemma ThreeSentences(a: string, b: string, c: string, x: char, y: char, z: char)
    requires x in Terminators && y in Terminators && z in Terminators
    requires NoneOf(a, Terminators) && NoneOf(b, Terminators) && NoneOf(c, Terminators)
    ensures CountSentences(a + [x] + b + [y] + c + [z]) == 3
  {
    var text := a + [x] + b + [y] + c + [z];
    assert text == a + [x] + (b + [y] + (c + [z] + []));
    SplitSep(c, z, [], Terminators);
    SplitSep(b, y, c + [z] + [], Terminators);
    SplitSep(a, x, b + [y] + (c + [z] + []), Terminators);
    SplitCount(text, Terminators);
  }

  // The test's three sentences hold no terminator of their own.

  lemma FirstSentenceFree()
    ensures NoneOf("Esta é a primeira sentença", Terminators)
  {
  }

  lemma SecondSentenceFree()
    ensures NoneOf(" Esta é a segunda", Terminators)
  {
  }

  lemma ThirdSentenceFree()
    ensures NoneOf(" E esta é a terceira", Terminators)
  {
  }

  /** The sentence-counting test: three sentences, closed by '.', '!' and '?'. */
  lemma CountSentencesExample()
    ensures CountSentences("Esta é a primeira sentença. Esta é a segunda! E esta é a terceira?") == 3
  {
    var a, b, c := "Esta é a primeira sentença", " Esta é a segunda", " E esta é a terceira";
    FirstSentenceFree();
    SecondSentenceFree();
    ThirdSentenceFree();
    ThreeSentences(a, b, c, '.', '!', '?');
    SentenceTestText();
  }

  /** The test's text is its three sentences with their terminators. */
  lemma SentenceTestText()
    ensures "Esta é a primeira sentença" + ['.'] + " Esta é a segunda" + ['!'] + " E esta é a terceira" + ['?']
      == "Esta é a primeira sentença. Esta é a segunda! E esta é a terceira?"
  {
  }

  /** Non-empty, without surrounding whitespace, without a character of `seps`. */
  predicate Trimmed(p: string, seps: set<char>) {
    p != [] && !IsWhitespace(p[0]) && !IsWhitespace(p[|p| - 1])
    && forall j :: 0 <= j < |p| ==> p[j] !in seps
  }

  /** Sentences are non-empty, trimmed and free of terminators. */
  lemma SentencesShape(text: string)
    ensures forall k :: 0 <= k < |SplitIntoSentences(text)| ==> Trimmed(SplitIntoSentences(text)[k], Terminators)
  {
    TrimmedShape(Split(text, Terminators), Terminators);
  }

  lemma TrimShape(p: string, seps: set<char>)
    requires forall j :: 0 <= j < |p| ==> p[j] !in seps
    requires Trim(p) != []
    ensures Trimmed(Trim(p), seps)
  {
    TrimChars(p);
    var u := TrimStart(p);
    assert Trim(p)[0] == u[0];
  }

  lemma {:induction false} TrimmedShape(ps: seq<string>, seps: set<char>)
    requires forall k, j :: 0 <= k < |ps| && 0 <= j < |ps[k]| ==> ps[k][j] !in seps
    ensures forall k :: 0 <= k < |TrimmedNonEmpty(ps)| ==> Trimmed(TrimmedNonEmpty(ps)[k], seps)
    decreases |ps|
  {
    if ps != [] {
      TrimmedShape(ps[1..], seps);
      var t := Trim(ps[0]);
      var rest := TrimmedNonEmpty(ps[1..]);
      if t != [] {
        TrimShape(ps[0], seps);
        assert TrimmedNonEmpty(ps) == [t] + rest;
        assert forall k :: 1 <= k < |rest| + 1 ==> ([t] + rest)[k] == rest[k - 1];
      } else {
        assert TrimmedNonEmpty(ps) == rest;
      }
    }
  }

  /** Splitting into sentences keeps every character that is neither whitespace nor a terminator, in order. */
  lemma SentencesKeepText(text: string)
    ensures RemoveWhitespace(Flatten(SplitIntoSentences(text)))
         == RemoveWhitespace(RemoveChars(text, Terminators))
  {
    TrimmedKeepText(Split(text, Terminators));
    FlattenSplit(text, Terminators);
  }

  lemma {:induction false} TrimmedKeepText(ps: seq<string>)
    ensures RemoveWhitespace(Flatten(TrimmedNonEmpty(ps))) == RemoveWhitespace(Flatten(ps))
    decreases |ps|
  {
    if ps != [] {
      TrimmedKeepText(ps[1..]);
      var t := Trim(ps[0]);
      var head := if t == [] then [] else [t];
      FlattenAppend(head, TrimmedNonEmpty(ps[1..]));
      RemoveWhitespaceAppend(Flatten(head), Flatten(TrimmedNonEmpty(ps[1..])));
      RemoveWhitespaceAppend(ps[0], Flatten(ps[1..]));
      RemoveWhitespaceTrim(ps[0]);
      if t != [] {
        assert Flatten(head) == t;
      }
    }
  }

  /** There is at most one more sentence than there are terminators. */
  lemma SentenceCountBound(text: string)
    ensures |SplitIntoSentences(text)| <= CountSentences(text) + 1
  {
    SplitCount(text, Terminators);
  }

  /** A text has no paragraph exactly when it is whitespace-only. */
  lemma ParagraphsOfBlank(text: string)
    ensures CountParagraphs(text) == 0 <==> Blank(text)
  {
    var ps := SplitParagraphs(text);
    SplitParagraphsBlank(text);
    NonBlankCount(ps);
  }

  lemma {:induction false} NonBlankCount(ps: seq<string>)
    ensures CountNonBlank(ps) == 0 <==> AllBlank(ps)
    decreases |ps|
  {
    if ps != [] {
      NonBlankCount(ps[1..]);
      assert ps == [ps[0]] + ps[1..];
      AllBlankCons(ps[0], ps[1..]);
    }
  }

  /** Sentences each followed by its terminator: `"p0" + t0 + "p1" + t1 + ...`. */
  function Terminated(ps: seq<string>, ts: seq<char>): string
    requires |ps| == |ts|
  {
    if ps == [] then [] else ps[0] + [ts[0]] + Terminated(ps[1..], ts[1..])
  }

  predicate AllTrimmed(ps: seq<string>, seps: set<char>) {
    forall k :: 0 <= k < |ps| ==> Trimmed(ps[k], seps)
  }

  lemma {:induction false} SplitSep(p: string, t: char, rest: string, seps: set<char>)
    requires t in seps
    requires forall j :: 0 <= j < |p| ==> p[j] !in seps
    ensures Split(p + [t] + rest, seps) == [p] + Split(rest, seps)
    decreases |p|
  {
    if p == [] {
      assert p + [t] + rest == [t] + rest;
    } else {
      assert (p + [t] + rest)[1..] == p[1..] + [t] + rest;
      SplitSep(p[1..], t, rest, seps);
      assert [p[0]] + p[1..] == p;
    }
  }

  lemma {:induction false} SplitTerminated(ps: seq<string>, ts: seq<char>, seps: set<char>)
    requires |ps| == |ts|
    requires forall k :: 0 <= k < |ts| ==> ts[k] in seps
    requires AllTrimmed(ps, seps)
    ensures Split(Terminated(ps, ts), seps) == ps + [""]
    ensures CountChars(Terminated(ps, ts), seps) == |ps|
    decreases |ps|
  {
    if ps != [] {
      AllTrimmedTail(ps, seps);
      SplitTerminated(ps[1..], ts[1..], seps);
      SplitSep(ps[0], ts[0], Terminated(ps[1..], ts[1..]), seps);
      assert ps + [""] == [ps[0]] + (ps[1..] + [""]);
      SplitCount(Terminated(ps, ts), seps);
    }
  }

  lemma AllTrimmedTail(ps: seq<string>, seps: set<char>)
    requires ps != [] && AllTrimmed(ps, seps)
    ensures AllTrimmed(ps[1..], seps) && Trimmed(ps[0], seps)
  {
    assert forall k :: 0 <= k < |ps| - 1 ==> ps[1..][k] == ps[k + 1];
  }

  lemma TrimTrimmed(p: string, seps: set<char>)
    requires Trimmed(p, seps)
    ensures Trim(p) == p
  {
  }

  lemma {:induction false} TrimmedNonEmptyTrimmed(ps: seq<string>, seps: set<char>)
    requires AllTrimmed(ps, seps)
    ensures TrimmedNonEmpty(ps + [""]) == ps
    decreases |ps|
  {
    if ps == [] {
      assert Trim("") == "";
    } else {
      SnocTail(ps, "");
      AllTrimmedTail(ps, seps);
      TrimmedNonEmptyTrimmed(ps[1..], seps);
      TrimTrimmed(ps[0], seps);
      HeadTail(ps);
    }
  }

  /**
   * Trimmed sentences, each closed by `.`, `!` or `?`, are split back into
   * exactly those sentences, and counted once each.
   */
  lemma SentencesOfTerminated(ps: seq<string>, ts: seq<char>)
    requires |ps| == |ts|
    requires forall k :: 0 <= k < |ts| ==> ts[k] in Terminators
    requires AllTrimmed(ps, Terminators)
    ensures SplitIntoSentences(Terminated(ps, ts)) == ps
    ensures CountSentences(Terminated(ps, ts)) == |ps|
  {
    SplitTerminated(ps, ts, Terminators);
    TrimmedNonEmptyTrimmed(ps, Terminators);
  }

  // ---------------------------------------------------------------------------
  // Building a chunk
  // ---------------------------------------------------------------------------

  const U32Modulus: nat := 0x1_0000_0000

  /** `x as u32` on every id: the low 32 bits. */
  function U32s(s: seq<nat>): (r: seq<nat>)
    ensures |r| == |s|
  {
    seq(|s|, i requires 0 <= i < |s| => s[i] % U32Modulus)
  }

  lemma U32sAppend(a: seq<nat>, b: seq<nat>)
    ensures U32s(a + b) == U32s(a) + U32s(b)
  {
  }

  function Metrics(text: string, ids: seq<nat>, boundary: bool): Metadata {
    Metadata(CountSentences(text), CountParagraphs(text), InformationDensity(ids), boundary)
  }

  /**
   * The chunk holding `tokens[start..end]`: its ids as `u32`, its decoded text,
   * and the metadata computed from them.
   */
  function MakeChunk(tokens: seq<nat>, start: nat, end: nat, index: nat, boundary: bool, decode: Decoder): Chunk
    requires start <= end <= |tokens|
  {
    var ids := U32s(tokens[start..end]);
    var text := decode(tokens[start..end]);
    Chunk(ids, text, start, end, index, Metrics(text, ids, boundary))
  }

  /** A token span `[start, end)`. */
  datatype Span = Span(start: nat, end: nat)

  predicate SpansIn(spans: seq<Span>, n: nat) {
    forall k :: 0 <= k < |spans| ==> spans[k].start <= spans[k].end <= n
  }

  /** The chunks over the given spans, numbered from 0 in order. */
  function ChunksOf(tokens: seq<nat>, spans: seq<Span>, boundary: bool, decode: Decoder): (cs: seq<Chunk>)
    requires SpansIn(spans, |tokens|)
    ensures |cs| == |spans|
    ensures forall k :: 0 <= k < |spans| ==>
      cs[k].startPosition == spans[k].start && cs[k].endPosition == spans[k].end
      && cs[k].chunkIndex == k && cs[k].metadata.endsAtBoundary == boundary
      && cs[k].tokens == U32s(tokens[spans[k].start..spans[k].end])
  {
    seq(|spans|, k requires 0 <= k < |spans| =>
      MakeChunk(tokens, spans[k].start, spans[k].end, k, boundary, decode))
  }

  lemma ChunksOfSnoc(tokens: seq<nat>, spans: seq<Span>, sp: Span, boundary: bool, decode: Decoder)
    requires SpansIn(spans, |tokens|) && sp.start <= sp.end <= |tokens|
    ensures SpansIn(spans + [sp], |tokens|)
    ensures ChunksOf(tokens, spans + [sp], boundary, decode)
         == ChunksOf(tokens, spans, boundary, decode) + [MakeChunk(tokens, sp.start, sp.end, |spans|, boundary, decode)]
  {
    var a := ChunksOf(tokens, spans + [sp], boundary, decode);
    var b := ChunksOf(tokens, spans, boundary, decode) + [MakeChunk(tokens, sp.start, sp.end, |spans|, boundary, decode)];
    forall k | 0 <= k < |a| ensures a[k] == b[k] {
      if k < |spans| {
        assert (spans + [sp])[k] == spans[k];
      }
    }
  }

  /** The tokens of a list of chunks, concatenated in order. */
  function Concat(cs: seq<Chunk>): seq<nat> {
    if cs == [] then [] else cs[0].tokens + Concat(cs[1..])
  }

  /** Spans that follow each other without gap or overlap, from `start` to `end`. */
  predicate Tiling(spans: seq<Span>, start: nat, end: nat) {
    if spans == [] then start == end
    else spans[0].start == start && spans[0].start <= spans[0].end && Tiling(spans[1..], spans[0].end, end)
  }

  /** Chunks whose tokens are the ids of a tiling's spans hold exactly the ids of the tiled range. */
  lemma {:induction false} ConcatTiling(tokens: seq<nat>, cs: seq<Chunk>, spans: seq<Span>, start: nat, end: nat)
    requires Tiling(spans, start, end) && end <= |tokens| && SpansIn(spans, |tokens|) && |cs| == |spans|
    requires forall k :: 0 <= k < |cs| ==> cs[k].tokens == U32s(tokens[spans[k].start..spans[k].end])
    ensures start <= end
    ensures Concat(cs) == U32s(tokens[start..end])
    decreases |spans|
  {
    if spans != [] {
      var rest := spans[1..];
      assert SpansIn(rest, |tokens|) by {
        assert forall k :: 0 <= k < |rest| ==> rest[k] == spans[k + 1];
      }
      assert forall k :: 0 <= k < |rest| ==> cs[1..][k] == cs[k + 1] && rest[k] == spans[k + 1];
      ConcatTiling(tokens, cs[1..], rest, spans[0].end, end);
      var mid := spans[0].end;
      assert tokens[start..end] == tokens[start..mid] + tokens[mid..end];
      U32sAppend(tokens[start..mid], tokens[mid..end]);
    }
  }

  // ---------------------------------------------------------------------------
  // Fixed-size chunking
  // ---------------------------------------------------------------------------

  /** The spans of `tokens.chunks(size)` from position `start` on: `size` tokens each, the last one shorter. */
  function FixedSpans(n: nat, size: nat, start: nat): (spans: seq<Span>)
    requires size > 0
    ensures SpansIn(spans, n)
    decreases n - start
  {
    if start >= n then []
    else [Span(start, Min(start + size, n))] + FixedSpans(n, size, start + size)
  }

  /** The chunks of fixed-size chunking: numbered in order, never at a boundary. */
  function FixedChunks(tokens: seq<nat>, size: nat, decode: Decoder): seq<Chunk>
    requires size > 0
  {
    ChunksOf(tokens, FixedSpans(|tokens|, size, 0), false, decode)
  }

  /** `process_fixed_chunking` on the encoded text. */
  method FixedChunking(tokens: seq<nat>, chunkSize: nat, decode: Decoder) returns (r: ChunkResult)
    ensures chunkSize == 0 ==> r == Err(ZeroChunkSize)
    ensures chunkSize > 0 ==> r == Ok(FixedChunks(tokens, chunkSize, decode))
  {
    if chunkSize == 0 {
      return Err(ZeroChunkSize);
    }
    var n := |tokens|;
    var chunks: seq<Chunk> := [];
    ghost var spans: seq<Span> := [];
    var i := 0;
    var start := 0;
    while start < n
      invariant i == |spans| && SpansIn(spans, n)
      invariant spans + FixedSpans(n, chunkSize, start) == FixedSpans(n, chunkSize, 0)
      invariant chunks == ChunksOf(tokens, spans, false, decode)
      decreases n - start
    {
      var end := Min(start + chunkSize, n);
      var chunk := MakeChunk(tokens, start, end, i, false, decode);
      ghost var sp := Span(start, end);
      assert FixedSpans(n, chunkSize, start) == [sp] + FixedSpans(n, chunkSize, start + chunkSize);
      AppendAssoc(spans, [sp], FixedSpans(n, chunkSize, start + chunkSize));
      ChunksOfSnoc(tokens, spans, sp, false, decode);
      chunks := chunks + [chunk];
      spans := spans + [sp];
      i := i + 1;
      start := start + chunkSize;
    }
    assert spans + [] == spans;
    return Ok(chunks);
  }

  /** The fixed spans from `start` on tile `[start, n)`, each `size` long but the last. */
  lemma {:induction false} FixedSpansTile(n: nat, size: nat, start: nat)
    requires size > 0 && start <= n
    ensures Tiling(FixedSpans(n, size, start), start, n)
    ensures forall k :: 0 <= k < |FixedSpans(n, size, start)| ==>
      FixedSpans(n, size, start)[k].end == Min(FixedSpans(n, size, start)[k].start + size, n)
      && FixedSpans(n, size, start)[k].start < FixedSpans(n, size, start)[k].end
    decreases n - start
  {
    if start < n {
      var next := start + size;
      if next <= n {
        FixedSpansTile(n, size, next);
      } else {
        assert FixedSpans(n, size, next) == [];
      }
      var spans := FixedSpans(n, size, start);
      var rest := FixedSpans(n, size, next);
      assert spans == [Span(start, Min(next, n))] + rest;
      assert spans[1..] == rest;
    }
  }

  lemma MulStep(k: nat, size: nat)
    ensures (k + 1) * size == k * size + size
  {
  }

  /** Fixed span `k` (from position 0) starts at `k * size`. */
  lemma {:induction false} FixedSpanStart(n: nat, size: nat, start: nat, k: nat)
    requires size > 0 && k < |FixedSpans(n, size, start)|
    ensures FixedSpans(n, size, start)[k].start == start + k * size
    decreases k
  {
    var next := start + size;
    assert FixedSpans(n, size, start) == [Span(start, Min(next, n))] + FixedSpans(n, size, next);
    if k > 0 {
      FixedSpanStart(n, size, next, k - 1);
      MulStep(k - 1, size);
    }
  }

  /** Just enough fixed spans to cover `n` tokens. */
  lemma {:induction false} FixedSpansCount(n: nat, size: nat, start: nat)
    requires size > 0 && start <= n
    ensures var m := |FixedSpans(n, size, start)|;
      start + m * size >= n && (m > 0 ==> start + (m - 1) * size < n)
    decreases n - start
  {
    if start < n {
      var next := start + size;
      var m := |FixedSpans(n, size, start)|;
      assert m == 1 + |FixedSpans(n, size, next)|;
      if next <= n {
        FixedSpansCount(n, size, next);
      } else {
        assert FixedSpans(n, size, next) == [];
      }
      MulStep(m - 1, size);
    }
  }

  /**
   * Fixed chunking partitions the ids: chunk `k` is numbered `k` and spans
   * `[k * size, min(k * size + size, n))`, there are just enough chunks to
   * cover `n` tokens, no chunk is empty, none ends at a boundary, and their
   * tokens concatenate to all the ids in order.
   */
  lemma FixedPartition(tokens: seq<nat>, size: nat, decode: Decoder)
    requires size > 0
    ensures var cs := FixedChunks(tokens, size, decode);
      |cs| * size >= |tokens| && (|cs| > 0 ==> (|cs| - 1) * size < |tokens|)
      && Concat(cs) == U32s(tokens)
      && forall k :: 0 <= k < |cs| ==>
           cs[k].chunkIndex == k
           && cs[k].startPosition == k * size
           && cs[k].endPosition == Min(k * size + size, |tokens|)
           && cs[k].startPosition < cs[k].endPosition
           && cs[k].tokens == U32s(tokens[cs[k].startPosition..cs[k].endPosition])
           && !cs[k].metadata.endsAtBoundary
  {
    var n := |tokens|;
    var spans := FixedSpans(n, size, 0);
    FixedSpansTile(n, size, 0);
    FixedSpansCount(n, size, 0);
    ConcatTiling(tokens, FixedChunks(tokens, size, decode), spans, 0, n);
    assert tokens[0..n] == tokens;
    forall k | 0 <= k < |spans| ensures spans[k].start == k * size {
      FixedSpanStart(n, size, 0, k);
    }
  }

  // ---------------------------------------------------------------------------
  // Overlapping chunking
  // ---------------------------------------------------------------------------

  /** `(chunk_size as f32 * overlap_ratio) as usize`: rounded toward zero, a negative product to 0. */
  function OverlapSize(chunkSize: nat, ratio: real): nat {
    var x := (chunkSize as real) * ratio;
    if x <= 0.0 then 0 else x.Floor
  }

  /** `chunk_size - overlap_size`, which underflows when the overlap is larger than the chunk. */
  function OverlapStep(chunkSize: nat, ratio: real): Result<nat, ChunkError> {
    var overlap := OverlapSize(chunkSize, ratio);
    if overlap > chunkSize then Err(StepUnderflow) else Ok(chunkSize - overlap)
  }

  function Prepend(p: seq<nat>, r: Result<seq<nat>, ChunkError>): Result<seq<nat>, ChunkError> {
    match r
    case Ok(rest) => Ok(p + rest)
    case Err(e) => Err(e)
  }

  /**
   * The window starts of `process_overlapping_chunking` as written, from
   * `start` on, over `n` tokens: after each window `start_idx` moves `step`
   * on, `tokens.len() - start_idx` is computed in unsigned arithmetic (so it
   * panics once `start_idx` has passed `n`), the loop stops when fewer than
   * `minSize` tokens remain, and a step of 0 repeats the same window forever.
   */
  function WindowStartsAsWritten(n: nat, step: nat, minSize: nat, start: nat): (r: Result<seq<nat>, ChunkError>)
    ensures r.Ok? ==> forall k :: 0 <= k < |r.value| ==> start <= r.value[k] < n
    decreases n - start
  {
    if start >= n then Ok([])
    else if start + step > n then Err(RemainderUnderflow)
    else if n - (start + step) < minSize then Ok([start])
    else if step == 0 then Err(NoProgress)
    else Prepend([start], WindowStartsAsWritten(n, step, minSize, start + step))
  }

  /**
   * The window starts with the remainder computed saturating at 0: the loop
   * stops as soon as fewer than `minSize` tokens remain after the step or
   * the step reaches the end. A step of 0 still never ends.
   */
  function WindowStarts(n: nat, step: nat, minSize: nat, start: nat): (r: Result<seq<nat>, ChunkError>)
    ensures r.Ok? ==> forall k :: 0 <= k < |r.value| ==> start <= r.value[k] < n
    decreases n - start
  {
    if start >= n then Ok([])
    else if start + step >= n || n - (start + step) < minSize then Ok([start])
    else if step == 0 then Err(NoProgress)
    else Prepend([start], WindowStarts(n, step, minSize, start + step))
  }

  /** The window of at most `size` tokens at each start. */
  function WindowSpans(n: nat, size: nat, starts: seq<nat>): (spans: seq<Span>)
    requires forall k :: 0 <= k < |starts| ==> starts[k] <= n
    ensures |spans| == |starts| && SpansIn(spans, n)
  {
    seq(|starts|, k requires 0 <= k < |starts| => Span(starts[k], Min(starts[k] + size, n)))
  }

  /** The chunks over the windows at the given starts, or the error that stopped the loop. */
  function WindowChunks(tokens: seq<nat>, size: nat, starts: Result<seq<nat>, ChunkError>, decode: Decoder): ChunkResult
    requires starts.Ok? ==> forall k :: 0 <= k < |starts.value| ==> starts.value[k] <= |tokens|
  {
    match starts
    case Ok(st) => Ok(ChunksOf(tokens, WindowSpans(|tokens|, size, st), false, decode))
    case Err(e) => Err(e)
  }

  /** What `process_overlapping_chunking` computes, as written. */
  function OverlappingChunksAsWritten(tokens: seq<nat>, size: nat, minSize: nat, ratio: real, decode: Decoder): ChunkResult {
    match OverlapStep(size, ratio)
    case Err(e) => Err(e)
    case Ok(step) => WindowChunks(tokens, size, WindowStartsAsWritten(|tokens|, step, minSize, 0), decode)
  }

  /** Overlapping chunking with the remaining-token test saturating at 0. */
  function OverlappingChunks(tokens: seq<nat>, size: nat, minSize: nat, ratio: real, decode: Decoder): ChunkResult {
    match OverlapStep(size, ratio)
    case Err(e) => Err(e)
    case Ok(step) => WindowChunks(tokens, size, WindowStarts(|tokens|, step, minSize, 0), decode)
  }

  lemma WindowSpansSnoc(n: nat, size: nat, starts: seq<nat>, s: nat)
    requires forall k :: 0 <= k < |starts| ==> starts[k] <= n
    requires s <= n
    ensures WindowSpans(n, size, starts + [s]) == WindowSpans(n, size, starts) + [Span(s, Min(s + size, n))]
  {
  }

  lemma PrependCons(p: seq<nat>, s: nat, r: Result<seq<nat>, ChunkError>)
    ensures Prepend(p + [s], r) == Prepend(p, Prepend([s], r))
  {
    if r.Ok? {
      assert (p + [s]) + r.value == p + ([s] + r.value);
    }
  }

  /** `process_overlapping_chunking` on the encoded text, as written. */
  method OverlappingChunking(tokens: seq<nat>, chunkSize: nat, minChunkSize: nat, overlapRatio: real, decode: Decoder)
    returns (r: ChunkResult)
    ensures r == OverlappingChunksAsWritten(tokens, chunkSize, minChunkSize, overlapRatio, decode)
  {
    var n := |tokens|;
    var overlap := OverlapSize(chunkSize, overlapRatio);
    if overlap > chunkSize {
      return Err(StepUnderflow);
    }
    var step := chunkSize - overlap;
    ghost var all := WindowStartsAsWritten(n, step, minChunkSize, 0);
    assert all.Ok? ==> [] + all.value == all.value;
    var chunks: seq<Chunk> := [];
    ghost var starts: seq<nat> := [];
    var start := 0;
    var index := 0;
    while start < n
      invariant index == |starts|
      invariant forall k :: 0 <= k < |starts| ==> starts[k] < n
      invariant Prepend(starts, WindowStartsAsWritten(n, step, minChunkSize, start)) == all
      invariant chunks == ChunksOf(tokens, WindowSpans(n, chunkSize, starts), false, decode)
      decreases n - start
    {
      var end := Min(start + chunkSize, n);
      var chunk := MakeChunk(tokens, start, end, index, false, decode);
      WindowSpansSnoc(n, chunkSize, starts, start);
      ChunksOfSnoc(tokens, WindowSpans(n, chunkSize, starts), Span(start, end), false, decode);
      PrependCons(starts, start, WindowStartsAsWritten(n, step, minChunkSize, start + step));
      chunks := chunks + [chunk];
      starts := starts + [start];
      var next := start + step;
      index := index + 1;
      if next > n {
        // `tokens.len() - start_idx` underflows
        return Err(RemainderUnderflow);
      }
      if n - next < minChunkSize {
        // `break`
        return Ok(chunks);
      }
      if step == 0 {
        // the loop would repeat this window forever
        return Err(NoProgress);
      }
      start := next;
    }
    assert starts + [] == starts;
    return Ok(chunks);
  }

  /**
   * Where the loop as written finishes without a panic, the saturating loop
   * gives the same windows; with a positive step the saturating loop always
   * finishes; with a step of 0 the two loops agree.
   */
  lemma {:induction false} WindowStartsAgree(n: nat, step: nat, minSize: nat, start: nat)
    ensures WindowStartsAsWritten(n, step, minSize, start).Ok? ==>
      WindowStarts(n, step, minSize, start) == WindowStartsAsWritten(n, step, minSize, start)
    ensures step > 0 ==> WindowStarts(n, step, minSize, start).Ok?
    ensures step == 0 ==> WindowStarts(n, step, minSize, start) == WindowStartsAsWritten(n, step, minSize, start)
    decreases n - start
  {
    if start < n && step > 0 && start + step <= n {
      WindowStartsAgree(n, step, minSize, start + step);
      assert [start] + [] == [start];
    }
  }

  /** Consecutive windows start `step` apart, from `start`. */
  predicate Stepped(starts: seq<nat>, start: nat, step: nat) {
    (starts != [] ==> starts[0] == start)
    && forall k, j :: 0 <= k && j == k + 1 < |starts| ==> starts[j] == starts[k] + step
  }

  lemma SteppedCons(starts: seq<nat>, start: nat, step: nat)
    requires Stepped(starts, start + step, step)
    ensures Stepped([start] + starts, start, step)
  {
    var all := [start] + starts;
    assert forall k :: 1 <= k < |all| ==> all[k] == starts[k - 1];
  }

  lemma {:induction false} WindowStartsStepped(n: nat, step: nat, minSize: nat, start: nat)
    requires WindowStarts(n, step, minSize, start).Ok?
    ensures Stepped(WindowStarts(n, step, minSize, start).value, start, step)
    decreases n - start
  {
    if start < n && !(start + step >= n || n - (start + step) < minSize) {
      var next := start + step;
      WindowStartsStepped(n, step, minSize, next);
      SteppedCons(WindowStarts(n, step, minSize, next).value, start, step);
    }
  }

  /** Window `k` starts at `start + k * step`. */
  lemma {:induction false} SteppedAt(starts: seq<nat>, start: nat, step: nat, k: nat)
    requires Stepped(starts, start, step) && k < |starts|
    ensures starts[k] == start + k * step
  {
    if k > 0 {
      SteppedAt(starts, start, step, k - 1);
      MulStep(k - 1, step);
    }
  }

  /**
   * When the step plus the minimum chunk size fit in a chunk, the windows of
   * the saturating loop cover every token from `start` to `n`: position `j`
   * lies inside window `k`.
   */
  lemma {:induction false} WindowsCover(n: nat, step: nat, minSize: nat, size: nat, start: nat, j: nat) returns (k: nat)
    requires 0 < step && step + minSize <= size
    requires start <= j < n
    ensures var r := WindowStarts(n, step, minSize, start);
      r.Ok? && k < |r.value| && r.value[k] <= j < Min(r.value[k] + size, n)
    decreases n - start
  {
    WindowStartsAgree(n, step, minSize, start);
    var next := start + step;
    if j < next || next >= n || n - next < minSize {
      k := 0;
    } else {
      var k' := WindowsCover(n, step, minSize, size, next, j);
      k := k' + 1;
      var rest := WindowStarts(n, step, minSize, next).value;
      assert WindowStarts(n, step, minSize, start).value == [start] + rest;
    }
  }

  /** Every token is in some window, so the chunks leave no token out. */
  lemma OverlappingCovers(tokens: seq<nat>, size: nat, minSize: nat, ratio: real, decode: Decoder, j: nat) returns (k: nat)
    requires OverlapStep(size, ratio).Ok? && OverlapStep(size, ratio).value > 0
    requires OverlapStep(size, ratio).value + minSize <= size
    requires j < |tokens|
    ensures OverlappingChunks(tokens, size, minSize, ratio, decode).Ok?
    ensures var cs := OverlappingChunks(tokens, size, minSize, ratio, decode).value;
      k < |cs| && cs[k].startPosition <= j < cs[k].endPosition
  {
    var step := OverlapStep(size, ratio).value;
    k := WindowsCover(|tokens|, step, minSize, size, 0, j);
  }

  /**
   * Chunk `k` of overlapping chunking is numbered `k`, starts at `k * step`
   * and ends at `min(k * step + size, n)`, and starts inside the previous
   * chunk (`step <= size`), before the end of the ids.
   */
  lemma OverlappingShape(tokens: seq<nat>, size: nat, minSize: nat, ratio: real, decode: Decoder)
    requires OverlappingChunks(tokens, size, minSize, ratio, decode).Ok?
    ensures var cs := OverlappingChunks(tokens, size, minSize, ratio, decode).value;
      var step := OverlapStep(size, ratio).value;
      step <= size
      && (forall k :: 0 <= k < |cs| ==>
            cs[k].chunkIndex == k && cs[k].startPosition == k * step
            && cs[k].endPosition == Min(k * step + size, |tokens|)
            && cs[k].startPosition < |tokens|
            && cs[k].tokens == U32s(tokens[cs[k].startPosition..cs[k].endPosition])
            && !cs[k].metadata.endsAtBoundary)
      && forall k, j :: 0 <= k && j == k + 1 < |cs| ==> cs[j].startPosition <= cs[k].endPosition
  {
    var step := OverlapStep(size, ratio).value;
    var starts := WindowStarts(|tokens|, step, minSize, 0).value;
    WindowStartsStepped(|tokens|, step, minSize, 0);
    forall k | 0 <= k < |starts| ensures starts[k] == k * step {
      SteppedAt(starts, 0, step, k);
    }
  }

  /**
   * With the default configuration (512-token chunks, a 0.1 overlap ratio,
   * 64-token minimum) the step is 461 tokens, and the loop as written panics
   * on every non-empty text of fewer than 461 tokens: the first step passes
   * the end and `tokens.len() - start_idx` underflows. With the saturating
   * remainder the same text is one chunk holding all of it.
   */
  lemma ShortTextUnderflows(tokens: seq<nat>, decode: Decoder)
    requires 0 < |tokens| < 461
    ensures OverlapStep(512, 0.1) == Ok(461)
    ensures OverlappingChunksAsWritten(tokens, 512, 64, 0.1, decode) == Err(RemainderUnderflow)
    ensures OverlappingChunks(tokens, 512, 64, 0.1, decode).Ok?
    ensures var cs := OverlappingChunks(tokens, 512, 64, 0.1, decode).value;
      |cs| == 1 && cs[0].startPosition == 0 && cs[0].endPosition == |tokens|
  {
    assert (512 as real) * 0.1 == 51.2;
    assert (51.2).Floor == 51;
  }

  // ---------------------------------------------------------------------------
  // Chunks to a tensor
  // ---------------------------------------------------------------------------

  /** A `rows x cols` tensor of token ids, row after row. */
  datatype Tensor = Tensor(rows: nat, cols: nat, data: seq<nat>)

  /** A chunk's ids zero-padded or cut to `width` (`resize(width, 0)` / `truncate(width)`). */
  function Fit(ids: seq<nat>, width: nat): (r: seq<nat>)
    ensures |r| == width
    ensures forall j :: 0 <= j < width ==> r[j] == if j < |ids| then ids[j] else 0
  {
    if |ids| < width then ids + seq(width - |ids|, _ => 0) else ids[..width]
  }

  /** The rows of the tensor for `cs`, concatenated. */
  function FitAll(cs: seq<Chunk>, width: nat): seq<nat> {
    if cs == [] then [] else FitAll(cs[..|cs| - 1], width) + Fit(cs[|cs| - 1].tokens, width)
  }

  /** `chunks_to_tensor`: one row of `max_chunk_size` ids per chunk. */
  method ChunksToTensor(chunks: seq<Chunk>, maxLen: nat) returns (t: Tensor)
    ensures t == Tensor(|chunks|, maxLen, FitAll(chunks, maxLen))
    ensures |t.data| == t.rows * t.cols
  {
    var data: seq<nat> := [];
    for i := 0 to |chunks|
      invariant data == FitAll(chunks[..i], maxLen)
    {
      var padded := chunks[i].tokens;
      if |padded| < maxLen {
        padded := padded + seq(maxLen - |padded|, _ => 0);
      } else if |padded| > maxLen {
        padded := padded[..maxLen];
      }
      assert padded == Fit(chunks[i].tokens, maxLen);
      assert chunks[..i + 1][..i] == chunks[..i];
      data := data + padded;
    }
    assert chunks[..|chunks|] == chunks;
    FitAllLength(chunks, maxLen);
    t := Tensor(|chunks|, maxLen, data);
  }

  lemma MulMono(a: nat, b: nat, w: nat)
    requires a <= b
    ensures a * w <= b * w
  {
  }

  /** The tensor has exactly `rows * cols` ids, so `Tensor::from_vec` accepts it. */
  lemma {:induction false} FitAllLength(cs: seq<Chunk>, width: nat)
    ensures |FitAll(cs, width)| == |cs| * width
    decreases |cs|
  {
    if cs != [] {
      FitAllLength(cs[..|cs| - 1], width);
      MulStep(|cs| - 1, width);
    }
  }

  /** The id at row `i`, column `j` is the `j`-th id of chunk `i`, or 0 past its end. */
  lemma {:induction false} FitAllAt(cs: seq<Chunk>, width: nat, i: nat, j: nat)
    requires i < |cs| && j < width
    ensures i * width + j < |FitAll(cs, width)|
    ensures FitAll(cs, width)[i * width + j] == if j < |cs[i].tokens| then cs[i].tokens[j] else 0
    decreases |cs|
  {
    var m := |cs| - 1;
    var init := cs[..m];
    FitAllLength(init, width);
    FitAllLength(cs, width);
    MulStep(i, width);
    MulMono(i + 1, |cs|, width);
    assert FitAll(cs, width) == FitAll(init, width) + Fit(cs[m].tokens, width);
    if i < m {
      MulMono(i + 1, m, width);
      FitAllAt(init, width, i, j);
      assert init[i] == cs[i];
    }
  }

  // ---------------------------------------------------------------------------
  // Statistics
  // ---------------------------------------------------------------------------

  datatype Statistics = Statistics(
    totalChunks: nat,
    totalTokens: nat,
    avgChunkSize: real,
    minChunkSize: nat,
    maxChunkSize: nat,
    avgInformationDensity: real,
    boundaryPreservationRate: real)

  function TotalTokens(cs: seq<Chunk>): nat {
    if cs == [] then 0 else |cs[0].tokens| + TotalTokens(cs[1..])
  }

  /** The shortest chunk's length, 0 for no chunks (`min().unwrap_or(0)`). */
  function MinLength(cs: seq<Chunk>): (m: nat)
    ensures cs == [] ==> m == 0
    ensures cs != [] ==> (exists k :: 0 <= k < |cs| && |cs[k].tokens| == m)
    ensures forall k :: 0 <= k < |cs| ==> m <= |cs[k].tokens|
  {
    if cs == [] then 0
    else if |cs| == 1 then |cs[0].tokens|
    else
      var rest := MinLength(cs[1..]);
      assert forall k :: 1 <= k < |cs| ==> cs[k] == cs[1..][k - 1];
      if |cs[0].tokens| <= rest then |cs[0].tokens| else rest
  }

  /** The longest chunk's length, 0 for no chunks (`max().unwrap_or(0)`). */
  function MaxLength(cs: seq<Chunk>): (m: nat)
    ensures cs == [] ==> m == 0
    ensures cs != [] ==> (exists k :: 0 <= k < |cs| && |cs[k].tokens| == m)
    ensures forall k :: 0 <= k < |cs| ==> |cs[k].tokens| <= m
  {
    if cs == [] then 0
    else if |cs| == 1 then |cs[0].tokens|
    else
      var rest := MaxLength(cs[1..]);
      assert forall k :: 1 <= k < |cs| ==> cs[k] == cs[1..][k - 1];
      if |cs[0].tokens| >= rest then |cs[0].tokens| else rest
  }

  function DensitySum(cs: seq<Chunk>): real {
    if cs == [] then 0.0 else cs[0].metadata.informationDensity + DensitySum(cs[1..])
  }

  /** The number of chunks that end at a boundary. */
  function BoundaryCount(cs: seq<Chunk>): (c: nat)
    ensures c <= |cs|
  {
    if cs == [] then 0 else (if cs[0].metadata.endsAtBoundary then 1 else 0) + BoundaryCount(cs[1..])
  }

  /** `calculate_statistics`. */
  function CalculateStatistics(cs: seq<Chunk>): Statistics {
    var total := |cs|;
    Statistics(
      total,
      TotalTokens(cs),
      if total > 0 then (TotalTokens(cs) as real) / (total as real) else 0.0,
      MinLength(cs),
      MaxLength(cs),
      if total > 0 then DensitySum(cs) / (total as real) else 0.0,
      if total > 0 then (BoundaryCount(cs) as real) / (total as real) else 0.0)
  }

  /** The token total lies between `count * shortest` and `count * longest`. */
  lemma {:induction false} TotalBetween(cs: seq<Chunk>, lo: nat, hi: nat)
    requires forall k :: 0 <= k < |cs| ==> lo <= |cs[k].tokens| <= hi
    ensures |cs| * lo <= TotalTokens(cs) <= |cs| * hi
    decreases |cs|
  {
    if cs == [] {
      assert 0 * lo == 0 && 0 * hi == 0;
    } else {
      var rest := cs[1..];
      assert forall k :: 0 <= k < |rest| ==> rest[k] == cs[k + 1];
      TotalBetween(rest, lo, hi);
      MulStep(|rest|, lo);
      MulStep(|rest|, hi);
    }
  }

  lemma CastMul(a: nat, b: nat)
    ensures (a * b) as real == (a as real) * (b as real)
  {
  }

  /** Boundary counts of all-false and all-true chunk lists. */
  lemma {:induction false} BoundaryCountAll(cs: seq<Chunk>, b: bool)
    requires forall k :: 0 <= k < |cs| ==> cs[k].metadata.endsAtBoundary == b
    ensures BoundaryCount(cs) == if b then |cs| else 0
    decreases |cs|
  {
    if cs != [] {
      assert forall k :: 0 <= k < |cs| - 1 ==> cs[1..][k] == cs[k + 1];
      BoundaryCountAll(cs[1..], b);
    }
  }

  lemma {:induction false} DensitySumBounds(cs: seq<Chunk>)
    requires forall k :: 0 <= k < |cs| ==> 0.0 <= cs[k].metadata.informationDensity <= 1.0
    ensures 0.0 <= DensitySum(cs) <= |cs| as real
    decreases |cs|
  {
    if cs != [] {
      assert forall k :: 0 <= k < |cs| - 1 ==> cs[1..][k] == cs[k + 1];
      DensitySumBounds(cs[1..]);
    }
  }

  /**
   * For no chunks every statistic is 0; otherwise the average length lies
   * between the shortest and the longest, and the boundary rate between 0
   * and 1.
   */
  lemma StatisticsBounds(cs: seq<Chunk>)
    ensures var st := CalculateStatistics(cs);
      st.totalChunks == |cs|
      && (cs == [] ==> st == Statistics(0, 0, 0.0, 0, 0, 0.0, 0.0))
      && (cs != [] ==>
            (st.minChunkSize as real) <= st.avgChunkSize <= (st.maxChunkSize as real)
            && 0.0 <= st.boundaryPreservationRate <= 1.0)
  {
    if cs != [] {
      var lo, hi := MinLength(cs), MaxLength(cs);
      TotalBetween(cs, lo, hi);
      AvgBetween(TotalTokens(cs), |cs|, lo, hi);
      AvgBetween(BoundaryCount(cs), |cs|, 0, 1);
    }
  }

  lemma DivBetween(x: real, n: real, lo: real, hi: real)
    requires n > 0.0 && n * lo <= x <= n * hi
    ensures lo <= x / n <= hi
  {
  }

  lemma AvgBetween(t: nat, c: nat, lo: nat, hi: nat)
    requires c > 0 && c * lo <= t <= c * hi
    ensures lo as real <= (t as real) / (c as real) <= hi as real
  {
    CastMul(c, lo);
    CastMul(c, hi);
    DivBetween(t as real, c as real, lo as real, hi as real);
  }

  /** The tokens of all chunks together are as many as the token total. */
  lemma {:induction false} ConcatLength(cs: seq<Chunk>)
    ensures |Concat(cs)| == TotalTokens(cs)
    decreases |cs|
  {
    if cs != [] {
      ConcatLength(cs[1..]);
    }
  }

  /**
   * Statistics of fixed chunking: the token total is the number of ids, no
   * chunk is longer than the chunk size, and the boundary rate is 0.
   */
  lemma FixedStatistics(tokens: seq<nat>, size: nat, decode: Decoder)
    requires size > 0
    ensures var st := CalculateStatistics(FixedChunks(tokens, size, decode));
      st.totalTokens == |tokens| && st.maxChunkSize <= size && st.boundaryPreservationRate == 0.0
  {
    var cs := FixedChunks(tokens, size, decode);
    FixedPartition(tokens, size, decode);
    ConcatLength(cs);
    assert TotalTokens(cs) == |tokens|;
    forall k | 0 <= k < |cs| ensures |cs[k].tokens| <= size && !cs[k].metadata.endsAtBoundary {
      assert cs[k].endPosition <= cs[k].startPosition + size;
    }
    BoundedStatistics(cs, size);
  }

  /** Chunks of at most `size` ids that end at no boundary have statistics to match. */
  lemma BoundedStatistics(cs: seq<Chunk>, size: nat)
    requires forall k :: 0 <= k < |cs| ==> |cs[k].tokens| <= size && !cs[k].metadata.endsAtBoundary
    ensures CalculateStatistics(cs).maxChunkSize <= size
    ensures CalculateStatistics(cs).boundaryPreservationRate == 0.0
  {
    BoundaryCountAll(cs, false);
    if cs != [] {
      var k :| 0 <= k < |cs| && |cs[k].tokens| == MaxLength(cs);
    }
  }

  // ---------------------------------------------------------------------------
  // Chunk quality
  // ---------------------------------------------------------------------------

  datatype QualityReport = QualityReport(
    avgCoherenceScore: real,
    totalCoverageGaps: nat,
    coherenceScores: seq<real>,
    coverageGaps: seq<nat>)

  /** `a.saturating_sub(b)`. */
  function SaturatingSub(a: nat, b: nat): nat {
    if a >= b then a - b else 0
  }

  /** The positive gaps between each chunk's start and the previous chunk's end, in order. */
  function Gaps(cs: seq<Chunk>): seq<nat> {
    if |cs| < 2 then []
    else
      var m := |cs| - 1;
      var gap := SaturatingSub(cs[m].startPosition, cs[m - 1].endPosition);
      Gaps(cs[..m]) + (if gap > 0 then [gap] else [])
  }

  function Densities(cs: seq<Chunk>): (r: seq<real>)
    ensures |r| == |cs|
  {
    seq(|cs|, k requires 0 <= k < |cs| => cs[k].metadata.informationDensity)
  }

  function SumReals(xs: seq<real>): real {
    if xs == [] then 0.0 else xs[0] + SumReals(xs[1..])
  }

  function SumNats(xs: seq<nat>): nat {
    if xs == [] then 0 else xs[0] + SumNats(xs[1..])
  }

  /** `ChunkingAnalyzer::analyze_chunk_quality`. */
  method AnalyzeChunkQuality(chunks: seq<Chunk>) returns (report: QualityReport)
    ensures report.coherenceScores == Densities(chunks)
    ensures report.coverageGaps == Gaps(chunks)
    ensures report.totalCoverageGaps == SumNats(Gaps(chunks))
    ensures report.avgCoherenceScore
         == if chunks == [] then 0.0 else SumReals(Densities(chunks)) / (|chunks| as real)
  {
    var coherence: seq<real> := [];
    var gaps: seq<nat> := [];
    for i := 0 to |chunks|
      invariant coherence == Densities(chunks[..i])
      invariant gaps == Gaps(chunks[..i])
    {
      coherence := coherence + [chunks[i].metadata.informationDensity];
      assert chunks[..i + 1][..i] == chunks[..i];
      if i > 0 {
        var gap := SaturatingSub(chunks[i].startPosition, chunks[i - 1].endPosition);
        if gap > 0 {
          gaps := gaps + [gap];
        }
      }
    }
    assert chunks[..|chunks|] == chunks;
    var avg := if coherence != [] then SumReals(coherence) / (|coherence| as real) else 0.0;
    report := QualityReport(avg, SumNats(gaps), coherence, gaps);
  }

  /**
   * Every recorded gap is positive, and there is none exactly when each
   * chunk starts no later than the previous one ends.
   */
  lemma {:induction false} GapsMeaning(cs: seq<Chunk>)
    ensures forall g :: 0 <= g < |Gaps(cs)| ==> Gaps(cs)[g] > 0
    ensures Gaps(cs) == [] <==>
      forall k, j :: 0 <= k && j == k + 1 < |cs| ==> cs[j].startPosition <= cs[k].endPosition
    decreases |cs|
  {
    if |cs| >= 2 {
      var m := |cs| - 1;
      var init := cs[..m];
      GapsMeaning(init);
      assert forall k :: 0 <= k < m ==> init[k] == cs[k];
    }
  }

  /** The average coherence of densities in `[0, 1]` is in `[0, 1]`. */
  lemma CoherenceBounds(cs: seq<Chunk>)
    requires forall k :: 0 <= k < |cs| ==> 0.0 <= cs[k].metadata.informationDensity <= 1.0
    ensures cs != [] ==> 0.0 <= SumReals(Densities(cs)) / (|cs| as real) <= 1.0
  {
    DensitiesSum(cs);
    DensitySumBounds(cs);
    if cs != [] {
      DivBetween(DensitySum(cs), |cs| as real, 0.0, 1.0);
    }
  }

  lemma {:induction false} DensitiesSum(cs: seq<Chunk>)
    ensures SumReals(Densities(cs)) == DensitySum(cs)
    decreases |cs|
  {
    if cs != [] {
      DensitiesSum(cs[1..]);
      assert Densities(cs)[1..] == Densities(cs[1..]);
    }
  }

  /** Fixed chunking leaves no coverage gap. */
  lemma FixedNoGaps(tokens: seq<nat>, size: nat, decode: Decoder)
    requires size > 0
    ensures Gaps(FixedChunks(tokens, size, decode)) == []
  {
    var cs := FixedChunks(tokens, size, decode);
    FixedPartition(tokens, size, decode);
    GapsMeaning(cs);
    forall k, j | 0 <= k && j == k + 1 < |cs| ensures cs[j].startPosition <= cs[k].endPosition {
      MulStep(k, size);
    }
  }

  /** Overlapping chunking leaves no coverage gap. */
  lemma OverlappingNoGaps(tokens: seq<nat>, size: nat, minSize: nat, ratio: real, decode: Decoder)
    requires OverlappingChunks(tokens, size, minSize, ratio, decode).Ok?
    ensures Gaps(OverlappingChunks(tokens, size, minSize, ratio, decode).value) == []
  {
    OverlappingShape(tokens, size, minSize, ratio, decode);
    GapsMeaning(OverlappingChunks(tokens, size, minSize, ratio, decode).value);
  }

  // ---------------------------------------------------------------------------
  // The processor and its cache
  // ---------------------------------------------------------------------------

  /** The cache key: the configuration and the text's length in bytes. */
  type CacheKey = (Config, nat)

  function KeyOf(config: Config, text: string): CacheKey {
    (config, Utf8Len(text))
  }

  /**
   * What the configured strategy yields for `text`, whose token ids are
   * `tokens`; the semantic and adaptive chunkers are given as functions.
   */
  function Strategize(config: Config, text: string, tokens: seq<nat>, decode: Decoder,
                      semantic: string -> ChunkResult, adaptive: string -> ChunkResult): ChunkResult
  {
    match config.strategy
    case Fixed =>
      if config.maxChunkSize == 0 then Err(ZeroChunkSize) else Ok(FixedChunks(tokens, config.maxChunkSize, decode))
    case Semantic => semantic(text)
    case Adaptive => adaptive(text)
    case Overlapping =>
      OverlappingChunksAsWritten(tokens, config.maxChunkSize, config.minChunkSize, config.overlapRatio, decode)
  }

  /**
   * One lookup: a cached entry is returned as is; otherwise the computed result
   * is returned and, when it is a success, stored under the key.
   */
  function CacheStep(cache: map<CacheKey, seq<Chunk>>, key: CacheKey, computed: ChunkResult)
    : (ChunkResult, map<CacheKey, seq<Chunk>>)
  {
    if key in cache then (Ok(cache[key]), cache)
    else if computed.Ok? then (computed, cache[key := computed.value])
    else (computed, cache)
  }

  /** `ChunkProcessor`: a configuration and a results cache. */
  class ChunkProcessor {
    const config: Config
    var cache: map<CacheKey, seq<Chunk>>

    constructor (config: Config)
      ensures this.config == config && cache == map[]
    {
      this.config := config;
      cache := map[];
    }

    /** `process_text`: answer from the cache, or chunk with the configured strategy and cache the result. */
    method ProcessText(text: string, tokens: seq<nat>, decode: Decoder,
                       semantic: string -> ChunkResult, adaptive: string -> ChunkResult) returns (r: ChunkResult)
      modifies this
      ensures (r, cache) == CacheStep(old(cache), KeyOf(config, text),
                                      Strategize(config, text, tokens, decode, semantic, adaptive))
    {
      var key := KeyOf(config, text);
      if key in cache {
        return Ok(cache[key]);
      }
      match config.strategy {
        case Fixed =>
          r := FixedChunking(tokens, config.maxChunkSize, decode);
        case Semantic =>
          r := semantic(text);
        case Adaptive =>
          r := adaptive(text);
        case Overlapping =>
          r := OverlappingChunking(tokens, config.maxChunkSize, config.minChunkSize, config.overlapRatio, decode);
      }
      if r.Ok? {
        cache := cache[key := r.value];
      }
    }
  }

  /**
   * A lookup never drops or changes an entry; a miss returns the computed
   * result, a hit the cached chunks.
   */
  lemma CacheStepMeaning(cache: map<CacheKey, seq<Chunk>>, key: CacheKey, computed: ChunkResult)
    ensures var (r, c) := CacheStep(cache, key, computed);
      (forall k :: k in cache ==> k in c && c[k] == cache[k])
      && (key in cache ==> r == Ok(cache[key]) && c == cache)
      && (key !in cache ==> r == computed && (computed.Ok? <==> key in c))
      && (r.Ok? ==> key in c && c[key] == r.value)
  {
  }

  /**
   * Once a text has been chunked, any other text of the same byte length
   * under the same configuration gets the first text's chunks, whatever its
   * own chunks would be.
   */
  lemma CacheCollision(cache: map<CacheKey, seq<Chunk>>, config: Config, t1: string, t2: string,
                       f1: ChunkResult, f2: ChunkResult)
    requires Utf8Len(t1) == Utf8Len(t2) && f1.Ok?
    ensures var (r1, c1) := CacheStep(cache, KeyOf(config, t1), f1);
      r1.Ok? && CacheStep(c1, KeyOf(config, t2), f2) == (r1, c1)
  {
  }
}
