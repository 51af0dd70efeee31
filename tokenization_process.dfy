/**
 * The two teaching tokenizers of examples/educational/tokenization_process.rs:
 * a word tokenizer that splits on whitespace and ASCII punctuation, and a
 * simplified byte-pair encoder. Both insert tokens idempotently, so their
 * two maps stay inverse and `next_id` stays the vocabulary size.
 */
module TokenizationProcess {
  import opened Seqs
  import opened Wrappers
  import opened Text
  import opened Merging
  import opened Tokenizer

  // ---------------------------------------------------------------------------
  // simple_tokenize
  // ---------------------------------------------------------------------------

  /** The state of the character loop: tokens pushed so far and the word being built. */
  datatype Scanner = Scanner(tokens: seq<string>, current: string)

  /** The token list with the current word pushed when it is not empty. */
  function Flush(st: Scanner): seq<string> {
    if st.current != [] then st.tokens + [st.current] else st.tokens
  }

  /** One character: whitespace ends the word, punctuation ends it and is its own token, anything else is lower-cased into it. */
  function Feed(st: Scanner, c: char): Scanner {
    if IsWhitespace(c) then Scanner(Flush(st), [])
    else if IsAsciiPunctuation(c) then Scanner(Flush(st) + [[c]], [])
    else Scanner(st.tokens, st.current + [Lower(c)])
  }

  function Scan(s: string): Scanner {
    if s == [] then Scanner([], []) else Feed(Scan(s[..|s| - 1]), s[|s| - 1])
  }

  /** What `simple_tokenize` returns. */
  function SimpleTokens(s: string): seq<string> {
    Flush(Scan(s))
  }

  /** A word under construction: no whitespace, no punctuation, no upper-case ASCII letter. */
  ghost predicate Plain(w: string) {
    forall i :: 0 <= i < |w| ==> !IsWhitespace(w[i]) && !IsAsciiPunctuation(w[i]) && !IsAsciiUpper(w[i])
  }

  /** A token of `simple_tokenize`: a single punctuation character, or a non-empty plain word. */
  ghost predicate GoodToken(t: string) {
    (|t| == 1 && IsAsciiPunctuation(t[0])) || (t != [] && Plain(t))
  }

  lemma FlushShape(st: Scanner)
    requires forall k :: 0 <= k < |st.tokens| ==> GoodToken(st.tokens[k])
    requires Plain(st.current)
    ensures forall k :: 0 <= k < |Flush(st)| ==> GoodToken(Flush(st)[k])
    ensures Flatten(Flush(st)) == Flatten(st.tokens) + st.current
  {
    if st.current != [] {
      FlattenAppend(st.tokens, [st.current]);
    }
  }

  /** The loop keeps only good tokens, and the tokens plus the current word spell the lower-cased text without whitespace. */
  lemma {:induction false} ScanShape(s: string)
    ensures forall k :: 0 <= k < |Scan(s).tokens| ==> GoodToken(Scan(s).tokens[k])
    ensures Plain(Scan(s).current)
    ensures Flatten(Scan(s).tokens) + Scan(s).current == LowerAll(RemoveWhitespace(s))
    decreases |s|
  {
    if s != [] {
      var init, c := s[..|s| - 1], s[|s| - 1];
      assert s == init + [c];
      ScanShape(init);
      var st := Scan(init);
      RemoveWhitespaceAppend(init, [c]);
      var r := RemoveWhitespace(init);
      assert LowerAll(r + RemoveWhitespace([c])) == LowerAll(r) + LowerAll(RemoveWhitespace([c]));
      FlushShape(st);
      if IsWhitespace(c) {
        assert RemoveWhitespace([c]) == [];
      } else {
        assert RemoveWhitespace([c]) == [c];
        if IsAsciiPunctuation(c) {
          FlattenAppend(Flush(st), [[c]]);
        }
      }
    }
  }

  /**
   * `simple_tokenize` never emits an empty or whitespace token, every ASCII
   * punctuation character is a token of its own, and the tokens spell the
   * lower-cased text with its whitespace deleted.
   */
  lemma SimpleTokensShape(s: string)
    ensures forall k :: 0 <= k < |SimpleTokens(s)| ==> GoodToken(SimpleTokens(s)[k])
    ensures Flatten(SimpleTokens(s)) == LowerAll(RemoveWhitespace(s))
  {
    ScanShape(s);
    FlushShape(Scan(s));
  }

  /** A token of `simple_tokenize` is never one of the bracketed special tokens. */
  lemma GoodTokenNotSpecial(t: string)
    requires GoodToken(t)
    ensures t != Pad && t != Unk && t != Bos && t != Eos
  {
    assert IsAsciiPunctuation(Pad[0]) && IsAsciiPunctuation(Unk[0]) && IsAsciiPunctuation(Bos[0]) && IsAsciiPunctuation(Eos[0]);
    assert |Pad| == |Unk| == |Bos| == |Eos| == 5;
  }

  /** All the tokens of a list of texts, text after text. */
  function TextTokens(texts: seq<string>): seq<string> {
    if texts == [] then [] else TextTokens(texts[..|texts| - 1]) + SimpleTokens(texts[|texts| - 1])
  }

  lemma {:induction false} TextTokensCover(texts: seq<string>, j: nat)
    requires j < |texts|
    ensures forall t :: t in SimpleTokens(texts[j]) ==> t in TextTokens(texts)
    decreases |texts|
  {
    if j < |texts| - 1 {
      TextTokensCover(texts[..|texts| - 1], j);
    }
  }

  // ---------------------------------------------------------------------------
  // WordTokenizer::decode
  // ---------------------------------------------------------------------------

  /** An id `decode` drops: unknown, or naming `<BOS>`, `<EOS>` or `<PAD>`. */
  predicate Dropped(rev: map<nat, string>, id: nat) {
    id !in rev || rev[id] == Bos || rev[id] == Eos || rev[id] == Pad
  }

  /** The strings `decode` keeps: those of the ids it does not drop, in order. */
  function Kept(rev: map<nat, string>, ids: seq<nat>): seq<string> {
    if ids == [] then []
    else
      var id := ids[|ids| - 1];
      Kept(rev, ids[..|ids| - 1]) + (if !Dropped(rev, id) then [rev[id]] else [])
  }

  /** What `decode` returns: the kept strings joined by single spaces. */
  function WordDecode(rev: map<nat, string>, ids: seq<nat>): string {
    Join(Kept(rev, ids), " ")
  }

  /**
   * `decode` keeps at most one string per id, each the string of a known id
   * and none of them `<BOS>`, `<EOS>` or `<PAD>`; ids that are all dropped
   * leave nothing.
   */
  lemma {:induction false} KeptShape(rev: map<nat, string>, ids: seq<nat>)
    ensures |Kept(rev, ids)| <= |ids|
    ensures forall k :: 0 <= k < |Kept(rev, ids)| ==>
      Kept(rev, ids)[k] in rev.Values && Kept(rev, ids)[k] != Bos && Kept(rev, ids)[k] != Eos && Kept(rev, ids)[k] != Pad
    ensures (forall k :: 0 <= k < |ids| ==> Dropped(rev, ids[k])) ==> Kept(rev, ids) == []
    decreases |ids|
  {
    if ids != [] {
      var init := ids[..|ids| - 1];
      KeptShape(rev, init);
      if forall k :: 0 <= k < |ids| ==> Dropped(rev, ids[k]) {
        assert forall k :: 0 <= k < |init| ==> init[k] == ids[k];
      }
    }
  }

  lemma {:induction false} KeptAppend(rev: map<nat, string>, a: seq<nat>, b: seq<nat>)
    ensures Kept(rev, a + b) == Kept(rev, a) + Kept(rev, b)
    decreases |b|
  {
    if b == [] {
      assert a + b == a;
    } else {
      assert (a + b)[..|a + b| - 1] == a + b[..|b| - 1];
      KeptAppend(rev, a, b[..|b| - 1]);
    }
  }

  /** Known tokens other than the three dropped specials come back in order; `<UNK>` is kept. */
  lemma {:induction false} KeptKnown(v: Vocab, ts: seq<string>, unk: nat)
    requires Bijective(v)
    requires forall k :: 0 <= k < |ts| ==> ts[k] in v.toId && ts[k] != Bos && ts[k] != Eos && ts[k] != Pad
    ensures Kept(v.toStr, Lookup(v.toId, unk, ts)) == ts
    decreases |ts|
  {
    if ts != [] {
      var init := ts[..|ts| - 1];
      assert Lookup(v.toId, unk, ts) == Lookup(v.toId, unk, init) + [v.toId[ts[|ts| - 1]]];
      KeptAppend(v.toStr, Lookup(v.toId, unk, init), [v.toId[ts[|ts| - 1]]]);
      KeptKnown(v, init, unk);
      assert init + [ts[|ts| - 1]] == ts;
    }
  }

  /**
   * When every token of t is in an inverse vocabulary holding the specials,
   * decoding the encoding of t gives its tokens joined by single spaces.
   */
  lemma WordRoundTrip(v: Vocab, t: string)
    requires Bijective(v) && Bos in v.toId && Unk in v.toId && Eos in v.toId
    requires forall k :: 0 <= k < |SimpleTokens(t)| ==> SimpleTokens(t)[k] in v.toId
    ensures WordDecode(v.toStr, [v.toId[Bos]] + Lookup(v.toId, v.toId[Unk], SimpleTokens(t)) + [v.toId[Eos]])
      == Join(SimpleTokens(t), " ")
  {
    var ts := SimpleTokens(t);
    SimpleTokensShape(t);
    forall k | 0 <= k < |ts| ensures ts[k] != Bos && ts[k] != Eos && ts[k] != Pad {
      GoodTokenNotSpecial(ts[k]);
    }
    KeptKnown(v, ts, v.toId[Unk]);
    var mid := Lookup(v.toId, v.toId[Unk], ts);
    KeptAppend(v.toStr, [v.toId[Bos]], mid);
    KeptAppend(v.toStr, [v.toId[Bos]] + mid, [v.toId[Eos]]);
    assert Kept(v.toStr, [v.toId[Bos]]) == [] by {
      assert [v.toId[Bos]][..0] == [];
    }
    assert Kept(v.toStr, [v.toId[Eos]]) == [] by {
      assert [v.toId[Eos]][..0] == [];
    }
    assert Kept(v.toStr, [v.toId[Bos]] + mid + [v.toId[Eos]]) == ts;
  }

  // ---------------------------------------------------------------------------
  // The word tokenizer
  // ---------------------------------------------------------------------------

  const Specials: seq<string> := [Pad, Unk, Bos, Eos]

  lemma InsertAllSnoc(v: Vocab, ss: seq<string>, s: string)
    ensures InsertAll(v, ss + [s]) == Insert(InsertAll(v, ss), s)
  {
    assert (ss + [s])[..|ss|] == ss;
  }

  /** Inserting the strings of `ws` after `prefix`, one more at a time. */
  lemma PrefixStep(v0: Vocab, prefix: seq<string>, ws: seq<string>, i: nat)
    requires i < |ws|
    ensures InsertAll(v0, prefix + ws[..i + 1]) == Insert(InsertAll(v0, prefix + ws[..i]), ws[i])
  {
    assert prefix + ws[..i + 1] == (prefix + ws[..i]) + [ws[i]];
    InsertAllSnoc(v0, prefix + ws[..i], ws[i]);
  }

  /** `add_special_tokens` on empty maps builds the vocabulary of `new`. */
  lemma SpecialsInserted()
    ensures InsertAll(Vocab(map[], map[]), Specials) == InitialVocab()
  {
    SpecialsDistinct();
    var v0 := Vocab(map[], map[]);
    InsertAllSnoc(v0, [], Pad);
    assert [] + [Pad] == [Pad];
    var v1 := InsertAll(v0, [Pad]);
    assert v1 == Vocab(map[Pad := 0], map[0 := Pad]);
    assert |v1.toId| == 1;
    InsertAllSnoc(v0, [Pad], Unk);
    assert [Pad] + [Unk] == [Pad, Unk];
    var v2 := InsertAll(v0, [Pad, Unk]);
    assert v2 == Vocab(map[Pad := 0, Unk := 1], map[0 := Pad, 1 := Unk]);
    assert v2.toId.Keys == {Pad, Unk} && |v2.toId| == 2;
    InsertAllSnoc(v0, [Pad, Unk], Bos);
    assert [Pad, Unk] + [Bos] == [Pad, Unk, Bos];
    var v3 := InsertAll(v0, [Pad, Unk, Bos]);
    assert v3 == Vocab(map[Pad := 0, Unk := 1, Bos := 2], map[0 := Pad, 1 := Unk, 2 := Bos]);
    assert v3.toId.Keys == {Pad, Unk, Bos} && |v3.toId| == 3;
    InsertAllSnoc(v0, [Pad, Unk, Bos], Eos);
    assert [Pad, Unk, Bos] + [Eos] == Specials;
  }

  class WordTokenizer {
    var vocab: map<string, nat>
    var reverseVocab: map<nat, string>
    var nextId: nat

    function Current(): Vocab
      reads this
    {
      Vocab(vocab, reverseVocab)
    }

    /** The maps are inverse and `next_id` is the number of tokens. */
    ghost predicate Dense()
      reads this
    {
      Bijective(Current()) && nextId == |vocab|
    }

    ghost predicate Valid()
      reads this
    {
      Dense() && Pad in vocab && Unk in vocab && Bos in vocab && Eos in vocab
    }

    /** `new`: `<PAD>`, `<UNK>`, `<BOS>`, `<EOS>` at ids 0 to 3. */
    constructor ()
      ensures Valid() && Current() == InitialVocab() && nextId == 4
    {
      vocab := map[];
      reverseVocab := map[];
      nextId := 0;
      new;
      AddSpecialTokens();
      SpecialsInserted();
      InitialVocabSize();
    }

    method AddSpecialTokens()
      requires Dense()
      modifies this
      ensures Dense() && Current() == InsertAll(old(Current()), Specials)
    {
      ghost var v0 := Current();
      var i := 0;
      while i < |Specials|
        invariant 0 <= i <= |Specials| && Dense() && Current() == InsertAll(v0, Specials[..i])
      {
        assert Specials[..i + 1][..i] == Specials[..i];
        var _ := AddToken(Specials[i]);
        i := i + 1;
      }
      assert Specials[..i] == Specials;
    }

    /** `add_token`: the id of a present token, otherwise the next id, after which `next_id` grows by one. */
    method AddToken(token: string) returns (id: nat)
      requires Dense()
      modifies this
      ensures Dense() && Current() == Insert(old(Current()), token)
      ensures token in vocab && id == vocab[token]
      ensures token in old(vocab) ==> id == old(vocab[token])
      ensures token !in old(vocab) ==> id == old(nextId)
    {
      if token in vocab {
        return vocab[token];
      }
      RegisterKeepsBijective(Current(), token);
      id := nextId;
      vocab := vocab[token := id];
      reverseVocab := reverseVocab[id := token];
      nextId := nextId + 1;
    }

    /** `train`: every token of every text inserted, text after text. */
    method Train(texts: seq<string>)
      requires Valid()
      modifies this
      ensures Valid() && Current() == InsertAll(old(Current()), TextTokens(texts))
    {
      ghost var v0 := Current();
      var j := 0;
      while j < |texts|
        invariant 0 <= j <= |texts| && Dense() && Current() == InsertAll(v0, TextTokens(texts[..j]))
      {
        var words := SimpleTokenize(texts[j]);
        assert texts[..j + 1][..j] == texts[..j];
        InsertWords(words, v0, TextTokens(texts[..j]));
        j := j + 1;
      }
      assert texts[..j] == texts;
      InsertAllKeepsBijective(v0, TextTokens(texts));
    }

    /** The inner loop of `train`: the tokens of one text inserted in order. */
    method InsertWords(words: seq<string>, ghost v0: Vocab, ghost mid: seq<string>)
      requires Dense() && Current() == InsertAll(v0, mid)
      modifies this
      ensures Dense() && Current() == InsertAll(v0, mid + words)
    {
      assert mid + words[..0] == mid;
      var k := 0;
      while k < |words|
        invariant 0 <= k <= |words| && Dense() && Current() == InsertAll(v0, mid + words[..k])
      {
        PrefixStep(v0, mid, words, k);
        var _ := AddToken(words[k]);
        k := k + 1;
      }
      assert words[..k] == words;
    }

    /** `simple_tokenize`: the character loop over a current-word buffer. */
    method SimpleTokenize(text: string) returns (tokens: seq<string>)
      ensures tokens == SimpleTokens(text)
    {
      tokens := [];
      var currentWord := "";
      var i := 0;
      while i < |text|
        invariant 0 <= i <= |text| && Scanner(tokens, currentWord) == Scan(text[..i])
      {
        var ch := text[i];
        assert text[..i + 1][..i] == text[..i];
        if IsWhitespace(ch) {
          if currentWord != [] {
            tokens := tokens + [currentWord];
            currentWord := [];
          }
        } else if IsAsciiPunctuation(ch) {
          if currentWord != [] {
            tokens := tokens + [currentWord];
            currentWord := [];
          }
          tokens := tokens + [[ch]];
        } else {
          currentWord := currentWord + [Lower(ch)];
        }
        i := i + 1;
      }
      assert text[..i] == text;
      if currentWord != [] {
        tokens := tokens + [currentWord];
      }
    }

    /** `encode`: BOS, one id per token with UNK for unseen ones, EOS. */
    method Encode(text: string) returns (ids: seq<nat>)
      requires Valid()
      ensures ids == [vocab[Bos]] + Lookup(vocab, vocab[Unk], SimpleTokens(text)) + [vocab[Eos]]
    {
      var tokens := SimpleTokenize(text);
      ids := [vocab[Bos]];
      var i := 0;
      while i < |tokens|
        invariant 0 <= i <= |tokens| && ids == [vocab[Bos]] + Lookup(vocab, vocab[Unk], tokens[..i])
      {
        var id := if tokens[i] in vocab then vocab[tokens[i]] else vocab[Unk];
        assert tokens[..i + 1] == tokens[..i] + [tokens[i]];
        LookupAppend(vocab, vocab[Unk], tokens[..i], [tokens[i]]);
        ids := ids + [id];
        i := i + 1;
      }
      assert tokens[..i] == tokens;
      ids := ids + [vocab[Eos]];
    }

    /**
     * `decode`: the strings of the ids it keeps, joined by single spaces; a
     * list of dropped ids gives "", and a single kept id gives its string.
     */
    function Decode(ids: seq<nat>): (text: string)
      reads this
      ensures (forall k :: 0 <= k < |ids| ==> Dropped(reverseVocab, ids[k])) ==> text == []
      ensures |ids| == 1 && !Dropped(reverseVocab, ids[0]) ==> text == reverseVocab[ids[0]]
    {
      KeptShape(reverseVocab, ids);
      assert |ids| == 1 ==> ids[..0] == [];
      WordDecode(reverseVocab, ids)
    }

    function VocabSize(): (n: nat)
      reads this
      ensures Dense() ==> n == nextId
    {
      |vocab|
    }
  }

  /** After training on texts, decoding the encoding of any of them gives its tokens joined by spaces. */
  lemma TrainedWordRoundTrip(v: Vocab, texts: seq<string>, j: nat, w: Vocab)
    requires Bijective(v) && Bos in v.toId && Unk in v.toId && Eos in v.toId && j < |texts|
    requires w == InsertAll(v, TextTokens(texts))
    ensures Bos in w.toId && Unk in w.toId && Eos in w.toId
    ensures WordDecode(w.toStr, [w.toId[Bos]] + Lookup(w.toId, w.toId[Unk], SimpleTokens(texts[j])) + [w.toId[Eos]])
      == Join(SimpleTokens(texts[j]), " ")
  {
    InsertAllKeepsBijective(v, TextTokens(texts));
    TextTokensCover(texts, j);
    WordRoundTrip(w, texts[j]);
  }

  /** Appending a plain word to the text extends the current word by it. */
  lemma {:induction false} ScanPlainSuffix(a: string, w: string)
    requires Plain(w)
    ensures Scan(a + w) == Scanner(Scan(a).tokens, Scan(a).current + w)
    decreases |w|
  {
    if w == [] {
      assert a + w == a;
    } else {
      var init := w[..|w| - 1];
      assert (a + w)[..|a + w| - 1] == a + init;
      ScanPlainSuffix(a, init);
      assert init + [w[|w| - 1]] == w;
    }
  }

  lemma ScanHello()
    ensures Scan("hello") == Scanner([], "hello")
  {
    assert Plain("hello");
    ScanPlainSuffix("", "hello");
    assert "" + "hello" == "hello";
  }

  lemma ScanHelloSpace()
    ensures Scan("hello ") == Scanner(["hello"], "")
  {
    ScanHello();
    assert "hello "[..5] == "hello";
  }

  lemma ScanHelloWorld()
    ensures Scan("hello world") == Scanner(["hello"], "world")
  {
    ScanHelloSpace();
    assert Plain("world");
    ScanPlainSuffix("hello ", "world");
    assert "hello " + "world" == "hello world";
    assert "" + "world" == "world";
  }

  lemma HelloWorldTokens()
    ensures SimpleTokens("hello world") == ["hello", "world"]
  {
    ScanHelloWorld();
  }

  /** The library's test: after training on "hello world" and "world peace", "hello world" decodes back from its encoding. */
  lemma HelloWorldRoundTrip(w: Vocab)
    requires w == InsertAll(InitialVocab(), TextTokens(["hello world", "world peace"]))
    ensures Bos in w.toId && Unk in w.toId && Eos in w.toId
    ensures WordDecode(w.toStr, [w.toId[Bos]] + Lookup(w.toId, w.toId[Unk], SimpleTokens("hello world")) + [w.toId[Eos]])
      == "hello world"
  {
    InitialVocabShape();
    TrainedWordRoundTrip(InitialVocab(), ["hello world", "world peace"], 0, w);
    HelloWorldJoin();
  }

  lemma HelloWorldJoin()
    ensures Join(SimpleTokens("hello world"), " ") == "hello world"
  {
    HelloWorldTokens();
    assert Join(["hello", "world"], " ") == "hello" + " " + "world";
  }

  // ---------------------------------------------------------------------------
  // The simplified byte-pair encoder
  // ---------------------------------------------------------------------------

  /** The lower-cased words of the texts, text after text. */
  function LoweredWords(texts: seq<string>): seq<string> {
    if texts == [] then [] else LoweredWords(texts[..|texts| - 1]) + LowerEach(Words(texts[|texts| - 1]))
  }

  /** The one-character tokens of the words, in their order. */
  function CharTokens(ws: seq<string>): seq<string> {
    if ws == [] then [] else CharTokens(ws[..|ws| - 1]) + CharWord(ws[|ws| - 1])
  }

  /** `*word_freqs.entry(word).or_insert(0) += 1` */
  function Bump(m: map<string, nat>, w: string): map<string, nat> {
    m[w := Get(m, w) + 1]
  }

  /** The frequency map of `*word_freqs.entry(word).or_insert(0) += 1` over the words in order. */
  function StringCounts(ws: seq<string>): map<string, nat> {
    if ws == [] then map[]
    else
      var m := StringCounts(ws[..|ws| - 1]);
      Bump(m, ws[|ws| - 1])
  }

  /** Each word of the list is a key, counted as often as it occurs. */
  lemma {:induction false} StringCountsMeaning(ws: seq<string>)
    ensures forall w :: w in StringCounts(ws) <==> w in ws
    ensures forall w :: Get(StringCounts(ws), w) == multiset(ws)[w]
    decreases |ws|
  {
    if ws != [] {
      var init := ws[..|ws| - 1];
      StringCountsMeaning(init);
      assert ws == init + [ws[|ws| - 1]];
    }
  }

  lemma {:induction false} CharTokensCover(ws: seq<string>, k: nat)
    requires k < |ws|
    ensures forall i :: 0 <= i < |ws[k]| ==> [ws[k][i]] in CharTokens(ws)
    decreases |ws|
  {
    if k < |ws| - 1 {
      CharTokensCover(ws[..|ws| - 1], k);
    } else {
      forall i | 0 <= i < |ws[k]| ensures [ws[k][i]] in CharTokens(ws) {
        assert CharWord(ws[k])[i] == [ws[k][i]];
      }
    }
  }

  lemma {:induction false} LoweredWordsCover(texts: seq<string>, j: nat, k: nat)
    requires j < |texts| && k < |Words(texts[j])|
    ensures LowerAll(Words(texts[j])[k]) in LoweredWords(texts)
    decreases |texts|
  {
    if j < |texts| - 1 {
      LoweredWordsCover(texts[..|texts| - 1], j, k);
    } else {
      assert LowerEach(Words(texts[j]))[k] == LowerAll(Words(texts[j])[k]);
    }
  }

  /**
   * The library's test of the simplified encoder: as soon as one training
   * text has a word, its characters are new one-character tokens, so the
   * trained vocabulary has more than the four special tokens.
   */
  lemma BpeVocabGrows(texts: seq<string>, j: nat, k: nat, learned: seq<Pair>)
    requires j < |texts| && k < |Words(texts[j])|
    ensures |InsertAll(InitialVocab(), CharTokens(LoweredWords(texts)) + Spellings(learned)).toId| > 4
  {
    var ws := LoweredWords(texts);
    LoweredWordsCover(texts, j, k);
    WordsAreWords(texts[j]);
    var w := LowerAll(Words(texts[j])[k]);
    var m :| 0 <= m < |ws| && ws[m] == w;
    CharTokensCover(ws, m);
    var c := [w[0]];
    assert c in CharTokens(ws) + Spellings(learned);
    InitialVocabShape();
    assert c !in InitialVocab().toId by {
      assert |c| == 1 && |Pad| == |Unk| == |Bos| == |Eos| == 5;
    }
    InsertAllKeepsBijective(InitialVocab(), CharTokens(ws) + Spellings(learned));
  }

  /** A rule of the simplified encoder: two one-character strings. */
  predicate CharPair(p: Pair) {
    |p.0| == 1 && |p.1| == 1
  }

  class SimpleBpeTokenizer {
    var vocab: map<string, nat>
    var reverseVocab: map<nat, string>
    var merges: seq<Pair>
    var nextId: nat

    function Current(): Vocab
      reads this
    {
      Vocab(vocab, reverseVocab)
    }

    ghost predicate Dense()
      reads this
    {
      Bijective(Current()) && nextId == |vocab|
    }

    /** The maps are inverse, the specials are present and every rule joins two characters. */
    ghost predicate Valid()
      reads this
    {
      Dense() && Pad in vocab && Unk in vocab && Bos in vocab && Eos in vocab
      && forall k :: 0 <= k < |merges| ==> CharPair(merges[k])
    }

    /** `new`: the four special tokens at ids 0 to 3 and no rules. */
    constructor ()
      ensures Valid() && Current() == InitialVocab() && nextId == 4 && merges == []
    {
      vocab := map[];
      reverseVocab := map[];
      merges := [];
      nextId := 0;
      new;
      AddSpecialTokens();
      SpecialsInserted();
      InitialVocabSize();
    }

    method AddSpecialTokens()
      requires Dense()
      modifies this
      ensures Dense() && Current() == InsertAll(old(Current()), Specials) && merges == old(merges)
    {
      ghost var merges0 := merges;
      ghost var v0 := Current();
      var i := 0;
      while i < |Specials|
        invariant 0 <= i <= |Specials| && Dense() && Current() == InsertAll(v0, Specials[..i]) && merges == merges0
      {
        assert Specials[..i + 1][..i] == Specials[..i];
        var _ := AddToken(Specials[i]);
        i := i + 1;
      }
      assert Specials[..i] == Specials;
    }

    /** `add_token`, as in the word tokenizer. */
    method AddToken(token: string) returns (id: nat)
      requires Dense()
      modifies this
      ensures Dense() && Current() == Insert(old(Current()), token) && merges == old(merges)
      ensures token in vocab && id == vocab[token]
      ensures token in old(vocab) ==> id == old(vocab[token])
      ensures token !in old(vocab) ==> id == old(nextId)
    {
      if token in vocab {
        return vocab[token];
      }
      RegisterKeepsBijective(Current(), token);
      id := nextId;
      vocab := vocab[token := id];
      reverseVocab := reverseVocab[id := token];
      nextId := nextId + 1;
    }

    /**
     * `find_best_pair`: the character pairs of the words weighted by their
     * counts, and one of maximal weight (ties follow the map's order), as a
     * pair of one-character strings; none when no word has two characters.
     */
    method FindBestPair(wordFreqs: map<string, nat>) returns (best: Option<Pair>)
      ensures best.None? <==> forall w :: w in wordFreqs ==> |w| <= 1
      ensures best.Some? ==> CharPair(best.value) && MaxPair(wordFreqs, (best.value.0[0], best.value.1[0]))
    {
      var pairFreqs := CountPairs(wordFreqs);
      if pairFreqs == map[] {
        LongWordsHavePairs(wordFreqs);
        return None;
      }
      var p := MaxByValue(pairFreqs);
      best := Some(([p.0], [p.1]));
      var w := CountWitness(wordFreqs, p);
      assert |w| >= 2;
    }

    /**
     * `update_word_freqs`: every word with `left ++ right` replaced by
     * `merged`, keeping its count (a later word spelled the same overwrites).
     * Training passes `merged == left ++ right`, so the map comes back unchanged.
     */
    method UpdateWordFreqs(wordFreqs: map<string, nat>, left: string, right: string, merged: string)
      returns (newFreqs: map<string, nat>)
      ensures merged == left + right ==> newFreqs == wordFreqs
      ensures merged != left + right ==> newFreqs.Keys == (set w | w in wordFreqs :: Replace(w, left + right, merged))
      ensures merged != left + right ==> forall u :: u in newFreqs ==>
        exists w :: w in wordFreqs && Replace(w, left + right, merged) == u && newFreqs[u] == wordFreqs[w]
    {
      var pattern := left + right;
      newFreqs := map[];
      var rest := wordFreqs.Keys;
      while rest != {}
        invariant rest <= wordFreqs.Keys
        invariant merged == pattern ==> newFreqs.Keys == wordFreqs.Keys - rest && forall w :: w in newFreqs ==> newFreqs[w] == wordFreqs[w]
        invariant merged != pattern ==> newFreqs.Keys == (set w | w in wordFreqs && w !in rest :: Replace(w, pattern, merged))
        invariant merged != pattern ==> forall u :: u in newFreqs ==>
          exists w :: w in wordFreqs && w !in rest && Replace(w, pattern, merged) == u && newFreqs[u] == wordFreqs[w]
        decreases rest
      {
        var word :| word in rest;
        var newWord := Replace(word, pattern, merged);
        if merged == pattern {
          ReplaceSelf(word, pattern);
        }
        newFreqs := newFreqs[newWord := wordFreqs[word]];
        rest := rest - {word};
      }
    }

    /**
     * `train`: count the lower-cased words and insert their characters, then
     * up to `num_merges` times take a most frequent character pair, insert
     * its concatenation and append the rule; stop early when no word has two
     * characters. The ghost results are the word counts and the rules learned.
     */
    method Train(texts: seq<string>, numMerges: nat) returns (ghost wordFreqs: map<string, nat>, ghost learned: seq<Pair>)
      requires Valid()
      modifies this
      ensures Valid() && merges == old(merges) + learned
      ensures wordFreqs == StringCounts(LoweredWords(texts))
      ensures Current() == InsertAll(old(Current()), CharTokens(LoweredWords(texts)) + Spellings(learned))
      ensures |learned| <= numMerges
      ensures forall k :: 0 <= k < |learned| ==> CharPair(learned[k]) && MaxPair(wordFreqs, (learned[k].0[0], learned[k].1[0]))
      ensures |learned| < numMerges ==> forall w :: w in wordFreqs ==> |w| <= 1
    {
      ghost var v0 := Current();
      var freqs := InitializeAlphabet(texts);
      wordFreqs := freqs;
      learned := RunMerges(freqs, numMerges);
      InsertAllAppend(v0, CharTokens(LoweredWords(texts)), Spellings(learned));
    }

    /** The first phase of `train`: count the lower-cased words and insert every character. */
    method InitializeAlphabet(texts: seq<string>) returns (freqs: map<string, nat>)
      requires Valid()
      modifies this
      ensures Valid() && merges == old(merges)
      ensures freqs == StringCounts(LoweredWords(texts))
      ensures Current() == InsertAll(old(Current()), CharTokens(LoweredWords(texts)))
    {
      ghost var merges0 := merges;
      ghost var v0 := Current();
      freqs := map[];
      ghost var seen: seq<string> := [];
      var j := 0;
      while j < |texts|
        invariant 0 <= j <= |texts| && seen == LoweredWords(texts[..j])
        invariant Valid() && merges == merges0
        invariant freqs == StringCounts(seen) && Current() == InsertAll(v0, CharTokens(seen))
      {
        var ws := Words(texts[j]);
        ghost var before := seen;
        freqs := AddWords(ws, freqs, v0, before);
        seen := before + LowerEach(ws);
        LoweredWordsSnoc(texts, j);
        j := j + 1;
      }
      assert texts[..j] == texts;
    }

    /** The inner loop of the first phase of `train`: the words of one text counted and spelled out. */
    method AddWords(ws: seq<string>, freqs0: map<string, nat>, ghost v0: Vocab, ghost before: seq<string>)
        returns (freqs: map<string, nat>)
      requires Valid() && freqs0 == StringCounts(before) && Current() == InsertAll(v0, CharTokens(before))
      modifies this
      ensures Valid() && merges == old(merges)
      ensures freqs == StringCounts(before + LowerEach(ws))
      ensures Current() == InsertAll(v0, CharTokens(before + LowerEach(ws)))
    {
      ghost var merges0 := merges;
      freqs := freqs0;
      SeenNone(before, ws);
      var k := 0;
      while k < |ws|
        invariant 0 <= k <= |ws| && Valid() && merges == merges0
        invariant freqs == StringCounts(Seen(before, ws, k))
        invariant Current() == InsertAll(v0, CharTokens(Seen(before, ws, k)))
      {
        var word := LowerAll(ws[k]);
        WordsSnoc(before, ws, k);
        freqs := Bump(freqs, word);
        InsertChars(word, v0, CharTokens(Seen(before, ws, k)));
        k := k + 1;
      }
      SeenAll(before, ws);
    }

    /** `for ch in word.chars() { self.add_token(ch.to_string()) }` */
    method InsertChars(word: string, ghost v0: Vocab, ghost chars: seq<string>)
      requires Valid() && Current() == InsertAll(v0, chars)
      modifies this
      ensures Valid() && merges == old(merges) && Current() == InsertAll(v0, chars + CharWord(word))
    {
      ghost var merges0 := merges;
      assert chars + CharWord(word)[..0] == chars;
      var i := 0;
      while i < |word|
        invariant 0 <= i <= |word| && Valid() && merges == merges0
        invariant Current() == InsertAll(v0, chars + CharWord(word)[..i])
      {
        PrefixStep(v0, chars, CharWord(word), i);
        var _ := AddToken([word[i]]);
        i := i + 1;
      }
      assert CharWord(word)[..i] == CharWord(word);
    }

    /** The merge phase of `train`; the word map it works on never changes. */
    method RunMerges(freqs0: map<string, nat>, numMerges: nat) returns (ghost learned: seq<Pair>)
      requires Valid()
      modifies this
      ensures Valid() && merges == old(merges) + learned
      ensures Current() == InsertAll(old(Current()), Spellings(learned))
      ensures |learned| <= numMerges
      ensures forall k :: 0 <= k < |learned| ==> CharPair(learned[k]) && MaxPair(freqs0, (learned[k].0[0], learned[k].1[0]))
      ensures |learned| < numMerges ==> forall w :: w in freqs0 ==> |w| <= 1
    {
      ghost var merges0 := merges;
      ghost var v1 := Current();
      var freqs := freqs0;
      learned := [];
      var step := 0;
      while step < numMerges
        invariant 0 <= step <= numMerges && |learned| == step && freqs == freqs0
        invariant Valid() && merges == merges0 + learned
        invariant Current() == InsertAll(v1, Spellings(learned))
        invariant forall k :: 0 <= k < |learned| ==> CharPair(learned[k]) && MaxPair(freqs0, (learned[k].0[0], learned[k].1[0]))
      {
        var bestPair := FindBestPair(freqs);
        if bestPair.None? {
          break;
        }
        var (left, right) := bestPair.value;
        var merged := left + right;
        SpellingsAppend(learned, (left, right));
        InsertAllSnoc(v1, Spellings(learned), merged);
        AppendAssoc(old(merges), learned, [(left, right)]);
        AddRule(left, right);
        learned := learned + [(left, right)];
        freqs := UpdateWordFreqs(freqs, left, right, merged);
        step := step + 1;
      }
    }

    /** `self.add_token(merged)` and `self.merges.push((left, right))`. */
    method AddRule(left: string, right: string)
      requires Valid() && CharPair((left, right))
      modifies this
      ensures Valid() && Current() == Insert(old(Current()), left + right) && merges == old(merges) + [(left, right)]
    {
      var _ := AddToken(left + right);
      merges := merges + [(left, right)];
    }

    /**
     * `apply_bpe`: the characters of the word, then each rule applied in
     * place in learned order. The text is kept and the vector never grows;
     * with non-empty right symbols this is exactly the library's merging.
     */
    method ApplyBpe(word: string) returns (tokens: Word)
      ensures Flatten(tokens) == word && |tokens| <= |word|
      ensures (forall k :: 0 <= k < |merges| ==> merges[k].1 != []) ==> tokens == Tokens(word, merges)
    {
      tokens := CharWord(word);
      CharWordSpelling(word);
      var k := 0;
      while k < |merges|
        invariant 0 <= k <= |merges| && Flatten(tokens) == word && |tokens| <= |word|
        invariant (forall m :: 0 <= m < |merges| ==> merges[m].1 != []) ==> tokens == ApplyMerges(CharWord(word), merges[..k])
      {
        assert merges[..k + 1][..k] == merges[..k];
        tokens := MergeInPlace(tokens, merges[k]);
        k := k + 1;
      }
      assert merges[..k] == merges;
    }

    /** `encode`: the library encoder's output for the lower-cased text. */
    method Encode(text: string) returns (ids: seq<nat>)
      requires Valid()
      ensures ids == EncodeIds(vocab, merges, LowerAll(text))
    {
      var unk := vocab[Unk];
      ids := [vocab[Bos]];
      var ws := Words(text);
      WordsLower(text);
      var i := 0;
      while i < |ws|
        invariant 0 <= i <= |ws| && ids == [vocab[Bos]] + EncodeWords(vocab, unk, merges, LowerEach(ws)[..i])
      {
        var word := LowerAll(ws[i]);
        var tokens := ApplyBpe(word);
        assert LowerEach(ws)[..i + 1][..i] == LowerEach(ws)[..i];
        assert LowerEach(ws)[i] == word;
        ids := ids + Lookup(vocab, unk, tokens);
        i := i + 1;
      }
      assert LowerEach(ws)[..i] == LowerEach(ws);
      ids := ids + [vocab[Eos]];
    }
  }

  /** The words counted once the first `k` of `ws` are lower-cased after `before`. */
  ghost function Seen(before: seq<string>, ws: seq<string>, k: nat): seq<string>
    requires k <= |ws|
  {
    before + LowerEach(ws[..k])
  }

  lemma SeenNone(before: seq<string>, ws: seq<string>)
    ensures Seen(before, ws, 0) == before
  {
    assert ws[..0] == [];
  }

  lemma SeenAll(before: seq<string>, ws: seq<string>)
    ensures Seen(before, ws, |ws|) == before + LowerEach(ws)
  {
    assert ws[..|ws|] == ws;
  }

  /** One more word counted and spelled out, as the recursive definitions unfold. */
  lemma WordsSnoc(before: seq<string>, ws: seq<string>, k: nat)
    requires k < |ws|
    ensures StringCounts(Seen(before, ws, k + 1)) == Bump(StringCounts(Seen(before, ws, k)), LowerAll(ws[k]))
    ensures CharTokens(Seen(before, ws, k + 1)) == CharTokens(Seen(before, ws, k)) + CharWord(LowerAll(ws[k]))
  {
    var seen := Seen(before, ws, k);
    assert LowerEach(ws[..k + 1]) == LowerEach(ws[..k]) + [LowerAll(ws[k])];
    assert Seen(before, ws, k + 1) == seen + [LowerAll(ws[k])];
    assert (seen + [LowerAll(ws[k])])[..|seen|] == seen;
  }

  lemma LoweredWordsSnoc(texts: seq<string>, j: nat)
    requires j < |texts|
    ensures LoweredWords(texts[..j + 1]) == LoweredWords(texts[..j]) + LowerEach(Words(texts[j]))
  {
    assert texts[..j + 1][..j] == texts[..j];
  }

  lemma {:induction false} InsertAllAppend(v: Vocab, a: seq<string>, b: seq<string>)
    ensures InsertAll(InsertAll(v, a), b) == InsertAll(v, a + b)
    decreases |b|
  {
    if b == [] {
      assert a + b == a;
    } else {
      var b' := b[..|b| - 1];
      assert (a + b)[..|a + b| - 1] == a + b';
      assert (a + b)[|a + b| - 1] == b[|b| - 1];
      InsertAllAppend(v, a, b');
    }
  }
}
