/**
 * The library's byte-pair-encoding tokenizer (`BPETokenizer` in
 * src/tokenizer.rs): training on a corpus, encoding framed by BOS and EOS
 * with UNK as fallback, and decoding that drops every token shaped `<...>`.
 */
module Tokenizer {
  import opened Seqs
  import opened Text
  import opened Merging

  const Pad: string := "<PAD>"
  const Unk: string := "<UNK>"
  const Bos: string := "<BOS>"
  const Eos: string := "<EOS>"

  /** The vocabulary built by `new`: the four special tokens at ids 0 to 3. */
  function InitialVocab(): Vocab {
    Vocab(map[Pad := 0, Unk := 1, Bos := 2, Eos := 3], map[0 := Pad, 1 := Unk, 2 := Bos, 3 := Eos])
  }

  /** The special tokens still have the ids `new` gave them. */
  ghost predicate SpecialsFixed(m: map<string, nat>) {
    Pad in m && Unk in m && Bos in m && Eos in m
    && m[Pad] == 0 && m[Unk] == 1 && m[Bos] == 2 && m[Eos] == 3
  }

  /** `token.starts_with('<') && token.ends_with('>')`: the tokens decode drops. */
  predicate Bracketed(s: string) {
    |s| > 0 && s[0] == '<' && s[|s| - 1] == '>'
  }

  /** The symbols of one word once every merge rule has been applied, in learned order. */
  function Tokens(word: string, merges: seq<Pair>): Word {
    ApplyMerges(CharWord(word), merges)
  }

  /** `vocab.get(&token).unwrap_or(&vocab["<UNK>"])` for every symbol. */
  function Lookup(vocab: map<string, nat>, unk: nat, syms: Word): seq<nat> {
    seq(|syms|, i requires 0 <= i < |syms| => if syms[i] in vocab then vocab[syms[i]] else unk)
  }

  /** The ids of the words of a text, one word after the other. */
  function EncodeWords(vocab: map<string, nat>, unk: nat, merges: seq<Pair>, ws: seq<string>): seq<nat> {
    if ws == [] then []
    else EncodeWords(vocab, unk, merges, ws[..|ws| - 1]) + Lookup(vocab, unk, Tokens(ws[|ws| - 1], merges))
  }

  /** What `encode` returns. */
  function EncodeIds(vocab: map<string, nat>, merges: seq<Pair>, text: string): seq<nat>
    requires Bos in vocab && Unk in vocab && Eos in vocab
  {
    [vocab[Bos]] + EncodeWords(vocab, vocab[Unk], merges, Words(text)) + [vocab[Eos]]
  }

  /** The text one id contributes to `decode`. */
  function Piece(rev: map<nat, string>, id: nat): string {
    if id in rev && !Bracketed(rev[id]) then rev[id] else []
  }

  /** What `decode` returns. */
  function DecodeIds(rev: map<nat, string>, ids: seq<nat>): string {
    if ids == [] then [] else DecodeIds(rev, ids[..|ids| - 1]) + Piece(rev, ids[|ids| - 1])
  }

  // ---------------------------------------------------------------------------
  // Properties of the vocabulary
  // ---------------------------------------------------------------------------

  /** The four special strings differ in their second character. */
  lemma SpecialsDistinct()
    ensures Pad != Unk && Pad != Bos && Pad != Eos && Unk != Bos && Unk != Eos && Bos != Eos
  {
    assert Pad[1] != Unk[1] && Pad[1] != Bos[1] && Pad[1] != Eos[1];
    assert Unk[1] != Bos[1] && Unk[1] != Eos[1] && Bos[1] != Eos[1];
  }

  lemma InitialVocabSize()
    ensures |InitialVocab().toId| == 4
  {
    SpecialsDistinct();
    var m := InitialVocab().toId;
    assert m.Keys == {Pad, Unk, Bos, Eos};
    assert |{Pad, Unk, Bos, Eos}| == 4;
  }

  lemma InitialVocabInverse()
    ensures forall s :: s in InitialVocab().toId ==>
      InitialVocab().toId[s] in InitialVocab().toStr && InitialVocab().toStr[InitialVocab().toId[s]] == s
    ensures forall i :: i in InitialVocab().toStr ==>
      InitialVocab().toStr[i] in InitialVocab().toId && InitialVocab().toId[InitialVocab().toStr[i]] == i
  {
    SpecialsDistinct();
  }

  /** `new` gives a dense, exactly inverted vocabulary of four special tokens, all of the form `<...>`. */
  lemma InitialVocabShape()
    ensures Bijective(InitialVocab()) && |InitialVocab().toId| == 4 && SpecialsFixed(InitialVocab().toId)
    ensures forall s :: s in InitialVocab().toId ==> Bracketed(s)
  {
    InitialVocabSize();
    InitialVocabInverse();
    InitialVocabDense();
    InitialVocabBracketed();
  }

  lemma InitialVocabDense()
    ensures forall i: nat :: i in InitialVocab().toStr <==> i < 4
  {
  }

  lemma InitialVocabBracketed()
    ensures forall s :: s in InitialVocab().toId ==> Bracketed(s)
  {
    assert Bracketed(Pad) && Bracketed(Unk) && Bracketed(Bos) && Bracketed(Eos);
  }

  /** Registering only strings that are new never moves a special token. */
  lemma FreshKeepsSpecials(v: Vocab, ss: seq<string>)
    requires SpecialsFixed(v.toId) && AllFresh(v, ss)
    ensures SpecialsFixed(RegisterAll(v, ss).toId)
  {
    AllFreshAvoidsOld(v, ss);
    RegisterAllKeepsOthers(v, ss, Pad);
    RegisterAllKeepsOthers(v, ss, Unk);
    RegisterAllKeepsOthers(v, ss, Bos);
    RegisterAllKeepsOthers(v, ss, Eos);
  }

  // ---------------------------------------------------------------------------
  // Properties of encode and decode
  // ---------------------------------------------------------------------------

  lemma LookupAppend(vocab: map<string, nat>, unk: nat, a: Word, b: Word)
    ensures Lookup(vocab, unk, a + b) == Lookup(vocab, unk, a) + Lookup(vocab, unk, b)
  {
  }

  /** Every id of the encoded words is an id of the vocabulary or the unknown id. */
  lemma {:induction false} EncodeWordsIds(vocab: map<string, nat>, unk: nat, merges: seq<Pair>, ws: seq<string>)
    ensures forall i :: 0 <= i < |EncodeWords(vocab, unk, merges, ws)| ==>
      EncodeWords(vocab, unk, merges, ws)[i] in vocab.Values || EncodeWords(vocab, unk, merges, ws)[i] == unk
    decreases |ws|
  {
    if ws != [] {
      EncodeWordsIds(vocab, unk, merges, ws[..|ws| - 1]);
    }
  }

  /**
   * `encode` is framed by the ids of `<BOS>` and `<EOS>`, every id is a
   * vocabulary id, the blank text gives the frame alone, and with the
   * special ids of `new` the frame is 2 ... 3.
   */
  lemma EncodeFraming(vocab: map<string, nat>, merges: seq<Pair>, text: string)
    requires Bos in vocab && Unk in vocab && Eos in vocab
    ensures var ids := EncodeIds(vocab, merges, text);
      |ids| >= 2 && ids[0] == vocab[Bos] && ids[|ids| - 1] == vocab[Eos]
      && (forall i :: 0 <= i < |ids| ==> ids[i] in vocab.Values)
    ensures SpecialsFixed(vocab) ==>
      EncodeIds(vocab, merges, text)[0] == 2 && EncodeIds(vocab, merges, text)[|EncodeIds(vocab, merges, text)| - 1] == 3
    ensures Words(text) == [] ==> EncodeIds(vocab, merges, text) == [vocab[Bos], vocab[Eos]]
  {
    var ws := EncodeWords(vocab, vocab[Unk], merges, Words(text));
    EncodeWordsIds(vocab, vocab[Unk], merges, Words(text));
    var ids := EncodeIds(vocab, merges, text);
    assert ids == [vocab[Bos]] + ws + [vocab[Eos]];
    forall i | 0 <= i < |ids| ensures ids[i] in vocab.Values {
      if 0 < i < |ids| - 1 {
        assert ids[i] == ws[i - 1];
      }
    }
  }

  /** Decoding distributes over concatenation. */
  lemma {:induction false} DecodeAppend(rev: map<nat, string>, a: seq<nat>, b: seq<nat>)
    ensures DecodeIds(rev, a + b) == DecodeIds(rev, a) + DecodeIds(rev, b)
    decreases |b|
  {
    if b == [] {
      assert a + b == a;
    } else {
      var init := b[..|b| - 1];
      assert (a + b)[..|a + b| - 1] == a + init;
      DecodeAppend(rev, a, init);
    }
  }

  /** Ids that are unknown or name a bracketed token decode to nothing. */
  lemma {:induction false} DecodeSilent(rev: map<nat, string>, ids: seq<nat>)
    requires forall i :: 0 <= i < |ids| ==> ids[i] !in rev || Bracketed(rev[ids[i]])
    ensures DecodeIds(rev, ids) == []
    decreases |ids|
  {
    if ids != [] {
      DecodeSilent(rev, ids[..|ids| - 1]);
    }
  }

  /** With the vocabulary of `new`: BOS and EOS decode to nothing, and so does UNK. */
  lemma DecodeSpecials()
    ensures DecodeIds(InitialVocab().toStr, [2, 3]) == []
    ensures DecodeIds(InitialVocab().toStr, [1]) == []
  {
    DecodeSilent(InitialVocab().toStr, [2, 3]);
    DecodeSilent(InitialVocab().toStr, [1]);
  }

  /** Looking up symbols that are all known, unbracketed tokens and decoding them gives their text. */
  lemma {:induction false} DecodeLookup(v: Vocab, syms: Word)
    requires forall s :: s in v.toId ==> v.toId[s] in v.toStr && v.toStr[v.toId[s]] == s
    requires forall s :: s in syms ==> s in v.toId && !Bracketed(s)
    ensures DecodeIds(v.toStr, Lookup(v.toId, 0, syms)) == Flatten(syms)
    decreases |syms|
  {
    if syms != [] {
      var init, last := syms[..|syms| - 1], syms[|syms| - 1];
      assert syms == init + [last];
      LookupAppend(v.toId, 0, init, [last]);
      DecodeLookup(v, init);
      DecodeAppend(v.toStr, Lookup(v.toId, 0, init), Lookup(v.toId, 0, [last]));
      assert DecodeIds(v.toStr, Lookup(v.toId, 0, [last])) == last by {
        assert Lookup(v.toId, 0, [last]) == [v.toId[last]];
        assert [v.toId[last]][..0] == [];
      }
      FlattenAppend(init, [last]);
      assert Flatten([last]) == last by { assert [last][1..] == []; }
    }
  }

  /** Lookup with known symbols does not depend on the fallback id. */
  lemma LookupKnown(vocab: map<string, nat>, unk: nat, syms: Word)
    requires forall s :: s in syms ==> s in vocab
    ensures Lookup(vocab, unk, syms) == Lookup(vocab, 0, syms)
  {
  }

  /**
   * The symbols of a word from the text are known, unbracketed tokens when
   * every character of the text and every merge result is.
   */
  lemma TokensKnown(v: Vocab, merges: seq<Pair>, t: string, w: string)
    requires forall c :: c in t && !IsWhitespace(c) ==> [c] in v.toId
    requires forall s :: s in Spellings(merges) ==> s in v.toId && !Bracketed(s)
    requires forall c :: c in w ==> c in t && !IsWhitespace(c)
    ensures forall s :: s in Tokens(w, merges) ==> s in v.toId && !Bracketed(s)
    ensures Flatten(Tokens(w, merges)) == w
  {
    ApplyMergesSymbols(CharWord(w), merges);
    ApplyMergesSpelling(CharWord(w), merges);
    CharWordSpelling(w);
    CharWordSymbols(w);
    forall s | s in CharWord(w) ensures s in v.toId && !Bracketed(s) {
      var k :| 0 <= k < |CharWord(w)| && CharWord(w)[k] == s;
      assert s == [w[k]];
    }
  }

  /** Encoding then decoding the words of a text gives their characters, in order. */
  lemma {:induction false} DecodeEncodeWords(v: Vocab, merges: seq<Pair>, t: string, ws: seq<string>)
    requires forall s :: s in v.toId ==> v.toId[s] in v.toStr && v.toStr[v.toId[s]] == s
    requires forall c :: c in t && !IsWhitespace(c) ==> [c] in v.toId
    requires forall s :: s in Spellings(merges) ==> s in v.toId && !Bracketed(s)
    requires forall i, j :: 0 <= i < |ws| && 0 <= j < |ws[i]| ==> ws[i][j] in t && !IsWhitespace(ws[i][j])
    ensures forall unk: nat :: DecodeIds(v.toStr, EncodeWords(v.toId, unk, merges, ws)) == Flatten(ws)
    decreases |ws|
  {
    if ws != [] {
      var init, last := ws[..|ws| - 1], ws[|ws| - 1];
      DecodeEncodeWords(v, merges, t, init);
      TokensKnown(v, merges, t, last);
      LookupKnownAll(v, merges, last);
      DecodeLookup(v, Tokens(last, merges));
      assert ws == init + [last];
      FlattenAppend(init, [last]);
      assert Flatten([last]) == last by { assert [last][1..] == []; }
      forall unk: nat ensures DecodeIds(v.toStr, EncodeWords(v.toId, unk, merges, ws)) == Flatten(ws) {
        var a, b := EncodeWords(v.toId, unk, merges, init), Lookup(v.toId, unk, Tokens(last, merges));
        assert EncodeWords(v.toId, unk, merges, ws) == a + b;
        DecodeAppend(v.toStr, a, b);
      }
    }
  }

  lemma LookupKnownAll(v: Vocab, merges: seq<Pair>, w: string)
    requires forall s :: s in Tokens(w, merges) ==> s in v.toId
    ensures forall unk: nat :: Lookup(v.toId, unk, Tokens(w, merges)) == Lookup(v.toId, 0, Tokens(w, merges))
  {
  }

  /**
   * The round trip: when the two maps invert each other, every character of
   * the text and every merge result is a token, and no merge result has the
   * form `<...>`, decoding the encoding gives the text without its whitespace.
   */
  lemma RoundTrip(v: Vocab, merges: seq<Pair>, t: string)
    requires forall s :: s in v.toId ==> v.toId[s] in v.toStr && v.toStr[v.toId[s]] == s
    requires Bos in v.toId && Unk in v.toId && Eos in v.toId
    requires forall c :: c in t && !IsWhitespace(c) ==> [c] in v.toId
    requires forall s :: s in Spellings(merges) ==> s in v.toId && !Bracketed(s)
    ensures DecodeIds(v.toStr, EncodeIds(v.toId, merges, t)) == RemoveWhitespace(t)
  {
    var ws := Words(t);
    WordChars(t);
    DecodeEncodeWords(v, merges, t, ws);
    var body := EncodeWords(v.toId, v.toId[Unk], merges, ws);
    DecodeAppend(v.toStr, [v.toId[Bos]] + body, [v.toId[Eos]]);
    DecodeAppend(v.toStr, [v.toId[Bos]], body);
    DecodeSilent(v.toStr, [v.toId[Bos]]);
    DecodeSilent(v.toStr, [v.toId[Eos]]);
    FlattenWords(t);
  }

  /**
   * Training on a fresh tokenizer, then encoding any text whose characters
   * all occur in the corpus, decodes to that text without its whitespace,
   * provided every learned token was new when registered and none has the
   * form `<...>`.
   */
  lemma TrainedRoundTrip(corpus: string, t: string, baseOrder: seq<string>, learned: seq<Pair>)
    requires AllFresh(InitialVocab(), baseOrder + Spellings(learned))
    requires forall c :: c in corpus && !IsWhitespace(c) ==> [c] in RegisterAll(InitialVocab(), baseOrder).toId
    requires forall c :: c in t ==> c in corpus
    requires forall s :: s in Spellings(learned) ==> !Bracketed(s)
    ensures var v := RegisterAll(InitialVocab(), baseOrder + Spellings(learned));
      Bos in v.toId && Unk in v.toId && Eos in v.toId
      && DecodeIds(v.toStr, EncodeIds(v.toId, learned, t)) == RemoveWhitespace(t)
  {
    var all := baseOrder + Spellings(learned);
    var base := RegisterAll(InitialVocab(), baseOrder);
    var v := RegisterAll(InitialVocab(), all);
    InitialVocabShape();
    RegisterAllKeepsBijective(InitialVocab(), all);
    RegisterAllKeys(InitialVocab(), all);
    RegisterAllKeys(base, Spellings(learned));
    RegisterAllAppend(InitialVocab(), baseOrder, Spellings(learned));
    RoundTrip(v, learned, t);
  }

  // ---------------------------------------------------------------------------
  // The tokenizer object
  // ---------------------------------------------------------------------------

  class BpeTokenizer {
    var vocab: map<string, nat>
    var reverseVocab: map<nat, string>
    var merges: seq<Pair>
    /** The target size training stops at (the field `vocab_size`). */
    var vocabSize: nat

    function Current(): Vocab
      reads this
    {
      Vocab(vocab, reverseVocab)
    }

    /** Tokens are only ever inserted, so the special tokens that encode looks up stay present. */
    ghost predicate Valid()
      reads this
    {
      Pad in vocab && Unk in vocab && Bos in vocab && Eos in vocab
    }

    /** `new`: the four special tokens, their exact inverse, and no merges. */
    constructor (vocabSize: nat)
      ensures Current() == InitialVocab() && merges == [] && this.vocabSize == vocabSize
      ensures Valid()
    {
      var v := map[Pad := 0, Unk := 1, Bos := 2, Eos := 3];
      var rev: map<nat, string> := map[];
      var rest := v.Keys;
      SpecialsDistinct();
      while rest != {}
        invariant rest <= v.Keys
        invariant forall t :: t in v && t !in rest ==> v[t] in rev && rev[v[t]] == t
        invariant forall i :: i in rev ==> rev[i] in v && rev[i] !in rest && v[rev[i]] == i
        decreases rest
      {
        var t :| t in rest;
        rev := rev[v[t] := t];
        rest := rest - {t};
      }
      assert Pad !in rest && Unk !in rest && Bos !in rest && Eos !in rest;
      assert rev[0] == Pad && rev[1] == Unk && rev[2] == Bos && rev[3] == Eos;
      assert rev.Keys == {0, 1, 2, 3};
      assert rev == InitialVocab().toStr;
      this.vocab := v;
      this.reverseVocab := rev;
      this.merges := [];
      this.vocabSize := vocabSize;
    }

    /** `vocab_size()`: the number of tokens; when the maps are inverse, the ids are exactly 0 .. n-1. */
    function VocabSize(): (n: nat)
      reads this
      ensures Bijective(Current()) ==> forall i: nat :: i in reverseVocab <==> i < n
    {
      |vocab|
    }

    /** `is_eos_token`: with the special ids of `new`, exactly id 3. */
    function IsEosToken(token: nat): (r: bool)
      reads this
      requires Valid()
      ensures SpecialsFixed(vocab) ==> (r <==> token == 3)
    {
      token == vocab[Eos]
    }

    /** `get_word_frequencies`. */
    method GetWordFrequencies(text: string) returns (freqs: map<Word, nat>)
      ensures freqs == WordCounts(Words(text))
    {
      freqs := CountWords(text);
    }

    /**
     * `get_pair_frequencies`: each adjacent pair with its weighted number of
     * occurrences. Words are never empty here: `word.len() - 1` would
     * underflow on an empty one.
     */
    method GetPairFrequencies(wordFreqs: map<Word, nat>) returns (pairFreqs: map<Pair, nat>)
      requires forall w :: w in wordFreqs ==> w != []
      ensures forall p :: p in pairFreqs <==> Count(wordFreqs, p) > 0
      ensures forall p :: p in pairFreqs ==> pairFreqs[p] == Weight(wordFreqs, p)
    {
      pairFreqs := CountPairs(wordFreqs);
    }

    /** `apply_merge_to_word`: the scan that pushes the merged token and skips two, or pushes one. */
    method ApplyMergeToWord(word: Word, merge: Pair) returns (result: Word)
      ensures result == MergeWord(word, merge)
    {
      var merged := Joined(merge);
      result := [];
      var i := 0;
      while i < |word|
        invariant 0 <= i <= |word|
        invariant result + MergeWord(word[i..], merge) == MergeWord(word, merge)
      {
        MergeWordAt(word, i, merge);
        if i + 1 < |word| && word[i] == merge.0 && word[i + 1] == merge.1 {
          AppendAssoc(result, [merged], MergeWord(word[i + 2..], merge));
          result := result + [merged];
          i := i + 2;
        } else {
          AppendAssoc(result, [word[i]], MergeWord(word[i + 1..], merge));
          result := result + [word[i]];
          i := i + 1;
        }
      }
      assert word[i..] == [];
    }

    /**
     * `apply_merge`: every word merged, with its count. `insert` overwrites,
     * so two words that merge to the same word would keep one count; this
     * cannot happen when distinct words spell distinct strings.
     */
    method ApplyMerge(wordFreqs: map<Word, nat>, pair: Pair) returns (newFreqs: map<Word, nat>)
      ensures newFreqs.Keys == (set w | w in wordFreqs :: MergeWord(w, pair))
      ensures forall u :: u in newFreqs ==> exists w :: w in wordFreqs && MergeWord(w, pair) == u && newFreqs[u] == wordFreqs[w]
      ensures TextInjective(wordFreqs) ==> MergedFrom(wordFreqs, newFreqs, pair)
    {
      newFreqs := map[];
      var rest := wordFreqs.Keys;
      while rest != {}
        invariant rest <= wordFreqs.Keys
        invariant newFreqs.Keys == (set w | w in wordFreqs && w !in rest :: MergeWord(w, pair))
        invariant forall u :: u in newFreqs ==>
          exists w :: w in wordFreqs && w !in rest && MergeWord(w, pair) == u && newFreqs[u] == wordFreqs[w]
        invariant TextInjective(wordFreqs) ==>
          forall w :: w in wordFreqs && w !in rest ==> newFreqs[MergeWord(w, pair)] == wordFreqs[w]
        decreases rest
      {
        var word :| word in rest;
        var newWord := ApplyMergeToWord(word, pair);
        if TextInjective(wordFreqs) {
          forall w | w in wordFreqs && w !in rest && MergeWord(w, pair) == newWord ensures w == word {
            MergeInjective(wordFreqs, pair, w, word);
          }
        }
        newFreqs := newFreqs[newWord := wordFreqs[word]];
        rest := rest - {word};
      }
    }

    /** The loop of `encode` over the merge rules: each rule applied once, in learned order. */
    method ApplyAllMerges(word: Word) returns (chars: Word)
      ensures chars == ApplyMerges(word, merges)
    {
      chars := word;
      var k := 0;
      while k < |merges|
        invariant 0 <= k <= |merges| && chars == ApplyMerges(word, merges[..k])
      {
        assert merges[..k + 1][..k] == merges[..k];
        chars := ApplyMergeToWord(chars, merges[k]);
        k := k + 1;
      }
      assert merges[..k] == merges;
    }

    /** The loop of `encode` that pushes one id per symbol, UNK for an unknown one. */
    method LookupAll(ids: seq<nat>, chars: Word) returns (ids': seq<nat>)
      requires Valid()
      ensures ids' == ids + Lookup(vocab, vocab[Unk], chars)
    {
      ids' := ids;
      var j := 0;
      while j < |chars|
        invariant 0 <= j <= |chars| && ids' == ids + Lookup(vocab, vocab[Unk], chars[..j])
      {
        var id := if chars[j] in vocab then vocab[chars[j]] else vocab[Unk];
        assert chars[..j + 1] == chars[..j] + [chars[j]];
        LookupAppend(vocab, vocab[Unk], chars[..j], [chars[j]]);
        AppendAssoc(ids, Lookup(vocab, vocab[Unk], chars[..j]), [id]);
        ids' := ids' + [id];
        j := j + 1;
      }
      assert chars[..j] == chars;
    }

    /** `encode`: BOS, the ids of every word's merged symbols with UNK for unknown ones, EOS. */
    method Encode(text: string) returns (ids: seq<nat>)
      requires Valid()
      ensures ids == EncodeIds(vocab, merges, text)
    {
      var unk := vocab[Unk];
      ids := [vocab[Bos]];
      var ws := Words(text);
      var i := 0;
      while i < |ws|
        invariant 0 <= i <= |ws|
        invariant ids == [vocab[Bos]] + EncodeWords(vocab, unk, merges, ws[..i])
      {
        var chars := ApplyAllMerges(CharWord(ws[i]));
        ids := LookupAll(ids, chars);
        assert ws[..i + 1][..i] == ws[..i];
        AppendAssoc([vocab[Bos]], EncodeWords(vocab, unk, merges, ws[..i]), Lookup(vocab, unk, chars));
        i := i + 1;
      }
      assert ws[..i] == ws;
      ids := ids + [vocab[Eos]];
    }

    /** `decode`: the strings of known ids, skipping every token shaped `<...>`. */
    method Decode(tokens: seq<nat>) returns (text: string)
      ensures text == DecodeIds(reverseVocab, tokens)
    {
      text := [];
      var i := 0;
      while i < |tokens|
        invariant 0 <= i <= |tokens| && text == DecodeIds(reverseVocab, tokens[..i])
      {
        var id := tokens[i];
        assert tokens[..i + 1][..i] == tokens[..i];
        if id in reverseVocab {
          var token := reverseVocab[id];
          if !(|token| > 0 && token[0] == '<') || !(|token| > 0 && token[|token| - 1] == '>') {
            text := text + token;
          }
        }
        i := i + 1;
      }
      assert tokens[..i] == tokens;
    }
  
    /**
     * The first phase of `train`: every symbol of every word that is not yet
     * a token gets the next id, words visited in an unspecified order.
     */
    method RegisterAlphabet(wordFreqs: map<Word, nat>) returns (ghost added: seq<string>)
      requires Valid()
      modifies this
      ensures Valid() && merges == old(merges) && vocabSize == old(vocabSize)
      ensures Current() == RegisterAll(old(Current()), added) && AllFresh(old(Current()), added)
      ensures FromWords(added, wordFreqs)
      ensures forall w, k :: w in wordFreqs && 0 <= k < |w| ==> w[k] in vocab
    {
      ghost var merges0, vocabSize0 := merges, vocabSize;
      added := [];
      ghost var v0 := Current();
      var rest := wordFreqs.Keys;
      while rest != {}
        invariant rest <= wordFreqs.Keys
        invariant Valid() && merges == merges0 && vocabSize == vocabSize0
        invariant Current() == RegisterAll(v0, added) && AllFresh(v0, added)
        invariant FromWords(added, wordFreqs)
        invariant forall w, k :: w in wordFreqs && w !in rest && 0 <= k < |w| ==> w[k] in vocab
        decreases rest
      {
        var word :| word in rest;
        ghost var newSyms := RegisterSymbols(word, v0, added);
        FromWordsAppend(added, newSyms, wordFreqs, word);
        added := added + newSyms;
        rest := rest - {word};
      }
    }

    /** The inner loop of the alphabet phase: every symbol of `word` not yet in the vocabulary gets the next id. */
    method RegisterSymbols(word: Word, ghost v0: Vocab, ghost added: seq<string>) returns (ghost newSyms: seq<string>)
      requires Valid() && Current() == RegisterAll(v0, added) && AllFresh(v0, added)
      modifies this
      ensures Valid() && merges == old(merges) && vocabSize == old(vocabSize)
      ensures Current() == RegisterAll(v0, added + newSyms) && AllFresh(v0, added + newSyms)
      ensures forall i :: 0 <= i < |newSyms| ==> newSyms[i] in word
      ensures forall k :: 0 <= k < |word| ==> word[k] in vocab
      ensures forall s :: s in old(vocab) ==> s in vocab
    {
      ghost var merges0, vocabSize0, vocab0 := merges, vocabSize, vocab;
      newSyms := [];
      ghost var all := added;
      assert added + newSyms == added;
      var j := 0;
      while j < |word|
        invariant 0 <= j <= |word|
        invariant Valid() && merges == merges0 && vocabSize == vocabSize0
        invariant all == added + newSyms
        invariant Current() == RegisterAll(v0, all) && AllFresh(v0, all)
        invariant forall i :: 0 <= i < |newSyms| ==> newSyms[i] in word
        invariant forall k :: 0 <= k < j ==> word[k] in vocab
        invariant forall s :: s in vocab0 ==> s in vocab
      {
        var token := word[j];
        if token !in vocab {
          RegisterSnoc(v0, all, token);
          AppendAssoc(added, newSyms, [token]);
          RegisterToken(token);
          all := all + [token];
          newSyms := newSyms + [token];
        }
        j := j + 1;
      }
    }

    /** `vocab.insert(token, id)` and `id_to_token.insert(id, token)` with the next id. */
    method RegisterToken(token: string)
      requires Valid()
      modifies this
      ensures Valid() && merges == old(merges) && vocabSize == old(vocabSize)
      ensures Current() == Register(old(Current()), token)
    {
      var id := |vocab|;
      vocab := vocab[token := id];
      reverseVocab := reverseVocab[id := token];
    }

    /**
     * `train`: the alphabet phase, then the merge rounds. The ghost results
     * name the registered alphabet, the learned rules and the word maps
     * between rounds.
     */
    method Train(text: string) returns (ghost alphabet: seq<string>, ghost learned: seq<Pair>, ghost history: seq<map<Word, nat>>)
      requires Valid()
      modifies this
      ensures Valid() && vocabSize == old(vocabSize)
      ensures merges == old(merges) + learned
      ensures Current() == RegisterAll(old(Current()), alphabet + Spellings(learned))
      ensures AllFresh(old(Current()), alphabet)
      ensures forall s :: s in alphabet ==> |s| == 1 && s[0] in text && !IsWhitespace(s[0])
      ensures forall c :: c in text && !IsWhitespace(c) ==> [c] in RegisterAll(old(Current()), alphabet).toId
      ensures Trace(history, learned, RegisterAll(old(Current()), alphabet), vocabSize)
      ensures history[0] == WordCounts(Words(text))
      ensures |vocab| >= vocabSize || forall w :: w in history[|learned|] ==> |w| <= 1
      ensures Words(text) == [] ==> alphabet == [] && learned == [] && Current() == old(Current())
    {
      ghost var v0 := Current();
      var wordFreqs := GetWordFrequencies(text);
      ghost var ws := Words(text);
      WordsAreWords(text);
      WordCountsMeaning(ws);
      WordCountsInjective(ws);
      WordCountsSymbols(ws);
      alphabet := RegisterAlphabet(wordFreqs);
      AlphabetCovers(text, wordFreqs, alphabet, vocab);
      learned, history := LearnMerges(wordFreqs, CharWords(ws));
      RegisterAllAppend(v0, alphabet, Spellings(learned));
    }

    /** One learned rule: left ++ right registered at id = current size (overwriting its entry when present), the rule appended. */
    method AddMerge(best: Pair)
      requires Valid()
      modifies this
      ensures Valid() && vocabSize == old(vocabSize) && merges == old(merges) + [best]
      ensures Current() == Register(old(Current()), Joined(best))
    {
      var newToken := Joined(best);
      var id := |vocab|;
      vocab := vocab[newToken := id];
      reverseVocab := reverseVocab[id := newToken];
      merges := merges + [best];
    }

    /**
     * The merge rounds of `train`: while the vocabulary is smaller than the
     * target, count the pairs, stop when there is none, take a pair of
     * maximal weight (ties broken by the visiting order), register
     * left ++ right at id = current size, append the rule and merge every
     * word. Each round removes at least one symbol from the listed words,
     * which is why the loop ends even when a merged string was already a
     * token and the size does not grow.
     */
    method LearnMerges(wordFreqs0: map<Word, nat>, ghost keys0: seq<Word>)
      returns (ghost learned: seq<Pair>, ghost history: seq<map<Word, nat>>)
      requires Valid() && TextInjective(wordFreqs0) && forall w :: w in wordFreqs0 ==> w != []
      requires forall w :: w in wordFreqs0 <==> w in keys0
      modifies this
      ensures Valid() && vocabSize == old(vocabSize)
      ensures merges == old(merges) + learned
      ensures Current() == RegisterAll(old(Current()), Spellings(learned))
      ensures Trace(history, learned, old(Current()), vocabSize) && history[0] == wordFreqs0
      ensures |vocab| >= vocabSize || forall w :: w in history[|learned|] ==> |w| <= 1
      ensures wordFreqs0 == map[] ==> learned == []
    {
      ghost var merges0 := merges;
      ghost var base := Current();
      ghost var target := vocabSize;
      ghost var keys := keys0;
      var wordFreqs := wordFreqs0;
      learned := [];
      history := [wordFreqs];
      while |vocab| < vocabSize
        invariant Valid() && vocabSize == target
        invariant merges == merges0 + learned
        invariant Current() == RegisterAll(base, Spellings(learned))
        invariant Trace(history, learned, base, target) && history[0] == wordFreqs0
        invariant history[|learned|] == wordFreqs
        invariant TextInjective(wordFreqs) && forall w :: w in wordFreqs ==> w != []
        invariant forall w :: w in wordFreqs <==> w in keys
        decreases TotalLength(keys)
      {
        assert |RegisterAll(base, Spellings(learned)).toId| < target;
        var pairFreqs := GetPairFrequencies(wordFreqs);
        if pairFreqs == map[] {
          NoPairsMeansShort(wordFreqs, pairFreqs);
          break;
        }
        var best := MaxByValue(pairFreqs);
        var next := ApplyMerge(wordFreqs, best);
        RoundStep(history, learned, base, target, wordFreqs, pairFreqs, best, next, keys);
        AppendAssoc(old(merges), learned, [best]);
        SnocLast(history, next, |learned + [best]|);
        AddMerge(best);
        learned := learned + [best];
        history := history + [next];
        keys := MergeAll(keys, best);
        wordFreqs := next;
      }
    }
  }

  /** An empty pair map means no word has two symbols. */
  lemma NoPairsMeansShort(wf: map<Word, nat>, pf: map<Pair, nat>)
    requires forall p :: p in pf <==> Count(wf, p) > 0
    requires pf == map[]
    ensures forall w :: w in wf ==> |w| <= 1
  {
    LongWordsHavePairs(wf);
  }

  /**
   * One merge round: the chosen pair is a most frequent one, the merged map
   * keeps distinct spellings and non-empty words, and the listed words lose
   * at least one symbol.
   */
  lemma RoundFacts(wf: map<Word, nat>, pf: map<Pair, nat>, best: Pair, nf: map<Word, nat>, keys: seq<Word>)
    requires TextInjective(wf) && (forall w :: w in wf ==> w != []) && (forall w :: w in wf <==> w in keys)
    requires forall p :: p in pf <==> Count(wf, p) > 0
    requires forall p :: p in pf ==> pf[p] == Weight(wf, p)
    requires best in pf && forall q :: q in pf ==> pf[q] <= pf[best]
    requires nf.Keys == (set w | w in wf :: MergeWord(w, best))
    ensures MaxPair(wf, best)
    ensures TextInjective(nf) && (forall w :: w in nf ==> w != []) && (forall w :: w in nf <==> w in MergeAll(keys, best))
    ensures TotalLength(MergeAll(keys, best)) < TotalLength(keys)
  {
    var w := CountWitness(wf, best);
    MergeAllShrinks(keys, best, w);
    KeysOfMergeAll(wf, nf, keys, best);
    MergePreservesTextInjective(wf, nf, best);
    forall u | u in wf ensures MergeWord(u, best) != [] {
      MergeWordLength(u, best);
    }
  }

  lemma SnocLast<T>(h: seq<T>, x: T, n: nat)
    requires n == |h|
    ensures (h + [x])[n] == x
  {
  }

  /** What one merge round contributes to the loop invariants of the merge rounds. */
  lemma RoundStep(history: seq<map<Word, nat>>, learned: seq<Pair>, base: Vocab, size: nat,
                  wf: map<Word, nat>, pf: map<Pair, nat>, best: Pair, nf: map<Word, nat>, keys: seq<Word>)
    requires Trace(history, learned, base, size) && history[|learned|] == wf
    requires |RegisterAll(base, Spellings(learned)).toId| < size
    requires TextInjective(wf) && (forall w :: w in wf ==> w != []) && (forall w :: w in wf <==> w in keys)
    requires forall p :: p in pf <==> Count(wf, p) > 0
    requires forall p :: p in pf ==> pf[p] == Weight(wf, p)
    requires best in pf && forall q :: q in pf ==> pf[q] <= pf[best]
    requires nf.Keys == (set w | w in wf :: MergeWord(w, best))
    requires MergedFrom(wf, nf, best)
    ensures Trace(history + [nf], learned + [best], base, size)
    ensures RegisterAll(base, Spellings(learned + [best])) == Register(RegisterAll(base, Spellings(learned)), Joined(best))
    ensures TextInjective(nf) && (forall w :: w in nf ==> w != []) && (forall w :: w in nf <==> w in MergeAll(keys, best))
    ensures TotalLength(MergeAll(keys, best)) < TotalLength(keys)
  {
    RoundFacts(wf, pf, best, nf, keys);
    TraceSnoc(history, learned, base, size, wf, best, nf);
    RegisterSnoc(base, Spellings(learned), Joined(best));
    SpellingsAppend(learned, best);
  }

  /**
   * The rounds of training as recorded: round k took a most frequent pair of
   * history[k], merged it into history[k + 1], and ran while the vocabulary
   * (base plus the strings of the earlier rules) was below the target size.
   */
  ghost predicate Trace(history: seq<map<Word, nat>>, learned: seq<Pair>, base: Vocab, size: nat) {
    |history| == |learned| + 1
    && forall k :: 0 <= k < |learned| ==>
      MaxPair(history[k], learned[k]) && MergedFrom(history[k], history[k + 1], learned[k])
      && |RegisterAll(base, Spellings(learned[..k])).toId| < size
  }

  lemma TraceSnoc(history: seq<map<Word, nat>>, learned: seq<Pair>, base: Vocab, size: nat, wf: map<Word, nat>, p: Pair, nf: map<Word, nat>)
    requires Trace(history, learned, base, size) && history[|learned|] == wf
    requires MaxPair(wf, p) && MergedFrom(wf, nf, p)
    requires |RegisterAll(base, Spellings(learned)).toId| < size
    ensures Trace(history + [nf], learned + [p], base, size)
  {
    var h, l := history + [nf], learned + [p];
    forall k | 0 <= k < |l|
      ensures MaxPair(h[k], l[k]) && MergedFrom(h[k], h[k + 1], l[k]) && |RegisterAll(base, Spellings(l[..k])).toId| < size
    {
      assert l[..k] == learned[..k];
    }
  }

  /** Every string of `ss` is a symbol of some word of `wf`. */
  ghost predicate FromWords(ss: seq<string>, wf: map<Word, nat>) {
    forall i :: 0 <= i < |ss| ==> exists w :: w in wf && ss[i] in w
  }

  lemma FromWordsAppend(ss: seq<string>, more: seq<string>, wf: map<Word, nat>, word: Word)
    requires FromWords(ss, wf) && word in wf
    requires forall i :: 0 <= i < |more| ==> more[i] in word
    ensures FromWords(ss + more, wf)
  {
    forall i | 0 <= i < |ss + more| ensures exists w :: w in wf && (ss + more)[i] in w {
      if i >= |ss| {
        assert (ss + more)[i] == more[i - |ss|];
      } else {
        assert (ss + more)[i] == ss[i];
      }
    }
  }

  /** The alphabet phase covers every non-whitespace character of the corpus, with one-character tokens. */
  lemma AlphabetCovers(text: string, wordFreqs: map<Word, nat>, alphabet: seq<string>, vocab: map<string, nat>)
    requires wordFreqs == WordCounts(Words(text))
    requires FromWords(alphabet, wordFreqs)
    requires forall w, k :: w in wordFreqs && 0 <= k < |w| ==> w[k] in vocab
    ensures forall s :: s in alphabet ==> |s| == 1 && s[0] in text && !IsWhitespace(s[0])
    ensures forall c :: c in text && !IsWhitespace(c) ==> [c] in vocab
    ensures Words(text) == [] ==> alphabet == []
  {
    var ws := Words(text);
    if |alphabet| > 0 {
      var s := alphabet[0];
      assert exists w :: w in wordFreqs && s in w;
      var w :| w in wordFreqs && s in w;
      assert ws != [];
    }
    WordsAreWords(text);
    WordCountsMeaning(ws);
    WordCountsSymbols(ws);
    forall c | c in text && !IsWhitespace(c) ensures [c] in vocab {
      var i := CharInSomeWord(text, c);
      var j :| 0 <= j < |ws[i]| && ws[i][j] == c;
      assert CharWord(ws[i]) == CharWords(ws)[i];
      assert CharWord(ws[i])[j] == [c];
    }
    AlphabetFromText(text, wordFreqs, alphabet);
  }

  /** Every alphabet string is one non-whitespace character of the corpus. */
  lemma AlphabetFromText(text: string, wordFreqs: map<Word, nat>, alphabet: seq<string>)
    requires wordFreqs == WordCounts(Words(text))
    requires FromWords(alphabet, wordFreqs)
    ensures forall s :: s in alphabet ==> |s| == 1 && s[0] in text && !IsWhitespace(s[0])
  {
    forall s | s in alphabet ensures |s| == 1 && s[0] in text && !IsWhitespace(s[0]) {
      var i :| 0 <= i < |alphabet| && alphabet[i] == s;
      var w :| w in wordFreqs && s in w;
      var k :| 0 <= k < |w| && w[k] == s;
      SymbolFromText(text, w, k);
    }
  }

  /** A symbol of a counted word is one non-whitespace character of the corpus. */
  lemma SymbolFromText(text: string, w: Word, k: nat)
    requires w in WordCounts(Words(text)) && k < |w|
    ensures |w[k]| == 1 && w[k][0] in text && !IsWhitespace(w[k][0])
  {
    var ws := Words(text);
    WordCountsMeaning(ws);
    WordChars(text);
    var m :| 0 <= m < |ws| && w == CharWords(ws)[m];
    assert w[k] == [ws[m][k]];
  }
}
