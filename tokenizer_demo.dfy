/**
 * The self-contained byte-pair encoder of examples/tokenizer_demo.rs: a base
 * vocabulary of four special tokens and the 95 printable ASCII characters,
 * a training loop bounded by the requested vocabulary size, merging done in
 * place, word counts that add up when two words become equal, an encoder
 * without sentence markers and a decoder that writes `<unk>` for ids it
 * does not know.
 */
module TokenizerDemo {
  import opened Seqs
  import opened Text
  import opened Merging
  import Tokenizer

  // ---------------------------------------------------------------------------
  // The base vocabulary of `new`
  // ---------------------------------------------------------------------------

  const UnkText: string := "<unk>"
  const PadText: string := "<pad>"
  const EosText: string := "<eos>"
  const BosText: string := "<bos>"

  /** The four special tokens at ids 0 .. 3, in both directions. */
  function DemoSpecials(): Vocab {
    Vocab(map[UnkText := 0, PadText := 1, EosText := 2, BosText := 3],
          map[0 := UnkText, 1 := PadText, 2 := EosText, 3 := BosText])
  }

  /** The one-character strings of the codes 32 .. 126, in code order. */
  function AsciiChars(): seq<string> {
    seq(95, i requires 0 <= i < 95 => [(32 + i) as char])
  }

  /** What `new` builds: the specials, then each printable character at the next id. */
  function DemoInitialVocab(): Vocab {
    RegisterAll(DemoSpecials(), AsciiChars())
  }

  /** The four special strings differ in their second character and have five characters each. */
  lemma DemoSpecialsDistinct()
    ensures UnkText != PadText && UnkText != EosText && UnkText != BosText
    ensures PadText != EosText && PadText != BosText && EosText != BosText
    ensures |UnkText| == 5 && |PadText| == 5 && |EosText| == 5 && |BosText| == 5
  {
    assert UnkText[1] != PadText[1] && UnkText[1] != EosText[1] && UnkText[1] != BosText[1];
    assert PadText[1] != EosText[1] && PadText[1] != BosText[1] && EosText[1] != BosText[1];
  }

  lemma DemoSpecialsSize()
    ensures |DemoSpecials().toId| == 4
    ensures forall s :: s in DemoSpecials().toId ==> |s| == 5
  {
    DemoSpecialsDistinct();
    assert DemoSpecials().toId.Keys == {UnkText, PadText, EosText, BosText};
    assert |{UnkText, PadText, EosText, BosText}| == 4;
  }

  lemma DemoSpecialsInverse()
    ensures forall s :: s in DemoSpecials().toId ==>
      DemoSpecials().toId[s] in DemoSpecials().toStr && DemoSpecials().toStr[DemoSpecials().toId[s]] == s
    ensures forall i :: i in DemoSpecials().toStr ==>
      DemoSpecials().toStr[i] in DemoSpecials().toId && DemoSpecials().toId[DemoSpecials().toStr[i]] == i
  {
    DemoSpecialsDistinct();
  }

  lemma DemoSpecialsShape()
    ensures Bijective(DemoSpecials()) && |DemoSpecials().toId| == 4
    ensures forall s :: s in DemoSpecials().toId ==> |s| == 5
  {
    DemoSpecialsSize();
    DemoSpecialsInverse();
    DemoSpecialsDense();
  }

  lemma DemoSpecialsDense()
    ensures forall i: nat :: i in DemoSpecials().toStr <==> i < 4
  {
  }

  /**
   * Registering the first k printable characters: each is new when it is
   * registered, the maps stay inverse and dense, and there are 4 + k tokens.
   */
  lemma {:induction false} AsciiPrefix(k: nat)
    requires k <= 95
    ensures AllFresh(DemoSpecials(), AsciiChars()[..k])
    ensures Bijective(RegisterAll(DemoSpecials(), AsciiChars()[..k]))
    ensures |RegisterAll(DemoSpecials(), AsciiChars()[..k]).toId| == 4 + k
  {
    DemoSpecialsShape();
    if k == 0 {
      assert AsciiChars()[..0] == [];
    } else {
      var ss := AsciiChars()[..k];
      var init := AsciiChars()[..k - 1];
      assert ss[..k - 1] == init;
      AsciiPrefix(k - 1);
      var v := RegisterAll(DemoSpecials(), init);
      RegisterAllKeys(DemoSpecials(), init);
      var c := ss[k - 1];
      AsciiFresh(k - 1);
      RegisterKeepsBijective(v, c);
    }
  }

  /** The next printable character is not yet a token. */
  lemma AsciiFresh(k: nat)
    requires k < 95
    ensures AsciiChars()[k] !in RegisterAll(DemoSpecials(), AsciiChars()[..k]).toId
  {
    var init := AsciiChars()[..k];
    var c := AsciiChars()[k];
    assert |c| == 1 && c[0] as int == 32 + k;
    AsciiSpecialsApart(c);
    forall j | 0 <= j < |init| ensures init[j] != c {
      assert init[j][0] as int == 32 + j;
    }
    RegisterAllKeys(DemoSpecials(), init);
  }

  lemma AsciiSpecialsApart(c: string)
    requires |c| == 1
    ensures c !in DemoSpecials().toId
  {
    DemoSpecialsSize();
  }

  /** One step of the character loop of `new`. */
  lemma AsciiStep(k: nat)
    requires k < 95
    ensures |RegisterAll(DemoSpecials(), AsciiChars()[..k]).toId| == 4 + k
    ensures RegisterAll(DemoSpecials(), AsciiChars()[..k + 1])
         == Register(RegisterAll(DemoSpecials(), AsciiChars()[..k]), [(32 + k) as char])
  {
    AsciiPrefix(k);
    assert AsciiChars()[..k + 1][..k] == AsciiChars()[..k];
  }

  /** The printable character with code 32 + j has id 4 + j in the base vocabulary. */
  lemma AsciiId(j: nat)
    requires j < 95
    ensures AsciiChars()[j] in DemoInitialVocab().toId && DemoInitialVocab().toId[AsciiChars()[j]] == 4 + j
  {
    var a := AsciiChars();
    var c := a[j];
    AsciiStep(j);
    AsciiPrefix(95);
    assert a[..95] == a;
    var mid := RegisterAll(DemoSpecials(), a[..j + 1]);
    assert c in mid.toId && mid.toId[c] == 4 + j;
    assert c !in a[j + 1..] by {
      forall i | j + 1 <= i < 95 ensures a[i] != c {
        assert a[i] == [(32 + i) as char];
      }
    }
    RegisterAllKeepsOthers(mid, a[j + 1..], c);
    assert a[..j + 1] + a[j + 1..] == a;
    RegisterAllAppend(DemoSpecials(), a[..j + 1], a[j + 1..]);
  }

  /**
   * The vocabulary of `new`: 99 tokens, the two maps inverse, `<unk>`,
   * `<pad>`, `<eos>`, `<bos>` at 0 .. 3 and the character with code n at
   * n - 28 for every printable n; its keys are exactly these strings.
   */
  lemma DemoInitialVocabShape()
    ensures Bijective(DemoInitialVocab()) && |DemoInitialVocab().toId| == 99
    ensures UnkText in DemoInitialVocab().toId && DemoInitialVocab().toId[UnkText] == 0
    ensures PadText in DemoInitialVocab().toId && DemoInitialVocab().toId[PadText] == 1
    ensures EosText in DemoInitialVocab().toId && DemoInitialVocab().toId[EosText] == 2
    ensures BosText in DemoInitialVocab().toId && DemoInitialVocab().toId[BosText] == 3
    ensures forall c: char :: ' ' <= c <= '~' ==> [c] in DemoInitialVocab().toId && DemoInitialVocab().toId[[c]] == c as int - 28
    ensures forall s :: s in DemoInitialVocab().toId <==> s in DemoSpecials().toId || (|s| == 1 && ' ' <= s[0] <= '~')
  {
    AsciiPrefix(95);
    assert AsciiChars()[..95] == AsciiChars();
    DemoInitialSpecials();
    DemoInitialChars();
    DemoInitialKeys();
  }

  lemma SpecialsNotAscii()
    ensures forall s :: s in DemoSpecials().toId ==> s !in AsciiChars()
  {
    var a := AsciiChars();
    DemoSpecialsShape();
    forall s | s in DemoSpecials().toId ensures s !in a {
      forall i | 0 <= i < 95 ensures a[i] != s {
        assert |a[i]| == 1;
      }
    }
  }

  lemma DemoInitialSpecials()
    ensures UnkText in DemoInitialVocab().toId && DemoInitialVocab().toId[UnkText] == 0
    ensures PadText in DemoInitialVocab().toId && DemoInitialVocab().toId[PadText] == 1
    ensures EosText in DemoInitialVocab().toId && DemoInitialVocab().toId[EosText] == 2
    ensures BosText in DemoInitialVocab().toId && DemoInitialVocab().toId[BosText] == 3
  {
    var a := AsciiChars();
    SpecialsNotAscii();
    RegisterAllKeepsOthers(DemoSpecials(), a, UnkText);
    RegisterAllKeepsOthers(DemoSpecials(), a, PadText);
    RegisterAllKeepsOthers(DemoSpecials(), a, EosText);
    RegisterAllKeepsOthers(DemoSpecials(), a, BosText);
  }

  lemma DemoInitialChars()
    ensures forall c: char :: ' ' <= c <= '~' ==> [c] in DemoInitialVocab().toId && DemoInitialVocab().toId[[c]] == c as int - 28
  {
    var a := AsciiChars();
    forall c: char | ' ' <= c <= '~'
      ensures [c] in DemoInitialVocab().toId && DemoInitialVocab().toId[[c]] == c as int - 28
    {
      AsciiId(c as int - 32);
      assert a[c as int - 32] == [c];
    }
  }

  lemma DemoInitialKeys()
    ensures forall s :: s in DemoInitialVocab().toId <==> s in DemoSpecials().toId || (|s| == 1 && ' ' <= s[0] <= '~')
  {
    var a := AsciiChars();
    RegisterAllKeys(DemoSpecials(), a);
    forall s ensures s in DemoInitialVocab().toId <==> s in DemoSpecials().toId || (|s| == 1 && ' ' <= s[0] <= '~') {
      if s in a {
        var i :| 0 <= i < 95 && a[i] == s;
      }
      if |s| == 1 && ' ' <= s[0] <= '~' {
        assert a[s[0] as int - 32] == s;
      }
    }
  }

  // ---------------------------------------------------------------------------
  // Word counts that add up: `apply_merge`
  // ---------------------------------------------------------------------------

  /** Sum of the values of a map. */
  ghost function Total<K>(m: map<K, nat>): nat
    decreases |m|
  {
    if m == map[] then 0
    else
      var k :| k in m;
      m[k] + Total(m - {k})
  }

  lemma TotalPeel<K>(m: map<K, nat>, k: K)
    requires k in m
    ensures Total(m) == m[k] + Total(m - {k})
    decreases |m|
  {
    var j :| j in m && Total(m) == m[j] + Total(m - {j});
    if j != k {
      TotalPeel(m - {j}, k);
      TotalPeel(m - {k}, j);
      assert (m - {j}) - {k} == (m - {k}) - {j};
    }
  }

  /** Adding f to one entry (creating it at 0 when absent) adds f to the sum. */
  lemma TotalAdd<K>(m: map<K, nat>, k: K, f: nat)
    ensures Total(m[k := Get(m, k) + f]) == Total(m) + f
  {
    var m' := m[k := Get(m, k) + f];
    TotalPeel(m', k);
    assert m' - {k} == m - {k};
    if k in m {
      TotalPeel(m, k);
    } else {
      assert m - {k} == m;
    }
  }

  /** The words of wf that p merges into u, with their counts. */
  function Preimage(wf: map<Word, nat>, p: Pair, u: Word): map<Word, nat> {
    map w | w in wf && MergeWord(w, p) == u :: wf[w]
  }

  /**
   * nf is wf merged by p with counts added up: its words are the merged
   * words of wf, and each has the total count of the words that merge into it.
   */
  ghost predicate Accumulated(wf: map<Word, nat>, nf: map<Word, nat>, p: Pair) {
    nf.Keys == (set w | w in wf :: MergeWord(w, p))
    && forall u :: u in nf ==> nf[u] == Total(Preimage(wf, p, u))
  }

  /** One word of the `apply_merge` loop: its count is added to its merged word's entry. */
  lemma AccumulateStep(done: map<Word, nat>, nf: map<Word, nat>, w: Word, f: nat, p: Pair)
    requires w !in done && Accumulated(done, nf, p)
    ensures Accumulated(done[w := f], nf[MergeWord(w, p) := Get(nf, MergeWord(w, p)) + f], p)
  {
    AccumulateKeys(done, nf, w, f, p);
    var nw := MergeWord(w, p);
    var done' := done[w := f];
    var nf' := nf[nw := Get(nf, nw) + f];
    forall u | u in nf' ensures nf'[u] == Total(Preimage(done', p, u)) {
      AccumulateEntry(done, nf, w, f, p, u);
    }
  }

  lemma AccumulateEntry(done: map<Word, nat>, nf: map<Word, nat>, w: Word, f: nat, p: Pair, u: Word)
    requires w !in done && Accumulated(done, nf, p)
    requires u in nf[MergeWord(w, p) := Get(nf, MergeWord(w, p)) + f]
    ensures nf[MergeWord(w, p) := Get(nf, MergeWord(w, p)) + f][u] == Total(Preimage(done[w := f], p, u))
  {
    if u == MergeWord(w, p) {
      AccumulateMerged(done, nf, w, f, p);
    } else {
      PreimageOther(done, w, f, p, u);
    }
  }

  /** A word that does not merge into u leaves u's preimage as it was. */
  lemma PreimageOther(done: map<Word, nat>, w: Word, f: nat, p: Pair, u: Word)
    requires w !in done && MergeWord(w, p) != u
    ensures Preimage(done[w := f], p, u) == Preimage(done, p, u)
  {
  }

  lemma AccumulateKeys(done: map<Word, nat>, nf: map<Word, nat>, w: Word, f: nat, p: Pair)
    requires nf.Keys == (set x | x in done :: MergeWord(x, p))
    ensures nf[MergeWord(w, p) := Get(nf, MergeWord(w, p)) + f].Keys == (set x | x in done[w := f] :: MergeWord(x, p))
  {
    var nw := MergeWord(w, p);
    var done' := done[w := f];
    var nf' := nf[nw := Get(nf, nw) + f];
    forall u | u in nf' ensures exists x :: x in done' && MergeWord(x, p) == u {
      if u != nw {
        var x :| x in done && MergeWord(x, p) == u;
        assert x in done';
      }
    }
  }

  /** The merged word's entry gains exactly the new word's count. */
  lemma AccumulateMerged(done: map<Word, nat>, nf: map<Word, nat>, w: Word, f: nat, p: Pair)
    requires w !in done && Accumulated(done, nf, p)
    ensures Get(nf, MergeWord(w, p)) + f == Total(Preimage(done[w := f], p, MergeWord(w, p)))
  {
    var nw := MergeWord(w, p);
    var pre := Preimage(done[w := f], p, nw);
    assert pre - {w} == Preimage(done, p, nw);
    TotalPeel(pre, w);
    if nw !in nf {
      assert Preimage(done, p, nw) == map[] by {
        forall x | x in done ensures MergeWord(x, p) != nw {
          assert MergeWord(x, p) in nf.Keys;
        }
      }
    }
  }

  /** What one word of the `apply_merge` loop contributes to its invariants. */
  lemma ApplyMergeStep(wf: map<Word, nat>, rest: map<Word, nat>, done: map<Word, nat>, nf: map<Word, nat>,
                       w: Word, nw: Word, p: Pair, rest': map<Word, nat>, done': map<Word, nat>, nf': map<Word, nat>)
    requires forall x :: x in wf <==> x in done || x in rest
    requires forall x :: x in done ==> x !in rest && done[x] == wf[x]
    requires forall x :: x in rest ==> rest[x] == wf[x]
    requires Total(nf) == Total(done)
    requires p.1 != [] ==> Accumulated(done, nf, p)
    requires w in rest && (p.1 != [] ==> nw == MergeWord(w, p))
    requires done' == done[w := rest[w]] && rest' == rest - {w} && nf' == nf[nw := Get(nf, nw) + rest[w]]
    ensures forall x :: x in wf <==> x in done' || x in rest'
    ensures forall x :: x in done' ==> x !in rest' && done'[x] == wf[x]
    ensures forall x :: x in rest' ==> rest'[x] == wf[x]
    ensures Total(nf') == Total(done')
    ensures p.1 != [] ==> Accumulated(done', nf', p)
  {
    MoveEntry(wf, rest, done, w, rest', done');
    TotalStep(done, nf, w, rest[w], nw, done', nf');
    if p.1 != [] {
      AccumulateStep(done, nf, w, rest[w], p);
    }
  }

  /** Moving one entry from the rest to the visited part keeps the partition of wf. */
  lemma MoveEntry<K>(wf: map<K, nat>, rest: map<K, nat>, done: map<K, nat>, w: K, rest': map<K, nat>, done': map<K, nat>)
    requires forall x :: x in wf <==> x in done || x in rest
    requires forall x :: x in done ==> x !in rest && done[x] == wf[x]
    requires forall x :: x in rest ==> rest[x] == wf[x]
    requires w in rest && done' == done[w := rest[w]] && rest' == rest - {w}
    ensures forall x :: x in wf <==> x in done' || x in rest'
    ensures forall x :: x in done' ==> x !in rest' && done'[x] == wf[x]
    ensures forall x :: x in rest' ==> rest'[x] == wf[x]
  {
  }

  /** Both sums grow by the moved count. */
  lemma TotalStep<K, L>(done: map<K, nat>, nf: map<L, nat>, w: K, f: nat, nw: L, done': map<K, nat>, nf': map<L, nat>)
    requires w !in done && Total(nf) == Total(done)
    requires done' == done[w := f] && nf' == nf[nw := Get(nf, nw) + f]
    ensures Total(nf') == Total(done')
  {
    TotalAdd(nf, nw, f);
    TotalAdd(done, w, f);
    assert done[w := Get(done, w) + f] == done';
  }

  /** Every symbol of every word is non-empty. */
  ghost predicate SymbolsNonEmpty(wf: map<Word, nat>) {
    forall w, k :: w in wf && 0 <= k < |w| ==> w[k] != []
  }

  /** Counting the words of a text: one-character symbols, and the counts add up to the number of words. */
  lemma {:induction false} WordCountsTotal(ws: seq<string>)
    ensures Total(WordCounts(ws)) == |ws|
    ensures SymbolsNonEmpty(WordCounts(ws))
    decreases |ws|
  {
    WordCountsMeaning(ws);
    forall w, k | w in WordCounts(ws) && 0 <= k < |w| ensures w[k] != [] {
      var i :| 0 <= i < |ws| && CharWords(ws)[i] == w;
      CharWordSymbols(ws[i]);
    }
    if ws != [] {
      var init := ws[..|ws| - 1];
      WordCountsTotal(init);
      TotalAdd(WordCounts(init), CharWord(ws[|ws| - 1]), 1);
    }
  }

  /** A pair that occurs in a word consists of two symbols of that word. */
  lemma {:induction false} OccSymbols(w: Word, p: Pair)
    requires Occ(w, p) > 0
    ensures p.0 in w && p.1 in w
    decreases |w|
  {
    if (w[0], w[1]) != p {
      OccSymbols(w[1..], p);
      assert forall s :: s in w[1..] ==> s in w;
    }
  }

  /** A pair that occurs somewhere has non-empty symbols when every word's symbols are non-empty. */
  lemma ChosenPairNonEmpty(wf: map<Word, nat>, p: Pair)
    requires SymbolsNonEmpty(wf) && Count(wf, p) > 0
    ensures p.0 != [] && p.1 != []
  {
    var w := CountWitness(wf, p);
    OccSymbols(w, p);
  }

  /** Merging a pair of non-empty symbols keeps every symbol non-empty. */
  lemma MergeKeepsSymbols(wf: map<Word, nat>, nf: map<Word, nat>, p: Pair)
    requires SymbolsNonEmpty(wf) && p.0 != [] && Accumulated(wf, nf, p)
    ensures SymbolsNonEmpty(nf)
  {
    forall u, k | u in nf && 0 <= k < |u| ensures u[k] != [] {
      var w :| w in wf && MergeWord(w, p) == u;
      MergeWordSymbols(w, p);
      assert u[k] in u;
    }
  }

  // ---------------------------------------------------------------------------
  // The rounds of `train`
  // ---------------------------------------------------------------------------

  /**
   * Round k took a most frequent pair of history[k] and merged it into
   * history[k + 1], adding up counts, so the total count stays.
   */
  ghost predicate DemoTrace(history: seq<map<Word, nat>>, learned: seq<Pair>) {
    |history| == |learned| + 1
    && forall k :: 0 <= k < |learned| ==>
      MaxPair(history[k], learned[k]) && Accumulated(history[k], history[k + 1], learned[k])
      && Total(history[k + 1]) == Total(history[k])
  }

  /** Every map of a trace has the total count of the first one. */
  lemma {:induction false} DemoTraceTotal(history: seq<map<Word, nat>>, learned: seq<Pair>, k: nat)
    requires DemoTrace(history, learned) && k < |history|
    ensures Total(history[k]) == Total(history[0])
  {
    if k > 0 {
      DemoTraceTotal(history, learned, k - 1);
    }
  }

  /** What one round of `train` contributes to the loop invariants. */
  lemma DemoRoundStep(history: seq<map<Word, nat>>, learned: seq<Pair>, base: Vocab,
                      wf: map<Word, nat>, pf: map<Pair, nat>, best: Pair, nf: map<Word, nat>)
    requires DemoTrace(history, learned) && history[|learned|] == wf && SymbolsNonEmpty(wf)
    requires forall p :: p in pf <==> Count(wf, p) > 0
    requires forall p :: p in pf ==> pf[p] == Weight(wf, p)
    requires best in pf && forall q :: q in pf ==> pf[q] <= pf[best]
    requires best.0 != [] && Accumulated(wf, nf, best) && Total(nf) == Total(wf)
    ensures DemoTrace(history + [nf], learned + [best]) && SymbolsNonEmpty(nf)
    ensures RegisterAll(base, Spellings(learned + [best])) == Register(RegisterAll(base, Spellings(learned)), Joined(best))
  {
    MergeKeepsSymbols(wf, nf, best);
    assert MaxPair(wf, best);
    var h, l := history + [nf], learned + [best];
    forall k | 0 <= k < |l|
      ensures MaxPair(h[k], l[k]) && Accumulated(h[k], h[k + 1], l[k]) && Total(h[k + 1]) == Total(h[k])
    {
      if k < |learned| {
        assert h[k] == history[k] && h[k + 1] == history[k + 1] && l[k] == learned[k];
      }
    }
    RegisterSnoc(base, Spellings(learned), Joined(best));
    SpellingsAppend(learned, best);
  }

  // ---------------------------------------------------------------------------
  // decode, and the round trip
  // ---------------------------------------------------------------------------

  /** The text one id contributes: its string, or the fallback (`<unk>` in `decode`) when the id is unknown. */
  function DemoPiece(rev: map<nat, string>, fallback: string, id: nat): string {
    if id in rev then rev[id] else fallback
  }

  function DemoDecodeIds(rev: map<nat, string>, fallback: string, ids: seq<nat>): string {
    if ids == [] then [] else DemoDecodeIds(rev, fallback, ids[..|ids| - 1]) + DemoPiece(rev, fallback, ids[|ids| - 1])
  }

  lemma {:induction false} DemoDecodeAppend(rev: map<nat, string>, fallback: string, a: seq<nat>, b: seq<nat>)
    ensures DemoDecodeIds(rev, fallback, a + b) == DemoDecodeIds(rev, fallback, a) + DemoDecodeIds(rev, fallback, b)
    decreases |b|
  {
    if b == [] {
      assert a + b == a;
    } else {
      var init, last := b[..|b| - 1], b[|b| - 1];
      assert (a + b)[..|a + b| - 1] == a + init && (a + b)[|a + b| - 1] == last;
      DemoDecodeAppend(rev, fallback, a, init);
      AppendAssoc(DemoDecodeIds(rev, fallback, a), DemoDecodeIds(rev, fallback, init), DemoPiece(rev, fallback, last));
    }
  }

  /**
   * Decoding does not filter special tokens: with the base vocabulary,
   * `<bos>`, `<unk>` and `<eos>` are written out, and an id beyond the
   * vocabulary becomes `<unk>`.
   */
  lemma DemoDecodeSpecials(fallback: string, beyond: nat)
    requires beyond >= 99
    ensures DemoDecodeIds(DemoInitialVocab().toStr, fallback, [3]) == BosText
    ensures DemoDecodeIds(DemoInitialVocab().toStr, fallback, [2]) == EosText
    ensures DemoDecodeIds(DemoInitialVocab().toStr, fallback, [0]) == UnkText
    ensures DemoDecodeIds(DemoInitialVocab().toStr, fallback, [beyond]) == fallback
  {
    DemoInitialVocabShape();
    var v := DemoInitialVocab();
    assert v.toStr[3] == BosText && v.toStr[0] == UnkText && v.toStr[2] == EosText;
    assert beyond !in v.toStr;
    assert [3][..0] == [] && [2][..0] == [] && [0][..0] == [] && [beyond][..0] == [];
  }

  /** Known symbols, looked up with fallback 0 and decoded, give their text back. */
  lemma {:induction false} DemoDecodeLookup(v: Vocab, fallback: string, syms: Word)
    requires forall s :: s in v.toId ==> v.toId[s] in v.toStr && v.toStr[v.toId[s]] == s
    requires forall s :: s in syms ==> s in v.toId
    ensures DemoDecodeIds(v.toStr, fallback, Tokenizer.Lookup(v.toId, 0, syms)) == Flatten(syms)
    decreases |syms|
  {
    if syms != [] {
      var init, last := syms[..|syms| - 1], syms[|syms| - 1];
      assert syms == init + [last];
      Tokenizer.LookupAppend(v.toId, 0, init, [last]);
      DemoDecodeLookup(v, fallback, init);
      DemoDecodeAppend(v.toStr, fallback, Tokenizer.Lookup(v.toId, 0, init), Tokenizer.Lookup(v.toId, 0, [last]));
      assert DemoDecodeIds(v.toStr, fallback, Tokenizer.Lookup(v.toId, 0, [last])) == last by {
        assert Tokenizer.Lookup(v.toId, 0, [last]) == [v.toId[last]];
        assert [v.toId[last]][..0] == [];
      }
      FlattenAppend(init, [last]);
      assert Flatten([last]) == last by { assert [last][1..] == []; }
    }
  }

  /** The merged symbols of a word of the text are known tokens and spell the word. */
  lemma DemoTokensKnown(v: Vocab, merges: seq<Pair>, t: string, w: string)
    requires forall c :: c in t && !IsWhitespace(c) ==> [c] in v.toId
    requires forall s :: s in Spellings(merges) ==> s in v.toId
    requires forall c :: c in w ==> c in t && !IsWhitespace(c)
    ensures forall s :: s in Tokenizer.Tokens(w, merges) ==> s in v.toId
    ensures Flatten(Tokenizer.Tokens(w, merges)) == w
  {
    ApplyMergesSymbols(CharWord(w), merges);
    ApplyMergesSpelling(CharWord(w), merges);
    CharWordSpelling(w);
    CharWordSymbols(w);
    forall s | s in CharWord(w) ensures s in v.toId {
      var k :| 0 <= k < |CharWord(w)| && CharWord(w)[k] == s;
      assert s == [w[k]];
    }
  }

  lemma {:induction false} DemoDecodeEncodeWords(v: Vocab, fallback: string, merges: seq<Pair>, t: string, ws: seq<string>)
    requires forall s :: s in v.toId ==> v.toId[s] in v.toStr && v.toStr[v.toId[s]] == s
    requires forall c :: c in t && !IsWhitespace(c) ==> [c] in v.toId
    requires forall s :: s in Spellings(merges) ==> s in v.toId
    requires forall i, j :: 0 <= i < |ws| && 0 <= j < |ws[i]| ==> ws[i][j] in t && !IsWhitespace(ws[i][j])
    ensures DemoDecodeIds(v.toStr, fallback, Tokenizer.EncodeWords(v.toId, 0, merges, ws)) == Flatten(ws)
    decreases |ws|
  {
    if ws != [] {
      var init, last := ws[..|ws| - 1], ws[|ws| - 1];
      DemoDecodeEncodeWords(v, fallback, merges, t, init);
      DemoTokensKnown(v, merges, t, last);
      DemoDecodeLookup(v, fallback, Tokenizer.Tokens(last, merges));
      assert ws == init + [last];
      FlattenAppend(init, [last]);
      assert Flatten([last]) == last by { assert [last][1..] == []; }
      DemoDecodeAppend(v.toStr, fallback, Tokenizer.EncodeWords(v.toId, 0, merges, init), Tokenizer.Lookup(v.toId, 0, Tokenizer.Tokens(last, merges)));
    }
  }

  /**
   * The round trip of the demo: when every learned string is a token, every
   * character of the text is one, and the two maps agree on the tokens,
   * decoding the encoding gives the text with its whitespace removed.
   */
  lemma DemoRoundTrip(v: Vocab, fallback: string, merges: seq<Pair>, t: string)
    requires forall s :: s in v.toId ==> v.toId[s] in v.toStr && v.toStr[v.toId[s]] == s
    requires forall c :: c in t && !IsWhitespace(c) ==> [c] in v.toId
    requires forall s :: s in Spellings(merges) ==> s in v.toId
    ensures DemoDecodeIds(v.toStr, fallback, Tokenizer.EncodeWords(v.toId, 0, merges, Words(t))) == RemoveWhitespace(t)
  {
    WordChars(t);
    DemoDecodeEncodeWords(v, fallback, merges, t, Words(t));
    FlattenWords(t);
  }

  /**
   * After training a fresh tokenizer, a text of printable ASCII characters
   * and whitespace decodes back to itself without the whitespace, provided
   * every learned string was new when it was registered.
   */
  lemma TrainedDemoRoundTrip(fallback: string, learned: seq<Pair>, t: string)
    requires AllFresh(DemoInitialVocab(), Spellings(learned))
    requires forall c :: c in t ==> IsWhitespace(c) || ' ' <= c <= '~'
    ensures var v := RegisterAll(DemoInitialVocab(), Spellings(learned));
      DemoDecodeIds(v.toStr, fallback, Tokenizer.EncodeWords(v.toId, 0, learned, Words(t))) == RemoveWhitespace(t)
  {
    var v := RegisterAll(DemoInitialVocab(), Spellings(learned));
    DemoInitialVocabShape();
    RegisterAllKeepsBijective(DemoInitialVocab(), Spellings(learned));
    RegisterAllKeys(DemoInitialVocab(), Spellings(learned));
    DemoRoundTrip(v, fallback, learned, t);
  }

  /**
   * The round-trip test's check, for any text of printable ASCII
   * characters (the space among them): after training, the decoded
   * encoding with spaces replaced by nothing equals the text with spaces
   * replaced by nothing, provided every learned string was new when it was
   * registered.
   */
  lemma SpacesRemovedRoundTrip(fallback: string, learned: seq<Pair>, t: string)
    requires AllFresh(DemoInitialVocab(), Spellings(learned))
    requires forall i :: 0 <= i < |t| ==> ' ' <= t[i] <= '~'
    ensures var v := RegisterAll(DemoInitialVocab(), Spellings(learned));
      Replace(DemoDecodeIds(v.toStr, fallback, Tokenizer.EncodeWords(v.toId, 0, learned, Words(t))), " ", "")
      == Replace(t, " ", "")
  {
    TrainedDemoRoundTrip(fallback, learned, t);
    var d := RemoveWhitespace(t);
    RemoveWhitespaceClean(t);
    ReplaceSpaces(t);
    ReplaceSpaces(d);
    RemoveWhitespaceNone(d);
  }

  /** The test that trains on "hello world" and decodes its encoding. */
  lemma HelloWorldDemoRoundTrip(fallback: string, learned: seq<Pair>)
    requires AllFresh(DemoInitialVocab(), Spellings(learned))
    ensures var v := RegisterAll(DemoInitialVocab(), Spellings(learned));
      Replace(DemoDecodeIds(v.toStr, fallback, Tokenizer.EncodeWords(v.toId, 0, learned, Words("hello world"))), " ", "")
      == Replace("hello world", " ", "")
  {
    SpacesRemovedRoundTrip(fallback, learned, "hello world");
  }

  // ---------------------------------------------------------------------------
  // encode
  // ---------------------------------------------------------------------------

  /** `encode` has no sentence markers: a blank text gives no ids. */
  lemma BlankEncodesEmpty(vocab: map<string, nat>, merges: seq<Pair>, t: string)
    requires Words(t) == []
    ensures Tokenizer.EncodeWords(vocab, 0, merges, Words(t)) == []
  {
  }

  /** Every id of `encode` is an id of the vocabulary or 0. */
  lemma EncodeIdsKnownOrZero(vocab: map<string, nat>, merges: seq<Pair>, t: string)
    ensures var ids := Tokenizer.EncodeWords(vocab, 0, merges, Words(t));
      forall i :: 0 <= i < |ids| ==> ids[i] in vocab.Values || ids[i] == 0
  {
    Tokenizer.EncodeWordsIds(vocab, 0, merges, Words(t));
  }

  /** With the base vocabulary, a character outside printable ASCII encodes as 0. */
  lemma NonAsciiEncodesZero(c: char)
    requires !(' ' <= c <= '~') && !IsWhitespace(c)
    ensures Tokenizer.EncodeWords(DemoInitialVocab().toId, 0, [], Words([c])) == [0]
  {
    NonAsciiUnknown(c);
    UnknownCharEncodesZero(DemoInitialVocab().toId, c);
  }

  lemma NonAsciiUnknown(c: char)
    requires !(' ' <= c <= '~')
    ensures [c] !in DemoInitialVocab().toId
  {
    DemoInitialKeys();
    AsciiSpecialsApart([c]);
  }

  lemma UnknownCharEncodesZero(vocab: map<string, nat>, c: char)
    requires [c] !in vocab && !IsWhitespace(c)
    ensures Tokenizer.EncodeWords(vocab, 0, [], Words([c])) == [0]
  {
    SingleWord(c);
    assert CharWord([c]) == [[c]];
    assert [[c]][..0] == [];
  }

  lemma SingleWord(c: char)
    requires !IsWhitespace(c)
    ensures Words([c]) == [[c]]
  {
    assert WordLength([c]) == 1;
    assert [c][..1] == [c] && [c][1..] == [];
  }

  /** The in-place merge of the test: ("l", "l") in h-e-l-l-o. */
  lemma HelloMerge()
    ensures MergeWord(["h", "e", "l", "l", "o"], ("l", "l")) == ["h", "e", "ll", "o"]
  {
    var w := ["h", "e", "l", "l", "o"];
    assert w[1..] == ["e", "l", "l", "o"] && w[1..][1..] == ["l", "l", "o"];
    assert ["l", "l", "o"][2..] == ["o"];
    assert MergeWord(["o"], ("l", "l")) == ["o"];
    assert "l" + "l" == "ll";
  }

  /** Every learned rule has two non-empty symbols. */
  ghost predicate RulesNonEmpty(merges: seq<Pair>) {
    forall k :: 0 <= k < |merges| ==> merges[k].0 != [] && merges[k].1 != []
  }

  // ---------------------------------------------------------------------------
  // The tokenizer object
  // ---------------------------------------------------------------------------

  class BpeTokenizer {
    var vocab: map<string, nat>
    var reverseVocab: map<nat, string>
    var merges: seq<Pair>
    /** The requested size (the field `vocab_size`). */
    var vocabSize: nat

    function Current(): Vocab
      reads this
    {
      Vocab(vocab, reverseVocab)
    }

    /** Rules come from pairs of symbols of words, which are never empty. */
    ghost predicate Valid()
      reads this
    {
      RulesNonEmpty(merges)
    }

    /** `new` (which always returns `Ok`): the specials, the printable characters, no merges. */
    constructor (vocabSize: nat)
      ensures Current() == DemoInitialVocab() && merges == [] && this.vocabSize == vocabSize
      ensures Valid()
    {
      var v := map[UnkText := 0, PadText := 1, EosText := 2, BosText := 3];
      var rev := map[0 := UnkText, 1 := PadText, 2 := EosText, 3 := BosText];
      var nextId := 4;
      for i := 32 to 127
        invariant Vocab(v, rev) == RegisterAll(DemoSpecials(), AsciiChars()[..i - 32])
        invariant nextId == i - 28
      {
        AsciiStep(i - 32);
        var ch := [i as char];
        v := v[ch := nextId];
        rev := rev[nextId := ch];
        nextId := nextId + 1;
      }
      assert AsciiChars()[..95] == AsciiChars();
      this.vocab := v;
      this.reverseVocab := rev;
      this.merges := [];
      this.vocabSize := vocabSize;
    }

    /** `vocab_size()`: the number of tokens; when the maps are inverse, the ids are exactly 0 .. n-1. */
    function VocabSize(): (n: nat)
      reads this
      ensures Bijective(Current()) ==> forall i: nat :: i in reverseVocab <==> i < n
    {
      |vocab|
    }

    /** `get_word_frequencies`. */
    method GetWordFrequencies(text: string) returns (freqs: map<Word, nat>)
      ensures freqs == WordCounts(Words(text))
    {
      freqs := CountWords(text);
    }

    /** `get_pair_frequencies`: each adjacent pair with its weighted number of occurrences. */
    method GetPairFrequencies(wordFreqs: map<Word, nat>) returns (pairFreqs: map<Pair, nat>)
      ensures forall p :: p in pairFreqs <==> Count(wordFreqs, p) > 0
      ensures forall p :: p in pairFreqs ==> pairFreqs[p] == Weight(wordFreqs, p)
    {
      pairFreqs := CountPairs(wordFreqs);
    }

    /** `apply_merge_to_word`: the in-place merge. */
    method ApplyMergeToWord(word: Word, merge: Pair) returns (result: Word)
      ensures Flatten(result) == Flatten(word) && |result| <= |word|
      ensures merge.1 != [] ==> result == MergeWord(word, merge)
    {
      result := MergeInPlace(word, merge);
    }

    /**
     * `apply_merge`: every word merged, counts of words that become equal
     * added together (`+= freq`), so the total count is kept.
     */
    method ApplyMerge(wordFreqs: map<Word, nat>, pair: Pair) returns (newFreqs: map<Word, nat>)
      ensures Total(newFreqs) == Total(wordFreqs)
      ensures pair.1 != [] ==> Accumulated(wordFreqs, newFreqs, pair)
    {
      newFreqs := map[];
      var rest := wordFreqs;
      ghost var done: map<Word, nat> := map[];
      while rest != map[]
        invariant forall w :: w in wordFreqs <==> w in done || w in rest
        invariant forall w :: w in done ==> w !in rest && done[w] == wordFreqs[w]
        invariant forall w :: w in rest ==> rest[w] == wordFreqs[w]
        invariant Total(newFreqs) == Total(done)
        invariant pair.1 != [] ==> Accumulated(done, newFreqs, pair)
        decreases |rest|
      {
        var word :| word in rest;
        var freq := rest[word];
        var newWord := ApplyMergeToWord(word, pair);
        var merged := newFreqs[newWord := Get(newFreqs, newWord) + freq];
        ghost var done' := done[word := freq];
        var rest' := rest - {word};
        ApplyMergeStep(wordFreqs, rest, done, newFreqs, word, newWord, pair, rest', done', merged);
        newFreqs, done, rest := merged, done', rest';
      }
      assert done == wordFreqs;
    }

    /** One learned rule: left ++ right registered at id = current size, the rule appended. */
    method AddMerge(best: Pair)
      requires Valid() && best.0 != [] && best.1 != []
      modifies this
      ensures Valid() && vocabSize == old(vocabSize) && merges == old(merges) + [best]
      ensures Current() == Register(old(Current()), Joined(best))
    {
      var newToken := Joined(best);
      var newId := |vocab|;
      vocab := vocab[newToken := newId];
      reverseVocab := reverseVocab[newId := newToken];
      merges := merges + [best];
    }

    /**
     * `train`: target = vocab_size - current size rounds at most (the
     * subtraction cannot go below zero, hence the precondition), each
     * taking a most frequent pair, merging every word with counts added up
     * and registering left ++ right at id = current size; it stops early
     * exactly when no word has two symbols. The ghost results name the
     * learned rules and the word maps between rounds.
     */
    method Train(text: string) returns (ghost learned: seq<Pair>, ghost history: seq<map<Word, nat>>)
      requires Valid() && |vocab| <= vocabSize
      modifies this
      ensures Valid() && vocabSize == old(vocabSize)
      ensures merges == old(merges) + learned
      ensures Current() == RegisterAll(old(Current()), Spellings(learned))
      ensures |learned| <= old(vocabSize - |vocab|)
      ensures DemoTrace(history, learned) && history[0] == WordCounts(Words(text))
      ensures Total(history[|learned|]) == |Words(text)|
      ensures |learned| < old(vocabSize - |vocab|) ==> forall w :: w in history[|learned|] ==> |w| <= 1
    {
      ghost var merges0, vocabSize0 := merges, vocabSize;
      var wordFreqs := GetWordFrequencies(text);
      var targetMerges := vocabSize - |vocab|;
      ghost var base := Current();
      WordCountsTotal(Words(text));
      learned := [];
      history := [wordFreqs];
      for step := 0 to targetMerges
        invariant step == |learned|
        invariant Valid() && vocabSize == vocabSize0
        invariant merges == merges0 + learned
        invariant Current() == RegisterAll(base, Spellings(learned))
        invariant DemoTrace(history, learned) && history[0] == WordCounts(Words(text))
        invariant history[|learned|] == wordFreqs && SymbolsNonEmpty(wordFreqs)
        invariant Total(wordFreqs) == |Words(text)|
      {
        var pairFreqs := GetPairFrequencies(wordFreqs);
        if pairFreqs == map[] {
          Tokenizer.NoPairsMeansShort(wordFreqs, pairFreqs);
          break;
        }
        var best := MaxByValue(pairFreqs);
        ChosenPairNonEmpty(wordFreqs, best);
        var next := ApplyMerge(wordFreqs, best);
        DemoRoundStep(history, learned, base, wordFreqs, pairFreqs, best, next);
        AppendAssoc(old(merges), learned, [best]);
        Tokenizer.SnocLast(history, next, |learned + [best]|);
        AddMerge(best);
        learned := learned + [best];
        history := history + [next];
        wordFreqs := next;
      }
    }

    /** `encode` (always `Ok`): the ids of every word's merged symbols, 0 for unknown ones, no markers. */
    method Encode(text: string) returns (ids: seq<nat>)
      requires Valid()
      ensures ids == Tokenizer.EncodeWords(vocab, 0, merges, Words(text))
    {
      ids := [];
      var ws := Words(text);
      var i := 0;
      while i < |ws|
        invariant 0 <= i <= |ws|
        invariant ids == Tokenizer.EncodeWords(vocab, 0, merges, ws[..i])
      {
        var chars := CharWord(ws[i]);
        var k := 0;
        while k < |merges|
          invariant 0 <= k <= |merges| && chars == ApplyMerges(CharWord(ws[i]), merges[..k])
        {
          assert merges[..k + 1][..k] == merges[..k];
          chars := ApplyMergeToWord(chars, merges[k]);
          k := k + 1;
        }
        assert merges[..k] == merges;
        ghost var before := ids;
        var j := 0;
        while j < |chars|
          invariant 0 <= j <= |chars| && ids == before + Tokenizer.Lookup(vocab, 0, chars[..j])
        {
          var id := if chars[j] in vocab then vocab[chars[j]] else 0;
          assert chars[..j + 1] == chars[..j] + [chars[j]];
          Tokenizer.LookupAppend(vocab, 0, chars[..j], [chars[j]]);
          ids := ids + [id];
          j := j + 1;
        }
        assert chars[..j] == chars;
        assert ws[..i + 1][..i] == ws[..i];
        i := i + 1;
      }
      assert ws[..i] == ws;
    }

    /** `decode` (always `Ok`): the string of every id, `<unk>` for unknown ids, nothing filtered. */
    method Decode(tokens: seq<nat>) returns (text: string)
      ensures text == DemoDecodeIds(reverseVocab, UnkText, tokens)
    {
      text := [];
      var i := 0;
      while i < |tokens|
        invariant 0 <= i <= |tokens| && text == DemoDecodeIds(reverseVocab, UnkText, tokens[..i])
      {
        var tokenId := tokens[i];
        assert tokens[..i + 1][..i] == tokens[..i];
        if tokenId in reverseVocab {
          text := text + reverseVocab[tokenId];
        } else {
          text := text + UnkText;
        }
        i := i + 1;
      }
      assert tokens[..i] == tokens;
    }
  }
}
