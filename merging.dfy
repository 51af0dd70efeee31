/**
 * The byte-pair-encoding vocabulary shared by the three tokenizers: words as
 * sequences of symbols, merging one pair of adjacent symbols, weighted pair
 * counts over word-frequency maps, and registering a token at the next id.
 */
module Merging {
  import opened Seqs
  import opened Text

  type Symbol = string
  type Word = seq<Symbol>
  type Pair = (Symbol, Symbol)

  /** The string a merge rule produces: left ++ right. */
  function Joined(p: Pair): Symbol { p.0 + p.1 }

  /** The strings produced by a list of merge rules, in order. */
  function Spellings(ms: seq<Pair>): seq<Symbol> {
    seq(|ms|, k requires 0 <= k < |ms| => Joined(ms[k]))
  }

  /** `*map.get(k).unwrap_or(&0)` */
  function Get<K>(m: map<K, nat>, k: K): nat {
    if k in m then m[k] else 0
  }

  /** `s.chars().map(|c| c.to_string())`: one symbol per character. */
  function CharWord(s: string): Word {
    seq(|s|, i requires 0 <= i < |s| => [s[i]])
  }

  /**
   * One left-to-right pass that replaces each non-overlapping occurrence of
   * the adjacent pair by its concatenation and keeps every other symbol.
   */
  function MergeWord(w: Word, p: Pair): Word {
    if |w| < 2 then w
    else if w[0] == p.0 && w[1] == p.1 then [Joined(p)] + MergeWord(w[2..], p)
    else [w[0]] + MergeWord(w[1..], p)
  }

  /** Every merge rule applied once, in learned order. */
  function ApplyMerges(w: Word, ms: seq<Pair>): Word {
    if ms == [] then w else MergeWord(ApplyMerges(w, ms[..|ms| - 1]), ms[|ms| - 1])
  }

  /** Number of positions i with (w[i], w[i+1]) == p; occurrences may overlap. */
  function Occ<T(==)>(w: seq<T>, p: (T, T)): nat {
    if |w| < 2 then 0 else (if (w[0], w[1]) == p then 1 else 0) + Occ(w[1..], p)
  }

  /** Occurrences times count; kept as a function so that proofs stay linear. */
  function Scaled(occurrences: nat, count: nat): nat { occurrences * count }

  /** Sum over the words of a frequency map of (occurrences of p) x (count). */
  ghost function Weight<T>(wf: map<seq<T>, nat>, p: (T, T)): nat
    decreases |wf|
  {
    if wf == map[] then 0
    else
      var w :| w in wf;
      Scaled(Occ(w, p), wf[w]) + Weight(wf - {w}, p)
  }

  /** Sum over the words of a frequency map of the occurrences of p. */
  ghost function Count<T>(wf: map<seq<T>, nat>, p: (T, T)): nat
    decreases |wf|
  {
    if wf == map[] then 0
    else
      var w :| w in wf;
      Occ(w, p) + Count(wf - {w}, p)
  }

  /** p is a most frequent adjacent pair of wf. */
  ghost predicate MaxPair<T(!new)>(wf: map<seq<T>, nat>, p: (T, T)) {
    Count(wf, p) > 0 && forall q :: Count(wf, q) > 0 ==> Weight(wf, q) <= Weight(wf, p)
  }

  /** Distinct words of the map spell distinct strings. */
  ghost predicate TextInjective(wf: map<Word, nat>) {
    forall u, v :: u in wf && v in wf && Flatten(u) == Flatten(v) ==> u == v
  }

  /** nf is wf with every word merged by p and every count kept. */
  ghost predicate MergedFrom(wf: map<Word, nat>, nf: map<Word, nat>, p: Pair) {
    nf.Keys == (set w | w in wf :: MergeWord(w, p))
    && forall w :: w in wf ==> nf[MergeWord(w, p)] == wf[w]
  }

  /** Every word of a list merged by p. */
  function MergeAll(ws: seq<Word>, p: Pair): seq<Word> {
    seq(|ws|, i requires 0 <= i < |ws| => MergeWord(ws[i], p))
  }

  /** Total number of symbols in a list of words. */
  function TotalLength(ws: seq<Word>): nat {
    if ws == [] then 0 else |ws[0]| + TotalLength(ws[1..])
  }

  // ---------------------------------------------------------------------------
  // Merging words
  // ---------------------------------------------------------------------------

  lemma {:induction false} CharWordSpelling(s: string)
    ensures Flatten(CharWord(s)) == s
    decreases |s|
  {
    if s != [] {
      assert CharWord(s) == [[s[0]]] + CharWord(s[1..]);
      CharWordSpelling(s[1..]);
    }
  }

  /** Merging keeps the text the word spells. */
  lemma {:induction false} MergeWordSpelling(w: Word, p: Pair)
    ensures Flatten(MergeWord(w, p)) == Flatten(w)
    decreases |w|
  {
    if |w| >= 2 {
      if w[0] == p.0 && w[1] == p.1 {
        MergeWordSpelling(w[2..], p);
        assert Flatten(w) == w[0] + Flatten(w[1..]);
        assert Flatten(w[1..]) == w[1] + Flatten(w[2..]) by { assert w[1..][1..] == w[2..]; }
        assert Flatten([Joined(p)] + MergeWord(w[2..], p)) == Joined(p) + Flatten(MergeWord(w[2..], p));
      } else {
        MergeWordSpelling(w[1..], p);
        assert Flatten([w[0]] + MergeWord(w[1..], p)) == w[0] + Flatten(MergeWord(w[1..], p));
      }
    }
  }

  /**
   * Merging never lengthens a word, keeps a non-empty word non-empty, and
   * strictly shortens exactly the words that contain the pair.
   */
  lemma {:induction false} MergeWordLength(w: Word, p: Pair)
    ensures |MergeWord(w, p)| <= |w|
    ensures |w| > 0 ==> |MergeWord(w, p)| > 0
    ensures Occ(w, p) > 0 <==> |MergeWord(w, p)| < |w|
    ensures Occ(w, p) == 0 ==> MergeWord(w, p) == w
    decreases |w|
  {
    if |w| >= 2 {
      if w[0] == p.0 && w[1] == p.1 {
        MergeWordLength(w[2..], p);
      } else {
        MergeWordLength(w[1..], p);
        assert w == [w[0]] + w[1..];
      }
    }
  }

  /** Every symbol of a merged word is an old symbol or the new token. */
  lemma {:induction false} MergeWordSymbols(w: Word, p: Pair)
    ensures forall s :: s in MergeWord(w, p) ==> s in w || s == Joined(p)
    decreases |w|
  {
    if |w| >= 2 {
      if w[0] == p.0 && w[1] == p.1 {
        MergeWordSymbols(w[2..], p);
        assert forall s :: s in w[2..] ==> s in w;
      } else {
        MergeWordSymbols(w[1..], p);
        assert forall s :: s in w[1..] ==> s in w;
      }
    }
  }

  lemma {:induction false} ApplyMergesSpelling(w: Word, ms: seq<Pair>)
    ensures Flatten(ApplyMerges(w, ms)) == Flatten(w)
    decreases |ms|
  {
    if ms != [] {
      ApplyMergesSpelling(w, ms[..|ms| - 1]);
      MergeWordSpelling(ApplyMerges(w, ms[..|ms| - 1]), ms[|ms| - 1]);
    }
  }

  /** After all merges every symbol is an original symbol or the string of some rule. */
  lemma {:induction false} ApplyMergesSymbols(w: Word, ms: seq<Pair>)
    ensures forall s :: s in ApplyMerges(w, ms) ==> s in w || s in Spellings(ms)
    decreases |ms|
  {
    if ms != [] {
      var init := ms[..|ms| - 1];
      ApplyMergesSymbols(w, init);
      MergeWordSymbols(ApplyMerges(w, init), ms[|ms| - 1]);
      assert Spellings(ms) == Spellings(init) + [Joined(ms[|ms| - 1])];
    }
  }

  lemma {:induction false} TotalLengthAppend(a: seq<Word>, b: seq<Word>)
    ensures TotalLength(a + b) == TotalLength(a) + TotalLength(b)
    decreases |a|
  {
    if a == [] {
      assert a + b == b;
    } else {
      assert (a + b)[1..] == a[1..] + b;
      TotalLengthAppend(a[1..], b);
    }
  }

  /** Merging a list never adds symbols, and removes some when one word holds the pair. */
  lemma {:induction false} MergeAllShrinks(ws: seq<Word>, p: Pair, w: Word)
    requires w in ws && Occ(w, p) > 0
    ensures TotalLength(MergeAll(ws, p)) < TotalLength(ws)
    decreases |ws|
  {
    MergeWordLength(ws[0], p);
    assert MergeAll(ws, p) == [MergeWord(ws[0], p)] + MergeAll(ws[1..], p);
    if ws[0] == w {
      MergeAllNeverGrows(ws[1..], p);
    } else {
      MergeAllShrinks(ws[1..], p, w);
    }
  }

  lemma {:induction false} MergeAllNeverGrows(ws: seq<Word>, p: Pair)
    ensures TotalLength(MergeAll(ws, p)) <= TotalLength(ws)
    decreases |ws|
  {
    if ws != [] {
      MergeWordLength(ws[0], p);
      assert MergeAll(ws, p) == [MergeWord(ws[0], p)] + MergeAll(ws[1..], p);
      MergeAllNeverGrows(ws[1..], p);
    }
  }

  /** Merging keeps distinct words spelling distinct strings. */
  lemma MergePreservesTextInjective(wf: map<Word, nat>, nf: map<Word, nat>, p: Pair)
    requires TextInjective(wf) && nf.Keys == (set w | w in wf :: MergeWord(w, p))
    ensures TextInjective(nf)
  {
    forall u, v | u in nf && v in nf && Flatten(u) == Flatten(v) ensures u == v {
      var u0 :| u0 in wf && MergeWord(u0, p) == u;
      var v0 :| v0 in wf && MergeWord(v0, p) == v;
      MergeWordSpelling(u0, p);
      MergeWordSpelling(v0, p);
    }
  }

  // ---------------------------------------------------------------------------
  // Pair counts
  // ---------------------------------------------------------------------------

  lemma WeightPeel<T>(wf: map<seq<T>, nat>, w: seq<T>, p: (T, T))
    requires w in wf
    ensures Weight(wf, p) == Scaled(Occ(w, p), wf[w]) + Weight(wf - {w}, p)
    decreases |wf|
  {
    var v :| v in wf && Weight(wf, p) == Scaled(Occ(v, p), wf[v]) + Weight(wf - {v}, p);
    if v != w {
      WeightPeel(wf - {v}, w, p);
      WeightPeel(wf - {w}, v, p);
      assert (wf - {v}) - {w} == (wf - {w}) - {v};
    }
  }

  lemma CountPeel<T>(wf: map<seq<T>, nat>, w: seq<T>, p: (T, T))
    requires w in wf
    ensures Count(wf, p) == Occ(w, p) + Count(wf - {w}, p)
    decreases |wf|
  {
    var v :| v in wf && Count(wf, p) == Occ(v, p) + Count(wf - {v}, p);
    if v != w {
      var both := (wf - {v}) - {w};
      assert both == (wf - {w}) - {v};
      CountPeel(wf - {v}, w, p);
      assert Count(wf - {v}, p) == Occ(w, p) + Count(both, p);
      CountPeel(wf - {w}, v, p);
      assert Count(wf - {w}, p) == Occ(v, p) + Count(both, p);
    }
  }

  /** A pair counts (unweighted) iff it occurs in some word. */
  lemma CountWitness<T>(wf: map<seq<T>, nat>, p: (T, T)) returns (w: seq<T>)
    requires Count(wf, p) > 0
    ensures w in wf && Occ(w, p) > 0
    decreases |wf|
  {
    var v :| v in wf && Count(wf, p) == Occ(v, p) + Count(wf - {v}, p);
    if Occ(v, p) > 0 {
      w := v;
    } else {
      w := CountWitness(wf - {v}, p);
    }
  }

  /** A word of two or more symbols makes its first pair count. */
  lemma LongWordsHavePairs<T>(wf: map<seq<T>, nat>)
    ensures forall w :: w in wf && |w| >= 2 ==> Count(wf, (w[0], w[1])) > 0
  {
    forall w | w in wf && |w| >= 2 ensures Count(wf, (w[0], w[1])) > 0 {
      CountPeel(wf, w, (w[0], w[1]));
    }
  }

  lemma {:induction false} OccSnoc<T>(w: seq<T>, x: T, p: (T, T))
    ensures Occ(w + [x], p) == Occ(w, p) + (if |w| > 0 && (w[|w| - 1], x) == p then 1 else 0)
    decreases |w|
  {
    if |w| >= 2 {
      assert (w + [x])[1..] == w[1..] + [x];
      OccSnoc(w[1..], x, p);
    } else if |w| == 1 {
      assert (w + [x])[1..] == [x];
    }
  }

  /**
   * The pair-frequency loop: every adjacent pair of every word, weighted by the
   * word's count, keyed by the pair; pairs never span two words. The words are
   * visited in an unspecified order, like a `HashMap` iteration.
   */
  method CountPairs<T(==,!new)>(wf: map<seq<T>, nat>) returns (pf: map<(T, T), nat>)
    ensures forall p :: p in pf <==> Count(wf, p) > 0
    ensures forall p :: p in pf ==> pf[p] == Weight(wf, p)
  {
    pf := map[];
    var rest := wf;
    ghost var done: map<seq<T>, nat> := map[];
    while rest != map[]
      invariant forall w :: w in wf <==> w in done || w in rest
      invariant forall w :: w in done ==> w !in rest && done[w] == wf[w]
      invariant forall w :: w in rest ==> rest[w] == wf[w]
      invariant forall p :: (p in pf <==> Count(done, p) > 0) && Get(pf, p) == Weight(done, p)
      decreases |rest|
    {
      var w :| w in rest;
      var f := rest[w];
      ghost var pfOld := pf;
      pf := AddPairsOfWord(pf, w, f);
      AccumulateWord(pfOld, pf, done, w, f);
      done := done[w := f];
      rest := rest - {w};
    }
    assert done == wf;
  }

  /** One step of CountPairs: the sums over `done` extended by one word. */
  lemma AccumulateWord<T(!new)>(pfOld: map<(T, T), nat>, pf: map<(T, T), nat>, done: map<seq<T>, nat>, w: seq<T>, f: nat)
    requires w !in done
    requires forall p :: (p in pfOld <==> Count(done, p) > 0) && Get(pfOld, p) == Weight(done, p)
    requires forall p :: (p in pf <==> p in pfOld || Occ(w, p) > 0) && Get(pf, p) == Get(pfOld, p) + Scaled(Occ(w, p), f)
    ensures forall p :: (p in pf <==> Count(done[w := f], p) > 0) && Get(pf, p) == Weight(done[w := f], p)
  {
    var done' := done[w := f];
    assert done' - {w} == done;
    forall p ensures (p in pf <==> Count(done', p) > 0) && Get(pf, p) == Weight(done', p) {
      WeightPeel(done', w, p);
      CountPeel(done', w, p);
    }
  }

  /** The inner loop: add f for every adjacent pair of one word. */
  method AddPairsOfWord<T(==,!new)>(pf0: map<(T, T), nat>, w: seq<T>, f: nat) returns (pf: map<(T, T), nat>)
    ensures forall p :: (p in pf <==> p in pf0 || Occ(w, p) > 0) && Get(pf, p) == Get(pf0, p) + Scaled(Occ(w, p), f)
  {
    pf := pf0;
    if |w| > 0 {
      var i := 0;
      ghost var seen := w[..1];
      while i < |w| - 1
        invariant 0 <= i <= |w| - 1 && seen == w[..i + 1]
        invariant forall p :: (p in pf <==> p in pf0 || Occ(seen, p) > 0) && Get(pf, p) == Get(pf0, p) + Scaled(Occ(seen, p), f)
      {
        var p := (w[i], w[i + 1]);
        ghost var prev := pf;
        pf := pf[p := Get(pf, p) + f];
        AddPairStep(prev, pf, pf0, seen, w[i + 1], f);
        assert w[..i + 2] == seen + [w[i + 1]];
        seen := seen + [w[i + 1]];
        i := i + 1;
      }
      assert seen == w;
    }
  }

  /** One step of AddPairsOfWord: the pair ending at the next symbol is counted once more. */
  lemma AddPairStep<T(!new)>(prev: map<(T, T), nat>, pf: map<(T, T), nat>, pf0: map<(T, T), nat>, seen: seq<T>, x: T, f: nat)
    requires |seen| > 0
    requires pf == prev[(seen[|seen| - 1], x) := Get(prev, (seen[|seen| - 1], x)) + f]
    requires forall p :: (p in prev <==> p in pf0 || Occ(seen, p) > 0) && Get(prev, p) == Get(pf0, p) + Scaled(Occ(seen, p), f)
    ensures forall p :: (p in pf <==> p in pf0 || Occ(seen + [x], p) > 0) && Get(pf, p) == Get(pf0, p) + Scaled(Occ(seen + [x], p), f)
  {
    forall p ensures (p in pf <==> p in pf0 || Occ(seen + [x], p) > 0) && Get(pf, p) == Get(pf0, p) + Scaled(Occ(seen + [x], p), f) {
      OccSnoc(seen, x, p);
      assert Scaled(Occ(seen, p) + 1, f) == Scaled(Occ(seen, p), f) + f;
    }
  }

  /**
   * `max_by_key` over the entries of a map in an unspecified order: some key
   * with the largest value (ties resolved by the visiting order).
   */
  method MaxByValue<K(!new)>(m: map<K, nat>) returns (k: K)
    requires m != map[]
    ensures k in m && forall q :: q in m ==> m[q] <= m[k]
  {
    var rest := m.Keys;
    k :| k in rest;
    rest := rest - {k};
    while rest != {}
      invariant rest <= m.Keys && k in m
      invariant forall q :: q in m && q !in rest ==> m[q] <= m[k]
      decreases rest
    {
      var q :| q in rest;
      if m[q] >= m[k] {
        k := q;
      }
      rest := rest - {q};
    }
  }

  /**
   * The same left-to-right merge done in place, as `apply_bpe` and the
   * demo's `apply_merge_to_word` do it: the symbol at i becomes the
   * concatenation, the one at i+1 is removed, and i stays put. The text is
   * kept and the word never grows; when the right symbol is non-empty the
   * result is exactly MergeWord.
   */
  method MergeInPlace(word: Word, p: Pair) returns (tokens: Word)
    ensures Flatten(tokens) == Flatten(word) && |tokens| <= |word|
    ensures p.1 != [] ==> tokens == MergeWord(word, p)
  {
    tokens := word;
    var i := 0;
    assert word[..0] + word[0..] == word;
    while i + 1 < |tokens|
      invariant i <= |tokens| || (i == 0 && tokens == [])
      invariant Flatten(tokens) == Flatten(word) && |tokens| <= |word|
      invariant p.1 != [] ==> Pending(tokens, i, p) == MergeWord(word, p)
      decreases |tokens| - i
    {
      if tokens[i] == p.0 && tokens[i + 1] == p.1 {
        var merged := Joined(p);
        SpellingOfMerge(tokens, i, merged);
        if p.1 != [] {
          InPlaceMatchStep(tokens, i, p);
        }
        tokens := Replaced(tokens, i, merged);
      } else {
        InPlaceSkipStep(tokens, i, p);
        i := i + 1;
      }
    }
    if p.1 != [] {
      PendingDone(tokens, i, p);
    }
  }

  /** `tokens` with the pair at i replaced by the single symbol `j`. */
  function Replaced(tokens: Word, i: nat, j: Symbol): (r: Word)
    requires i + 1 < |tokens|
    ensures |r| == |tokens| - 1
  {
    tokens[..i] + [j] + tokens[i + 2..]
  }

  /** The merge pass that still has to run from i, after the final symbols before it. */
  function Pending(tokens: Word, i: nat, p: Pair): Word
    requires i <= |tokens|
  {
    tokens[..i] + MergeWord(tokens[i..], p)
  }

  lemma PendingDone(tokens: Word, i: nat, p: Pair)
    requires i <= |tokens| && i + 1 >= |tokens|
    ensures Pending(tokens, i, p) == tokens
  {
    assert MergeWord(tokens[i..], p) == tokens[i..];
    assert tokens[..i] + tokens[i..] == tokens;
  }

  /** A matching pair at i: merging it in place leaves the remaining work unchanged. */
  lemma InPlaceMatchStep(tokens: Word, i: nat, p: Pair)
    requires i + 1 < |tokens| && tokens[i] == p.0 && tokens[i + 1] == p.1 && p.1 != []
    ensures Pending(Replaced(tokens, i, Joined(p)), i, p) == Pending(tokens, i, p)
  {
    var next := Replaced(tokens, i, Joined(p));
    assert Joined(p) != p.0 by { assert |Joined(p)| > |p.0|; }
    assert next[..i] == tokens[..i] && next[i] == Joined(p) && next[i + 1..] == tokens[i + 2..];
    MergeWordAt(next, i, p);
    MergeWordAt(tokens, i, p);
  }

  /** No match at i: the symbol at i is final. */
  lemma InPlaceSkipStep(tokens: Word, i: nat, p: Pair)
    requires i + 1 < |tokens| && !(tokens[i] == p.0 && tokens[i + 1] == p.1)
    ensures Pending(tokens, i + 1, p) == Pending(tokens, i, p)
  {
    assert tokens[i..][1..] == tokens[i + 1..];
    assert tokens[..i + 1] == tokens[..i] + [tokens[i]];
  }

  /** The pass at position i: a matching pair becomes one symbol and skips two, any other symbol is kept. */
  lemma MergeWordAt(w: Word, i: nat, p: Pair)
    requires i < |w|
    ensures i + 1 < |w| && w[i] == p.0 && w[i + 1] == p.1 ==> MergeWord(w[i..], p) == [Joined(p)] + MergeWord(w[i + 2..], p)
    ensures !(i + 1 < |w| && w[i] == p.0 && w[i + 1] == p.1) ==> MergeWord(w[i..], p) == [w[i]] + MergeWord(w[i + 1..], p)
  {
    if i + 1 < |w| {
      assert w[i..][2..] == w[i + 2..] && w[i..][1..] == w[i + 1..];
    } else {
      assert w[i..] == [w[i]] && w[i + 1..] == [];
    }
  }

  lemma SpellingOfJoined(b: Word, j: Symbol)
    ensures Flatten([j] + b) == j + Flatten(b)
  {
    assert ([j] + b)[1..] == b;
  }

  /** Joining two adjacent strings into one keeps the concatenated text. */
  lemma FlattenJoin(a: seq<string>, x: string, y: string, b: seq<string>)
    ensures Flatten(a + ([x + y] + b)) == Flatten(a + ([x, y] + b))
  {
    FlattenAppend(a, [x + y] + b);
    FlattenAppend(a, [x, y] + b);
    SpellingOfJoined(b, x + y);
    assert ([x, y] + b)[1..] == [y] + b;
    SpellingOfJoined(b, y);
    assert (x + y) + Flatten(b) == x + (y + Flatten(b));
  }

  /** Replacing two adjacent symbols by their concatenation j keeps the text. */
  lemma SpellingOfMerge(tokens: Word, i: nat, j: Symbol)
    requires i + 1 < |tokens| && j == tokens[i] + tokens[i + 1]
    ensures Flatten(Replaced(tokens, i, j)) == Flatten(tokens)
  {
    SplitTwo(tokens, i);
    AppendAssoc(tokens[..i], [j], tokens[i + 2..]);
    FlattenJoin(tokens[..i], tokens[i], tokens[i + 1], tokens[i + 2..]);
  }

  // ---------------------------------------------------------------------------
  // Word frequencies
  // ---------------------------------------------------------------------------

  /** Each word split into one-character symbols. */
  function CharWords(ws: seq<string>): seq<Word> {
    seq(|ws|, i requires 0 <= i < |ws| => CharWord(ws[i]))
  }

  /** The frequency map built by `*freqs.entry(chars).or_insert(0) += 1` over the words in order. */
  function WordCounts(ws: seq<string>): map<Word, nat> {
    if ws == [] then map[]
    else
      var m := WordCounts(ws[..|ws| - 1]);
      var k := CharWord(ws[|ws| - 1]);
      m[k := Get(m, k) + 1]
  }

  lemma CharWordInjective(s: string, t: string)
    requires CharWord(s) == CharWord(t)
    ensures s == t
  {
    CharWordSpelling(s);
    CharWordSpelling(t);
  }

  /** Every symbol of a character word is one character of it. */
  lemma CharWordSymbols(s: string)
    ensures forall k :: 0 <= k < |CharWord(s)| ==> |CharWord(s)[k]| == 1 && CharWord(s)[k][0] in s
  {
  }

  /**
   * The keys are exactly the character words of the words, and each counts
   * how often its word occurs.
   */
  lemma {:induction false} WordCountsMeaning(ws: seq<string>)
    ensures forall w :: w in WordCounts(ws) <==> w in CharWords(ws)
    ensures forall s :: Get(WordCounts(ws), CharWord(s)) == multiset(ws)[s]
    decreases |ws|
  {
    if ws != [] {
      var init, last := ws[..|ws| - 1], ws[|ws| - 1];
      WordCountsMeaning(init);
      assert ws == init + [last];
      assert CharWords(ws) == CharWords(init) + [CharWord(last)];
      forall s ensures Get(WordCounts(ws), CharWord(s)) == multiset(ws)[s] {
        if CharWord(s) == CharWord(last) {
          CharWordInjective(s, last);
        }
      }
    }
  }

  /** Distinct keys of a frequency map spell distinct words. */
  lemma WordCountsInjective(ws: seq<string>)
    ensures TextInjective(WordCounts(ws))
  {
    WordCountsMeaning(ws);
    forall u, v | u in WordCounts(ws) && v in WordCounts(ws) && Flatten(u) == Flatten(v) ensures u == v {
      var i :| 0 <= i < |ws| && u == CharWord(ws[i]);
      var j :| 0 <= j < |ws| && v == CharWord(ws[j]);
      CharWordSpelling(ws[i]);
      CharWordSpelling(ws[j]);
    }
  }

  /** Non-empty words give non-empty keys, whose symbols are single characters of the word. */
  lemma WordCountsSymbols(ws: seq<string>)
    requires forall i :: 0 <= i < |ws| ==> ws[i] != []
    ensures forall w :: w in WordCounts(ws) ==> w != []
    ensures forall w, k :: w in WordCounts(ws) && 0 <= k < |w| ==> |w[k]| == 1 && w[k][0] in Flatten(w)
  {
    WordCountsMeaning(ws);
    forall w | w in WordCounts(ws)
      ensures w != [] && forall k :: 0 <= k < |w| ==> |w[k]| == 1 && w[k][0] in Flatten(w)
    {
      var i :| 0 <= i < |ws| && w == CharWord(ws[i]);
      CharWordSymbols(ws[i]);
      CharWordSpelling(ws[i]);
    }
  }

  /** `get_word_frequencies`: one count per whitespace-separated word, keyed by its characters. */
  method CountWords(text: string) returns (freqs: map<Word, nat>)
    ensures freqs == WordCounts(Words(text))
  {
    var ws := Words(text);
    freqs := map[];
    var i := 0;
    while i < |ws|
      invariant 0 <= i <= |ws| && freqs == WordCounts(ws[..i])
    {
      var chars := CharWord(ws[i]);
      assert ws[..i + 1][..i] == ws[..i];
      freqs := freqs[chars := Get(freqs, chars) + 1];
      i := i + 1;
    }
    assert ws[..i] == ws;
  }

  /** Merging is one-to-one on words that spell distinct strings. */
  lemma MergeInjective(wf: map<Word, nat>, p: Pair, u: Word, v: Word)
    requires TextInjective(wf) && u in wf && v in wf && MergeWord(u, p) == MergeWord(v, p)
    ensures u == v
  {
    MergeWordSpelling(u, p);
    MergeWordSpelling(v, p);
  }

  /** The keys of a merged map are the merged list of keys. */
  lemma KeysOfMergeAll(wf: map<Word, nat>, nf: map<Word, nat>, keys: seq<Word>, p: Pair)
    requires forall w :: w in wf <==> w in keys
    requires nf.Keys == (set w | w in wf :: MergeWord(w, p))
    ensures forall w :: w in nf <==> w in MergeAll(keys, p)
  {
    forall w ensures w in nf <==> w in MergeAll(keys, p) {
      if w in nf {
        var u :| u in wf && MergeWord(u, p) == w;
        var i :| 0 <= i < |keys| && keys[i] == u;
        assert MergeAll(keys, p)[i] == w;
      }
      if w in MergeAll(keys, p) {
        var i :| 0 <= i < |keys| && MergeAll(keys, p)[i] == w;
        assert keys[i] in wf;
      }
    }
  }

  lemma SpellingsAppend(ms: seq<Pair>, p: Pair)
    ensures Spellings(ms + [p]) == Spellings(ms) + [Joined(p)]
  {
  }

  // ---------------------------------------------------------------------------
  // Vocabularies: token -> id and id -> token
  // ---------------------------------------------------------------------------

  datatype Vocab = Vocab(toId: map<string, nat>, toStr: map<nat, string>)

  /** Insert s with id = current number of tokens, in both directions. */
  function Register(v: Vocab, s: string): Vocab {
    Vocab(v.toId[s := |v.toId|], v.toStr[|v.toId| := s])
  }

  function RegisterAll(v: Vocab, ss: seq<string>): Vocab {
    if ss == [] then v else Register(RegisterAll(v, ss[..|ss| - 1]), ss[|ss| - 1])
  }

  /** Each string is new to the vocabulary at the moment it is registered. */
  ghost predicate AllFresh(v: Vocab, ss: seq<string>) {
    ss == [] || (AllFresh(v, ss[..|ss| - 1]) && ss[|ss| - 1] !in RegisterAll(v, ss[..|ss| - 1]).toId)
  }

  /** The two maps are inverse to each other and the ids are exactly 0 .. size-1. */
  ghost predicate Bijective(v: Vocab) {
    (forall s :: s in v.toId ==> v.toId[s] in v.toStr && v.toStr[v.toId[s]] == s)
    && (forall i :: i in v.toStr ==> v.toStr[i] in v.toId && v.toId[v.toStr[i]] == i)
    && (forall i: nat :: i in v.toStr <==> i < |v.toId|)
  }

  /**
   * Registering keeps the maps inverse and the ids dense exactly when the
   * string is new; a repeated string gets a second id and the size stays.
   */
  lemma RegisterKeepsBijective(v: Vocab, s: string)
    requires Bijective(v)
    ensures Bijective(Register(v, s)) <==> s !in v.toId
    ensures |Register(v, s).toId| == if s in v.toId then |v.toId| else |v.toId| + 1
  {
    var n := |v.toId|;
    var r := Register(v, s);
    if s !in v.toId {
      assert |r.toId| == n + 1;
      forall t | t in r.toId ensures r.toId[t] in r.toStr && r.toStr[r.toId[t]] == t {
        if t != s {
          assert v.toId[t] in v.toStr;
          assert v.toId[t] < n;
        }
      }
      forall i | i in r.toStr ensures r.toStr[i] in r.toId && r.toId[r.toStr[i]] == i {
        if i != n {
          assert v.toStr[i] in v.toId;
        }
      }
    } else {
      assert |r.toId| == n;
      assert n in r.toStr;
    }
  }

  lemma {:induction false} RegisterAllKeepsBijective(v: Vocab, ss: seq<string>)
    requires Bijective(v) && AllFresh(v, ss)
    ensures Bijective(RegisterAll(v, ss))
    decreases |ss|
  {
    if ss != [] {
      RegisterAllKeepsBijective(v, ss[..|ss| - 1]);
      RegisterKeepsBijective(RegisterAll(v, ss[..|ss| - 1]), ss[|ss| - 1]);
    }
  }

  /** Registration only adds keys: the old ones and the registered strings. */
  lemma {:induction false} RegisterAllKeys(v: Vocab, ss: seq<string>)
    ensures forall s :: s in RegisterAll(v, ss).toId <==> s in v.toId || s in ss
    decreases |ss|
  {
    if ss != [] {
      RegisterAllKeys(v, ss[..|ss| - 1]);
      assert ss == ss[..|ss| - 1] + [ss[|ss| - 1]];
    }
  }

  /** A string that is never registered again keeps its id. */
  lemma {:induction false} RegisterAllKeepsOthers(v: Vocab, ss: seq<string>, s: string)
    requires s in v.toId && s !in ss
    ensures s in RegisterAll(v, ss).toId && RegisterAll(v, ss).toId[s] == v.toId[s]
    decreases |ss|
  {
    if ss != [] {
      assert ss == ss[..|ss| - 1] + [ss[|ss| - 1]];
      RegisterAllKeys(v, ss[..|ss| - 1]);
      RegisterAllKeepsOthers(v, ss[..|ss| - 1], s);
    }
  }

  lemma {:induction false} RegisterAllAppend(v: Vocab, a: seq<string>, b: seq<string>)
    ensures RegisterAll(RegisterAll(v, a), b) == RegisterAll(v, a + b)
    ensures AllFresh(v, a + b) <==> AllFresh(v, a) && AllFresh(RegisterAll(v, a), b)
    decreases |b|
  {
    if b == [] {
      assert a + b == a;
    } else {
      var b' := b[..|b| - 1];
      assert (a + b)[..|a + b| - 1] == a + b';
      assert (a + b)[|a + b| - 1] == b[|b| - 1];
      RegisterAllAppend(v, a, b');
    }
  }

  /** Registering one more string, as the recursive definitions unfold. */
  lemma RegisterSnoc(v: Vocab, ss: seq<string>, s: string)
    ensures RegisterAll(v, ss + [s]) == Register(RegisterAll(v, ss), s)
    ensures AllFresh(v, ss + [s]) <==> AllFresh(v, ss) && s !in RegisterAll(v, ss).toId
  {
    assert (ss + [s])[..|ss|] == ss;
  }

  /** A fresh registration sequence avoids every string already present. */
  lemma {:induction false} AllFreshAvoidsOld(v: Vocab, ss: seq<string>)
    requires AllFresh(v, ss)
    ensures forall s :: s in ss ==> s !in v.toId
    decreases |ss|
  {
    if ss != [] {
      var init := ss[..|ss| - 1];
      AllFreshAvoidsOld(v, init);
      RegisterAllKeys(v, init);
      assert ss == init + [ss[|ss| - 1]];
    }
  }

  /** Idempotent insertion (`add_token`): a present string keeps its id, a new one is registered. */
  function Insert(v: Vocab, s: string): Vocab {
    if s in v.toId then v else Register(v, s)
  }

  function InsertAll(v: Vocab, ss: seq<string>): Vocab {
    if ss == [] then v else Insert(InsertAll(v, ss[..|ss| - 1]), ss[|ss| - 1])
  }

  /**
   * Unlike registration, idempotent insertion keeps the maps inverse and the
   * ids dense whatever is inserted; the keys become the old ones plus the
   * inserted strings, old strings keep their ids, and the size grows as soon
   * as one inserted string was new.
   */
  lemma {:induction false} InsertAllKeepsBijective(v: Vocab, ss: seq<string>)
    requires Bijective(v)
    ensures Bijective(InsertAll(v, ss))
    ensures forall s :: s in InsertAll(v, ss).toId <==> s in v.toId || s in ss
    ensures forall s :: s in v.toId ==> InsertAll(v, ss).toId[s] == v.toId[s]
    ensures |InsertAll(v, ss).toId| >= |v.toId|
    ensures (exists s :: s in ss && s !in v.toId) ==> |InsertAll(v, ss).toId| > |v.toId|
    decreases |ss|
  {
    if ss != [] {
      var init, last := ss[..|ss| - 1], ss[|ss| - 1];
      assert ss == init + [last];
      InsertAllKeepsBijective(v, init);
      var w := InsertAll(v, init);
      if last !in w.toId {
        RegisterKeepsBijective(w, last);
      }
    }
  }
}
