# mini-gpt-rust in Dafny

This project models the integer and structural core of mini-gpt-rust, an
educational GPT written in Rust, and proves properties of that model. It covers
these parts:

- **Tokenizers.** The library's byte-pair-encoding tokenizer (`src/tokenizer.rs`)
  trains on the words of a corpus, encodes with BOS/EOS framing and an UNK
  fallback, and decodes while dropping every `<...>` token. Two teaching
  variants sit beside it:
  - the word tokenizer and simplified BPE of `examples/educational/tokenization_process.rs`;
  - the ASCII-based BPE of `examples/tokenizer_demo.rs`.
- **Chunking.**
  - The fixed and overlapping chunkers of `src/chunking.rs`, with their
    length-keyed cache, tensor padding, statistics, sentence, paragraph and
    density metrics, and gap analysis.
  - The word-level chunkers of the benchmark demo.
- **Resource managers.**
  - The best-fit block pool with garbage collection and compaction.
  - The bounded byte allocator and the priority scheduler of the inference engine.
  - The bounded key/value cache and the timeout batcher.
  - INT4 nibble packing.
  - The shape-keyed matrix pool of the fused-kernel demo.
- **Model arithmetic.**
  - Causal-mask layout, parameter and FLOP counts.
  - Generation with a sliding context window and an EOS stop.
  - The cumulative-sum sampler.
  - The logger's FLOP estimate, counters and timers, and its linear congruential generator.

## How the source is modelled

- **One module per core file.** `Seqs`, `Wrappers`, `Text` and `Merging` are
  shared helpers: generic sequence facts, `Option`/`Result`, Rust string
  operations, and the BPE vocabulary.
- **Classes for mutable state.** Objects whose methods update their fields
  (tokenizers, chunk processor, pools, scheduler, caches, batcher, logger and
  seed cell) are classes, with methods that state their whole new state.
- **Loops as methods.** The source's loops are `while` loops with invariants,
  proved against specification functions. The lemmas are about those functions.
- **HashMap iteration order.** Wherever the source iterates a `HashMap`, the
  model chooses the next key nondeterministically (`:|`). This covers the ids
  of base characters and the choice between equally frequent pairs: the model
  specifies "some pair of maximal frequency".
- **Numbers.**
  - Floats (`f32`/`f64`) are exact reals.
  - `Uuid`s are creation counters.
  - `Instant`s are whole seconds or milliseconds passed in by the caller.
- **Collaborators as parameters.** Candle tensor code and tokenizer calls
  made from other modules are function parameters: the decoder of a chunk,
  the next-token step of generation, the cross-entropy of a loss, and the
  semantic and adaptive chunkers.
- **Panics and hangs.** Where the source would panic or loop forever
  (`chunks(0)`, a `usize` underflow, a step of 0), the model returns an error
  value. Where an error value would only restate the panic, the model uses a
  precondition instead; each of those is listed below.

### Where comments and tests disagree with the code

The model follows the code in each case.

- **src/tokenizer.rs:704-709.** The doc comment of `decode` shows a space
  token, but whitespace never becomes a token. The round trip
  (`Tokenizer.RoundTrip`) therefore gives the text with all whitespace removed.
- **examples/tokenizer_demo.rs:594-598.** The test asserts that a new
  tokenizer has at least 100 tokens. `new` creates 4 specials and the 95
  printable ASCII characters, which is 99 tokens
  (`TokenizerDemo.DemoInitialVocabShape`).
- **examples/educational/optimization_techniques.rs:743-767.** The test
  expects two fresh requests to form a batch of 2. `form_batch` takes a later
  request only when it has waited for the timeout, so the batch holds only the
  first request (`Optimization.BatcherScenario`, `Optimization.OnlyOneWhenFresh`).
- **src/chunking.rs:150-164.** The chunk cache is keyed by the configuration
  and the text's byte length only. Two different texts of the same length
  therefore share an entry (`Chunking.CacheCollision`). This is modelled as
  written. It is not listed as a finding, because nothing in the source says
  whether the key was meant to identify the text itself.

## Model

| member | source | states |
|---|---|---|
| Tokenizer.InitialVocabShape | src/tokenizer.rs:268-291 | the vocabulary of `new` has exactly the four specials `<PAD>`, `<UNK>`, `<BOS>`, `<EOS>` at ids 0..3, the reverse map is its exact inverse with ids exactly 0..3, and every initial token has the form `<...>` |
| Tokenizer.BpeTokenizer.constructor | src/tokenizer.rs:268-291 | `new` yields the initial vocabulary and its inverse, no merge rules, and keeps the requested target size |
| Tokenizer.BpeTokenizer.VocabSize | src/tokenizer.rs:752-754 | the size is the number of tokens; when the two maps are inverse the ids present are exactly 0 .. size-1 |
| Tokenizer.BpeTokenizer.IsEosToken | src/tokenizer.rs:770-772 | with the special ids of `new`, a token is EOS exactly when it is id 3 |
| Tokenizer.BpeTokenizer.GetWordFrequencies | src/tokenizer.rs:432-444 | the map from each whitespace-separated word, as a sequence of one-character symbols, to its number of occurrences |
| Merging.WordCountsMeaning | src/tokenizer.rs:432-444 | the keys of the word map are exactly the character words of the text and each word's count is its multiplicity in the word list |
| Merging.WordCountsInjective | src/tokenizer.rs:432-444 | distinct keys of the word map spell distinct strings |
| Merging.WordCountsSymbols | src/tokenizer.rs:432-444 | with non-empty words, every key is non-empty and every symbol is one character of that word |
| Merging.CountWords | src/tokenizer.rs:432-444 | the counting loop over the words of the text computes the word map |
| Tokenizer.BpeTokenizer.GetPairFrequencies | src/tokenizer.rs:467-483 | a pair is a key exactly when it occurs adjacently in some word, and its value is the sum over words of occurrences times the word's count; pairs never span two words |
| Merging.CountPairs | src/tokenizer.rs:467-483 | the loop over the word map yields exactly the pairs with a positive count, each with its weighted number of occurrences |
| Merging.AddPairsOfWord | src/tokenizer.rs:474-479 | the inner loop over one word adds its count once per occurrence of each adjacent pair and creates exactly the pairs it contains |
| Merging.AccumulateWord | src/tokenizer.rs:471-480 | adding one more word's pair counts to the counts of the words seen so far gives the counts over both |
| Merging.OccSnoc | src/tokenizer.rs:474-479 | appending a symbol adds one occurrence of the pair it forms with the last symbol and no other |
| Merging.LongWordsHavePairs | src/tokenizer.rs:467-483 | every word of two or more symbols contributes its first pair to the pair map |
| Merging.WeightPeel | src/tokenizer.rs:467-483 | the weighted pair count splits into one word's share and the count over the other words |
| Merging.CountPeel | src/tokenizer.rs:467-483 | the unweighted pair count splits the same way |
| Merging.CountWitness | src/tokenizer.rs:467-483 | a pair with a positive count occurs in some word |
| Tokenizer.BpeTokenizer.ApplyMergeToWord | src/tokenizer.rs:657-682 | the index loop that pushes the merged token and skips two, or pushes one symbol, computes exactly the left-to-right non-overlapping merge of the word |
| Merging.MergeWordAt | src/tokenizer.rs:665-679 | one step of the scan: a matching pair at i becomes the joined symbol and the scan resumes at i+2, otherwise the symbol at i is kept and it resumes at i+1 |
| Merging.MergeWordSpelling | src/tokenizer.rs:508-543 | merging a pair never changes the text the word spells |
| Merging.MergeWordLength | src/tokenizer.rs:508-543 | merging never lengthens a word, keeps a non-empty word non-empty, shortens it exactly when the pair occurs in it, and leaves it unchanged otherwise |
| Merging.MergeWordSymbols | src/tokenizer.rs:508-543 | every symbol after a merge was already in the word or is the joined pair |
| Tokenizer.BpeTokenizer.ApplyMerge | src/tokenizer.rs:508-543 | the new map's words are exactly the merged words; each carries the count of a word that merges into it; when distinct words spell distinct strings, each merged word carries exactly its original word's count |
| Merging.MergeInjective | src/tokenizer.rs:539 | when distinct words spell distinct strings, no two words merge to the same word, so `insert` never overwrites a count |
| Merging.MergePreservesTextInjective | src/tokenizer.rs:508-543 | merging keeps distinct words spelling distinct strings |
| Merging.KeysOfMergeAll | src/tokenizer.rs:508-543 | the keys of the merged map are exactly the merged list of keys |
| Merging.MergeAllShrinks | src/tokenizer.rs:364-400 | when some word contains the pair, the total number of symbols strictly drops, which is why training terminates |
| Merging.MergeAllNeverGrows | src/tokenizer.rs:508-543 | merging never increases the total number of symbols |
| Merging.TotalLengthAppend | src/tokenizer.rs:508-543 | total symbol count is additive over lists of words |
| Merging.MaxByValue | src/tokenizer.rs:377-381 | `max_by_key` in an unspecified visiting order returns some key whose value is maximal |
| Tokenizer.BpeTokenizer.RegisterAlphabet | src/tokenizer.rs:351-359 | the alphabet phase registers each symbol not yet present at the next id, every registered string is fresh when registered, each comes from some word, and afterwards every symbol of every word is a token |
| Tokenizer.BpeTokenizer.RegisterSymbols | src/tokenizer.rs:352-358 | the inner loop over one word registers exactly its new symbols, in order, each fresh, and keeps every earlier token |
| Tokenizer.BpeTokenizer.RegisterToken | src/tokenizer.rs:353-357 | a new token gets id = vocabulary size in both maps and nothing else changes |
| Tokenizer.AlphabetCovers | src/tokenizer.rs:351-359 | every registered alphabet string is one character, every non-whitespace character of the corpus becomes a token, and a blank corpus registers nothing |
| Tokenizer.BpeTokenizer.AddMerge | src/tokenizer.rs:385-395 | left ++ right is registered at id = current size, overwriting its entry when already present, and the rule is appended |
| Tokenizer.BpeTokenizer.LearnMerges | src/tokenizer.rs:364-407 | each round picks a pair of maximal weight and appends it, registers its spelling, replaces the word map by the merged map; the loop ends with the target size reached or no word of two or more symbols left |
| Tokenizer.RoundFacts | src/tokenizer.rs:364-407 | in one round the chosen pair is of maximal weight, distinct spellings and non-empty words are kept, and the total symbol count drops |
| Tokenizer.NoPairsMeansShort | src/tokenizer.rs:371-373 | an empty pair map means every word has at most one symbol |
| Tokenizer.BpeTokenizer.Train | src/tokenizer.rs:340-410 | training registers the alphabet (fresh, one character each, every one a non-whitespace character of the corpus, covering the corpus) and then the spellings of the learned rules, which extend `merges` in order; rounds follow the recorded trace, stop at the target size or when no pair remains, and a blank corpus changes nothing |
| Tokenizer.FreshKeepsSpecials | src/tokenizer.rs:351-395 | registering only fresh strings never moves a special token from its id |
| Merging.RegisterKeepsBijective | src/tokenizer.rs:386-391 | registering at id = size keeps the maps inverse and dense exactly when the string is new; a repeated string overwrites and the size stays |
| Merging.RegisterAllKeepsBijective | src/tokenizer.rs:351-395 | a sequence of fresh registrations keeps the maps inverse and dense |
| Merging.RegisterAllKeys | src/tokenizer.rs:351-395 | after registrations the tokens are exactly the old ones plus the registered strings |
| Merging.RegisterAllKeepsOthers | src/tokenizer.rs:351-395 | a token that is not registered again keeps its id |
| Merging.AllFreshAvoidsOld | src/tokenizer.rs:351-395 | fresh registrations avoid every string already present |
| Tokenizer.BpeTokenizer.ApplyAllMerges | src/tokenizer.rs:605-607 | `encode` applies every learned rule once, in learned order, one pass each |
| Merging.ApplyMergesSpelling | src/tokenizer.rs:600-607 | applying all rules keeps the word's text |
| Merging.ApplyMergesSymbols | src/tokenizer.rs:600-607 | every symbol after all rules is an original symbol or a rule's spelling |
| Merging.CharWordSpelling | src/tokenizer.rs:600 | the one-character symbols of a word spell the word |
| Tokenizer.BpeTokenizer.LookupAll | src/tokenizer.rs:611-614 | one id per symbol, the vocabulary id or UNK's id |
| Tokenizer.BpeTokenizer.Encode | src/tokenizer.rs:589-622 | the result is BOS, then each word's merged symbols looked up with UNK fallback, then EOS |
| Tokenizer.EncodeFraming | src/tokenizer.rs:589-622 | the output has at least two ids, starts with BOS's id and ends with EOS's (2 and 3 with the ids of `new`), every id is a vocabulary id, and a blank text gives [BOS, EOS] |
| Tokenizer.EncodeWordsIds | src/tokenizer.rs:597-615 | every id of the encoded words is a vocabulary id or the UNK id |
| Tokenizer.BpeTokenizer.Decode | src/tokenizer.rs:720-738 | the concatenation of the strings of known ids that are not shaped `<...>` |
| Tokenizer.DecodeAppend | src/tokenizer.rs:720-738 | decoding distributes over concatenation of id lists |
| Tokenizer.DecodeSilent | src/tokenizer.rs:724-732 | ids that are unknown or name a `<...>` token decode to nothing |
| Tokenizer.DecodeSpecials | src/tokenizer.rs:720-738 | with the vocabulary of `new`, [2, 3] decodes to "" and the UNK id to "" |
| Tokenizer.DecodeLookup | src/tokenizer.rs:720-738 | decoding the ids of known, unbracketed symbols gives back their text |
| Tokenizer.TokensKnown | src/tokenizer.rs:597-615 | when every character of the text and every rule's spelling is an unbracketed token, so is every symbol of every encoded word, which still spells the word |
| Tokenizer.DecodeEncodeWords | src/tokenizer.rs:597-615 | under those conditions decoding the encoded words gives their characters in order, whatever the UNK id |
| Tokenizer.RoundTrip | src/tokenizer.rs:589-738 | with inverse maps, every character and every rule spelling an unbracketed token, `decode(encode(t))` is t with all whitespace removed |
| Tokenizer.TrainedRoundTrip | src/tokenizer.rs:268-738 | after training a fresh tokenizer with fresh registrations and unbracketed rule spellings, any text whose characters occur in the corpus round-trips to itself without whitespace |
| Text.WordsAreWords | src/tokenizer.rs:438 | `split_whitespace` yields non-empty pieces with no whitespace |
| Text.FlattenWords | src/tokenizer.rs:438 | the pieces of `split_whitespace` concatenate to the text with its whitespace removed |
| Text.WordsOfBlank | src/tokenizer.rs:438 | a text of whitespace only has no words |
| Text.WordChars | src/tokenizer.rs:438 | every character of a word is a non-whitespace character of the text |
| Text.CharInSomeWord | src/tokenizer.rs:438 | every non-whitespace character of the text lies in some word |
| Text.WordLength | src/tokenizer.rs:438 | the first word ends at the first whitespace character |
| Merging.MergeInPlace | examples/educational/tokenization_process.rs:296-306 | the in-place loop (join at i and remove i+1, or advance) leaves exactly the left-to-right merge of the word, keeping its text |
| Merging.InPlaceMatchStep | examples/educational/tokenization_process.rs:299-302 | joining a matching pair in place leaves the merge of the remaining work unchanged |
| Merging.InPlaceSkipStep | examples/educational/tokenization_process.rs:303-305 | advancing past a non-match keeps the symbol final |
| Merging.SpellingOfMerge | examples/educational/tokenization_process.rs:299-302 | replacing two adjacent symbols by their concatenation keeps the text |
| Merging.InsertAllKeepsBijective | examples/educational/tokenization_process.rs:66-76 | insert-if-absent keeps the two maps inverse and the ids dense whatever is inserted; the keys are the old ones plus the inserted strings |
| Text.TrimStart | src/chunking.rs:505 | `trim_start`: the longest suffix not starting with whitespace; everything dropped is whitespace |
| Text.TrimEnd | src/chunking.rs:505 | `trim_end`: the longest prefix not ending with whitespace; everything dropped is whitespace |
| Text.TrimEmpty | src/chunking.rs:515 | a trimmed string is empty exactly when the string is blank |
| Text.RemoveWhitespaceTrim | src/chunking.rs:505 | trimming removes only whitespace |
| Text.Split | src/chunking.rs:504 | `split` on a set of separator characters yields at least one piece and no piece holds a separator |
| Text.SplitCount | src/chunking.rs:504 | there is one more piece than separator occurrences |
| Text.FlattenSplit | src/chunking.rs:504 | the pieces concatenate to the text without its separators |
| Text.SplitParagraphs | src/chunking.rs:515 | `split("\n\n")` yields at least one piece |
| Text.SplitParagraphsBlank | src/chunking.rs:515 | every paragraph is blank exactly when the text is blank |
| Text.Lower | examples/educational/tokenization_process.rs:110 | lower-casing leaves no ASCII capital and keeps whitespace and punctuation classes |
| Text.WordsLower | examples/educational/tokenization_process.rs:223-224 | lower-casing the text and splitting it is splitting it and lower-casing each word |
| Text.WordsOfJoin | examples/educational/tokenization_process.rs:150-165 | splitting words joined by single spaces gives back the words |
| Text.ReplaceSelf | examples/educational/tokenization_process.rs:285 | replacing a pattern by itself leaves the text unchanged |
| Text.ReplaceSpaces | examples/tokenizer_demo.rs:613 | in a text whose only whitespace is spaces, removing spaces is removing whitespace |
| Tokenizer.LookupKnown | src/tokenizer.rs:611-614 | when every symbol is in the vocabulary the `<unk>` fallback plays no part |
| TokenizationProcess.WordTokenizer.constructor | examples/educational/tokenization_process.rs:41-51 | `new` holds exactly `<PAD>`, `<UNK>`, `<BOS>`, `<EOS>` at ids 0..3 and the next id is 4 |
| TokenizationProcess.SpecialsInserted | examples/educational/tokenization_process.rs:53-64 | `add_special_tokens` on empty maps builds exactly the vocabulary of `new` |
| TokenizationProcess.WordTokenizer.AddSpecialTokens | examples/educational/tokenization_process.rs:53-64 | the four specials are inserted in order and the id counter stays equal to the number of tokens |
| TokenizationProcess.WordTokenizer.AddToken | examples/educational/tokenization_process.rs:66-76 | a present token keeps its id and changes nothing; a new one gets the next id and the counter grows by one; the maps stay inverse and dense |
| TokenizationProcess.WordTokenizer.Train | examples/educational/tokenization_process.rs:79-90 | every token of every text is inserted, text after text, in order |
| TokenizationProcess.WordTokenizer.InsertWords | examples/educational/tokenization_process.rs:82-87 | the inner loop inserts one text's tokens in order |
| TokenizationProcess.InsertAllAppend | examples/educational/tokenization_process.rs:79-90 | inserting two lists one after the other is inserting their concatenation |
| TokenizationProcess.WordTokenizer.SimpleTokenize | examples/educational/tokenization_process.rs:93-119 | the character loop with its current-word buffer computes the tokenisation function |
| TokenizationProcess.ScanShape | examples/educational/tokenization_process.rs:93-119 | during the scan every emitted token is non-empty, free of whitespace and either one punctuation character or a word without punctuation, and the tokens plus the buffer spell the lower-cased text without whitespace |
| TokenizationProcess.SimpleTokensShape | examples/educational/tokenization_process.rs:93-119 | the tokens are such good tokens and spell the lower-cased text with whitespace removed |
| TokenizationProcess.GoodTokenNotSpecial | examples/educational/tokenization_process.rs:93-119 | no token of `simple_tokenize` is one of the bracketed specials, because `<` and `>` are punctuation |
| TokenizationProcess.ScanPlainSuffix | examples/educational/tokenization_process.rs:98-110 | appending a word without punctuation or whitespace only extends the buffer |
| TokenizationProcess.HelloWorldTokens | examples/educational/tokenization_process.rs:93-119 | "hello world" tokenises to ["hello", "world"] |
| TokenizationProcess.WordTokenizer.Encode | examples/educational/tokenization_process.rs:122-147 | BOS's id, then each token's id or UNK's id, then EOS's id |
| TokenizationProcess.KeptAppend | examples/educational/tokenization_process.rs:150-165 | the tokens `decode` keeps distribute over concatenation |
| TokenizationProcess.KeptShape | examples/educational/tokenization_process.rs:150-165 | `decode` keeps at most one string per id, each the string of a known id and none of them `<BOS>`, `<EOS>` or `<PAD>`; a list whose ids are all unknown or special keeps nothing |
| TokenizationProcess.WordTokenizer.Decode | examples/educational/tokenization_process.rs:150-165 | ids that are all unknown or special decode to the empty string, and a single kept id decodes to exactly its string |
| TokenizationProcess.KeptKnown | examples/educational/tokenization_process.rs:150-165 | decoding looked-up known tokens other than `<PAD>`, `<BOS>`, `<EOS>` gives them back in order |
| TokenizationProcess.WordRoundTrip | examples/educational/tokenization_process.rs:122-165 | when every token of the text is in an inverse vocabulary with the specials, decoding its encoding is its tokens joined by single spaces |
| TokenizationProcess.TrainedWordRoundTrip | examples/educational/tokenization_process.rs:79-165 | after training on texts, every one of them round-trips to its tokens joined by spaces |
| TokenizationProcess.HelloWorldRoundTrip | examples/educational/tokenization_process.rs:751-759 | the test: after training on "hello world" and "world peace", "hello world" decodes back from its encoding |
| TokenizationProcess.WordTokenizer.VocabSize | examples/educational/tokenization_process.rs:167-169 | the number of tokens equals the id counter |
| TokenizationProcess.SimpleBpeTokenizer.constructor | examples/educational/tokenization_process.rs:184-194 | the four specials at ids 0..3, counter 4, no rules |
| TokenizationProcess.SimpleBpeTokenizer.AddSpecialTokens | examples/educational/tokenization_process.rs:196-201 | specials inserted in order, rules untouched |
| TokenizationProcess.SimpleBpeTokenizer.AddToken | examples/educational/tokenization_process.rs:203-213 | present tokens keep their id, new ones get the next id, rules untouched |
| TokenizationProcess.SimpleBpeTokenizer.Train | examples/educational/tokenization_process.rs:216-253 | the word map counts the lower-cased words, every character is inserted, at most `num_merges` rules are learned, each a pair of one-character strings of maximal weight in that unchanging map, each rule's concatenation inserted; stopping early means no word has two characters |
| TokenizationProcess.SimpleBpeTokenizer.InitializeAlphabet | examples/educational/tokenization_process.rs:219-230 | the first phase counts the lower-cased words and inserts every character of them |
| TokenizationProcess.SimpleBpeTokenizer.AddWords | examples/educational/tokenization_process.rs:220-229 | the loop over one text's words counts each lower-cased word and inserts its characters |
| TokenizationProcess.SimpleBpeTokenizer.InsertChars | examples/educational/tokenization_process.rs:226-228 | each character of the word inserted in order |
| TokenizationProcess.StringCountsMeaning | examples/educational/tokenization_process.rs:219-229 | each word of the list is a key exactly when it occurs, counted by its multiplicity |
| TokenizationProcess.CharTokensCover | examples/educational/tokenization_process.rs:226-228 | every character of every counted word is inserted as a token |
| TokenizationProcess.LoweredWordsCover | examples/educational/tokenization_process.rs:219-229 | every lower-cased word of every text is counted |
| TokenizationProcess.BpeVocabGrows | examples/educational/tokenization_process.rs:762-767 | the test: once a training text has a word, the vocabulary exceeds the four specials |
| TokenizationProcess.SimpleBpeTokenizer.RunMerges | examples/educational/tokenization_process.rs:235-250 | the merge loop learns at most `num_merges` rules, each of maximal weight in the fixed word map, stopping only when no pair exists |
| TokenizationProcess.SimpleBpeTokenizer.AddRule | examples/educational/tokenization_process.rs:240-242 | the concatenation is inserted and the rule appended |
| TokenizationProcess.SimpleBpeTokenizer.FindBestPair | examples/educational/tokenization_process.rs:258-272 | None exactly when no word has two characters; otherwise a pair of one-character strings whose weighted count is maximal |
| TokenizationProcess.SimpleBpeTokenizer.UpdateWordFreqs | examples/educational/tokenization_process.rs:274-290 | every word with the pair's text replaced by `merged` keeps a count of one of its preimages (a later equal word overwrites); replacing text by itself changes nothing |
| TokenizationProcess.SimpleBpeTokenizer.ApplyBpe | examples/educational/tokenization_process.rs:293-310 | the tokens spell the word, are never more than its characters, and with non-empty rule parts are the characters merged by each rule in learned order |
| TokenizationProcess.SimpleBpeTokenizer.Encode | examples/educational/tokenization_process.rs:312-337 | BOS, each lower-cased word's rule-merged tokens with UNK fallback, EOS: the encoder of src/tokenizer.rs on the lower-cased text |
| TokenizerDemo.DemoSpecialsDistinct | examples/tokenizer_demo.rs:29-40 | the four special strings are distinct and five characters long |
| TokenizerDemo.DemoSpecialsShape | examples/tokenizer_demo.rs:29-40 | the specials form inverse maps with four entries |
| TokenizerDemo.DemoSpecialsDense | examples/tokenizer_demo.rs:29-40 | the special ids are exactly 0..3 |
| TokenizerDemo.AsciiPrefix | examples/tokenizer_demo.rs:42-50 | registering the printable characters one by one: each is new, the maps stay inverse and dense, and there are 4 + k tokens |
| TokenizerDemo.AsciiId | examples/tokenizer_demo.rs:42-50 | the printable character 32 + j gets id 4 + j |
| TokenizerDemo.DemoInitialVocabShape | examples/tokenizer_demo.rs:29-59 | `new` has 99 tokens in inverse maps, `<unk>`, `<pad>`, `<eos>`, `<bos>` at 0..3, the character with code n at n - 28, and no other token |
| TokenizerDemo.BpeTokenizer.constructor | examples/tokenizer_demo.rs:29-59 | `new` (always `Ok`) yields the base vocabulary, no merges and the target size |
| TokenizerDemo.BpeTokenizer.VocabSize | examples/tokenizer_demo.rs:204-206 | with inverse maps, the ids present are exactly 0 .. size-1 |
| TokenizerDemo.BpeTokenizer.GetWordFrequencies | examples/tokenizer_demo.rs:111-120 | the word map of the whitespace-separated words as one-character symbols |
| TokenizerDemo.WordCountsTotal | examples/tokenizer_demo.rs:111-120 | the counts add up to the number of words and every symbol is non-empty |
| TokenizerDemo.BpeTokenizer.GetPairFrequencies | examples/tokenizer_demo.rs:123-134 | a pair is a key exactly when it occurs in a word, valued by its weighted occurrences |
| TokenizerDemo.BpeTokenizer.ApplyMergeToWord | examples/tokenizer_demo.rs:149-161 | the result spells the word, is no longer, and is the left-to-right merge when the right part is non-empty |
| TokenizerDemo.HelloMerge | examples/tokenizer_demo.rs:628-635 | the test: ("l", "l") merges h-e-l-l-o to h-e-ll-o |
| TokenizerDemo.BpeTokenizer.ApplyMerge | examples/tokenizer_demo.rs:137-146 | each merged word's entry is the sum of the counts of all words that merge into it, the keys are exactly the merged words, and the total count is kept |
| TokenizerDemo.AccumulateStep | examples/tokenizer_demo.rs:140-143 | adding one word's count to its merged word's entry keeps every entry equal to the sum over its preimage |
| TokenizerDemo.AccumulateKeys | examples/tokenizer_demo.rs:140-143 | the keys stay the merged words of the words visited |
| TokenizerDemo.TotalAdd | examples/tokenizer_demo.rs:142 | `+= freq` on one entry adds freq to the total |
| TokenizerDemo.MergeKeepsSymbols | examples/tokenizer_demo.rs:137-146 | merging a pair with a non-empty left part keeps every symbol non-empty |
| TokenizerDemo.ChosenPairNonEmpty | examples/tokenizer_demo.rs:79-82 | a pair found in words of non-empty symbols has non-empty parts |
| TokenizerDemo.OccSymbols | examples/tokenizer_demo.rs:126-131 | an occurring pair consists of two symbols of the word |
| TokenizerDemo.BpeTokenizer.AddMerge | examples/tokenizer_demo.rs:96-103 | left ++ right registered at id = current size, the rule appended |
| TokenizerDemo.BpeTokenizer.Train | examples/tokenizer_demo.rs:62-106 | at most target - current rounds; each picks a pair of maximal weight and replaces the word map by its accumulated merge, registering the spelling; the total word count stays the number of words; stopping early means every word is a single symbol |
| TokenizerDemo.DemoRoundStep | examples/tokenizer_demo.rs:72-103 | one round extends the trace and the registrations and keeps symbols non-empty |
| TokenizerDemo.DemoTraceTotal | examples/tokenizer_demo.rs:72-103 | every word map of the trace has the total of the first |
| TokenizerDemo.BpeTokenizer.Encode | examples/tokenizer_demo.rs:164-186 | the ids of every word's symbols after all rules, 0 for unknown ones, no markers |
| TokenizerDemo.BlankEncodesEmpty | examples/tokenizer_demo.rs:164-186 | a blank text encodes to no ids |
| TokenizerDemo.EncodeIdsKnownOrZero | examples/tokenizer_demo.rs:164-186 | every id is a vocabulary id or 0 |
| TokenizerDemo.UnknownCharEncodesZero | examples/tokenizer_demo.rs:176-180 | a character that is not a token encodes to 0 |
| TokenizerDemo.NonAsciiEncodesZero | examples/tokenizer_demo.rs:164-186 | with the base vocabulary, a non-printable, non-whitespace character encodes to [0] |
| TokenizerDemo.BpeTokenizer.Decode | examples/tokenizer_demo.rs:189-201 | the concatenation of each id's string, `<unk>` for ids not in the reverse map |
| TokenizerDemo.DemoDecodeAppend | examples/tokenizer_demo.rs:189-201 | decoding distributes over concatenation |
| TokenizerDemo.DemoDecodeSpecials | examples/tokenizer_demo.rs:189-201 | special ids decode to their own bracketed text and an id beyond the base vocabulary to the fallback |
| TokenizerDemo.DemoDecodeLookup | examples/tokenizer_demo.rs:176-198 | known symbols looked up and decoded give their text |
| TokenizerDemo.DemoTokensKnown | examples/tokenizer_demo.rs:164-186 | when characters and rule spellings are tokens, so are the merged symbols of a word, which spell the word |
| TokenizerDemo.DemoRoundTrip | examples/tokenizer_demo.rs:164-201 | under those conditions decoding the encoding is the text without whitespace |
| TokenizerDemo.TrainedDemoRoundTrip | examples/tokenizer_demo.rs:29-201 | after training with fresh registrations, a text of printable characters and whitespace round-trips to itself without whitespace |
| TokenizerDemo.SpacesRemovedRoundTrip | examples/tokenizer_demo.rs:601-614 | the test's check, for any printable text after training with fresh registrations: decoded with spaces removed equals the text with spaces removed |
| TokenizerDemo.HelloWorldDemoRoundTrip | examples/tokenizer_demo.rs:601-614 | the same for "hello world", after training with fresh registrations |
| TokenizerDemo.NonAsciiUnknown | examples/tokenizer_demo.rs:42-50 | a character outside the printable ASCII range is not in the initial vocabulary |
| TokenizerDemo.DemoDecodeEncodeWords | examples/tokenizer_demo.rs:164-201 | decoding the encoding of whitespace-free words gives back their concatenation, when every character and merge result is in an inverted vocabulary |
| Chunking.ChunkProcessor.constructor | src/chunking.rs:121-126 | a processor with the given configuration and an empty cache |
| Chunking.ChunkProcessor.ProcessText | src/chunking.rs:144-165 | the cache is keyed by the configuration and the text's byte length; a hit returns the cached chunks, a miss runs the configured strategy and caches its result when it succeeds |
| Chunking.CacheStepMeaning | src/chunking.rs:150-164 | a lookup never drops or changes an entry; a hit returns the cached chunks unchanged, a miss returns the computed result and stores it exactly when it is `Ok` |
| Chunking.CacheCollision | src/chunking.rs:150-153 | once a text is chunked, any other text of the same byte length under the same configuration gets the first text's chunks |
| Chunking.FixedChunking | src/chunking.rs:171-206 | a zero chunk size is an error (`chunks(0)` panics), otherwise the fixed chunks of the encoded text |
| Chunking.FixedPartition | src/chunking.rs:180-203 | just enough chunks to hold the ids; chunk k is numbered k, spans [k * size, min(k * size + size, n)), is non-empty, holds exactly those ids as u32, does not end at a boundary, and all chunks together are the ids in order |
| Chunking.FixedSpansTile | src/chunking.rs:180-182 | the spans of `chunks(size)` tile the range, each `size` long but the last |
| Chunking.FixedSpansCount | src/chunking.rs:180 | the number of chunks is the ceiling of n / size |
| Chunking.FixedSpanStart | src/chunking.rs:181 | chunk k starts at k * size |
| Chunking.ChunksOf | src/chunking.rs:186-202 | one chunk per span, numbered in order, with the span's positions, its ids as u32 and the strategy's boundary flag |
| Chunking.ConcatTiling | src/chunking.rs:180-203 | chunks over a tiling hold exactly the ids of the tiled range |
| Chunking.U32s | src/chunking.rs:186 | `x as u32` on each id keeps the length |
| Chunking.OverlappingChunking | src/chunking.rs:379-427 | overlapping chunking exactly as written, including the error where `tokens.len() - start_idx` goes below zero |
| Chunking.WindowStartsAsWritten | src/chunking.rs:390-424 | the window starts of the loop as written all lie in [start, n) when it does not fail |
| Chunking.WindowStarts | src/chunking.rs:390-424 | the window starts with the remainder saturating at 0: they lie in [start, n) |
| Chunking.WindowStartsAgree | src/chunking.rs:390-424 | where the loop as written finishes, the saturating loop gives the same windows; with a positive step the saturating loop always finishes; with step 0 both agree |
| Chunking.WindowStartsStepped | src/chunking.rs:417 | the saturating loop's starts step by `step_size` from the first |
| Chunking.WindowsCover | src/chunking.rs:390-424 | when step plus minimum size fit in a chunk, every position from start to n lies in some window |
| Chunking.OverlappingCovers | src/chunking.rs:379-427 | with the saturating loop every token lies in some chunk |
| Chunking.OverlappingShape | src/chunking.rs:379-427 | chunk k is numbered k, starts at k * step, ends at min(k * step + size, n), holds exactly those ids, and starts no later than the previous chunk ends |
| Chunking.OverlappingNoGaps | src/chunking.rs:379-427 | overlapping chunks leave no coverage gap |
| Chunking.ShortTextUnderflows | src/chunking.rs:384-424 | with the default configuration (src/chunking.rs:97-108: 512-token chunks, overlap 0.1, minimum 64) the step is 461, and for every non-empty text of fewer than 461 tokens the loop as written fails (the remainder after the first step underflows), while the saturating loop yields one chunk over the whole text |
| Chunking.Fit | src/chunking.rs:449-453 | `resize(width, 0)` / `truncate(width)`: exactly `width` ids, the chunk's ids then zeros |
| Chunking.ChunksToTensor | src/chunking.rs:437-460 | one padded or cut row per chunk, and the data has exactly rows * cols ids |
| Chunking.FitAllLength | src/chunking.rs:455-459 | the tensor data has exactly rows * cols ids, so `from_vec` accepts it |
| Chunking.FitAllAt | src/chunking.rs:445-456 | the id at row i, column j is chunk i's j-th id or 0 past its end |
| Chunking.MinLength | src/chunking.rs:472 | the shortest chunk's length, 0 for no chunks |
| Chunking.MaxLength | src/chunking.rs:473 | the longest chunk's length, 0 for no chunks |
| Chunking.BoundaryCount | src/chunking.rs:482 | the boundary count never exceeds the number of chunks |
| Chunking.BoundaryCountAll | src/chunking.rs:482 | all chunks off-boundary count 0, all on-boundary count all |
| Chunking.TotalBetween | src/chunking.rs:465-473 | the token total lies between count * shortest and count * longest |
| Chunking.StatisticsBounds | src/chunking.rs:463-497 | no chunks give all-zero statistics; otherwise the average chunk size lies between the shortest and the longest and the boundary rate in [0, 1] |
| Chunking.ConcatLength | src/chunking.rs:465 | the ids of all chunks together number the token total |
| Chunking.FixedStatistics | src/chunking.rs:171-206 | for fixed chunking the token total is the number of ids, no chunk exceeds the chunk size and the boundary rate is 0 |
| Chunking.BoundedStatistics | src/chunking.rs:463-497 | chunks of at most `size` ids that end at no boundary have a maximum of at most size and a boundary rate of 0 |
| Chunking.SentencesShape | src/chunking.rs:501-508 | every sentence is non-empty, trimmed and free of `.`, `!`, `?` |
| Chunking.SentencesKeepText | src/chunking.rs:501-508 | the sentences keep every character that is neither whitespace nor a terminator, in order |
| Chunking.SentenceCountBound | src/chunking.rs:501-512 | there is at most one more sentence than there are terminators |
| Chunking.SentencesOfTerminated | src/chunking.rs:501-512 | trimmed sentences each closed by a terminator split back into exactly those sentences and count once each |
| Chunking.SplitTerminated | src/chunking.rs:504 | pieces each followed by a separator split into those pieces and one empty piece |
| Chunking.TrimmedNonEmpty | src/chunking.rs:505-506 | filtering trimmed pieces never gives more pieces |
| Chunking.TrimmedKeepText | src/chunking.rs:505-506 | trimming and dropping empty pieces removes only whitespace |
| Chunking.ParagraphsOfBlank | src/chunking.rs:514-516 | a text has no paragraph exactly when it is whitespace-only |
| Chunking.InformationDensity | src/chunking.rs:518-525 | 0 for no tokens, otherwise in (0, 1] |
| Chunking.DistinctCard | src/chunking.rs:523-524 | the distinct tokens are at most the tokens, at least one for a non-empty list, and as many exactly when none repeats |
| Chunking.DensityOne | src/chunking.rs:518-525 | the density is 1 exactly when no token repeats |
| Chunking.DensityExample | src/chunking.rs:673-678 | the test: [1, 2, 3, 2, 1] has density 0.6 |
| Chunking.ThreeSentences | src/chunking.rs:510-512 | three pieces free of '.', '!' and '?', each closed by one of them, count as three sentences, whatever whitespace the pieces start with |
| Chunking.CountSentencesExample | src/chunking.rs:680-686 | the test: "Esta é a primeira sentença. Esta é a segunda! E esta é a terceira?" counts 3 sentences |
| Chunking.AnalyzeChunkQuality | src/chunking.rs:545-578 | the coherence scores are the chunk densities, the gaps are the positive saturating differences between a chunk's start and the previous end, their sum is the total, and the average is 0 for no chunks |
| Chunking.GapsMeaning | src/chunking.rs:555-561 | every gap is positive, and there is none exactly when each chunk starts no later than the previous ends |
| Chunking.CoherenceBounds | src/chunking.rs:564-568 | the average coherence of densities in [0, 1] is in [0, 1] |
| Chunking.FixedNoGaps | src/chunking.rs:545-578 | fixed chunks leave no coverage gap |
| BenchmarkChunking.SimulateChunking | examples/benchmarks_demo.rs:241-317 | dispatches on the strategy to the four simulated chunkers; a chunk size of 0 or a zero step is an error instead of a panic or an endless loop |
| BenchmarkChunking.Joined | examples/benchmarks_demo.rs:254 | one string per group of words, joined by single spaces |
| BenchmarkChunking.FixedGroupsShape | examples/benchmarks_demo.rs:251-256 | `words.chunks(size)` gives non-empty groups of at most `size` words that together are the words in order, and none exactly for no words |
| BenchmarkChunking.ResplitJoined | examples/benchmarks_demo.rs:253-255 | splitting the joined chunks on whitespace gives back the words of all groups in order |
| BenchmarkChunking.FixedResplit | examples/benchmarks_demo.rs:251-256 | no fixed chunk holds more than `size` words, and re-splitting the chunks gives back the text's words |
| BenchmarkChunking.FixedNonEmpty | examples/benchmarks_demo.rs:802-811 | the test: a text with a non-whitespace character yields at least one fixed chunk |
| BenchmarkChunking.SemanticChunking | examples/benchmarks_demo.rs:257-276 | the sentence loop with its current-chunk buffer computes the semantic chunks |
| BenchmarkChunking.SemanticEndsWithPeriod | examples/benchmarks_demo.rs:257-276 | every semantic chunk ends with '.' |
| BenchmarkChunking.SemanticKeepsAll | examples/benchmarks_demo.rs:257-276 | apart from whitespace the semantic chunks hold exactly the text with one '.' added at its end |
| BenchmarkChunking.SplitTerminated | examples/benchmarks_demo.rs:259-271 | putting '.' back after every piece of `split('.')` gives the text plus one '.' |
| BenchmarkChunking.TrimKeepsLast | examples/benchmarks_demo.rs:265 | trimming keeps a final non-whitespace character last |
| BenchmarkChunking.AdaptiveSize | examples/benchmarks_demo.rs:281-291 | the group size is at most `max_chunk_size`, at most `min_chunk_size + 50`, and fits in the remaining words |
| BenchmarkChunking.GroupSize | examples/benchmarks_demo.rs:281-291 | the loop body computes that size, including the look-ahead for a word ending in '.' |
| BenchmarkChunking.AdaptiveChunking | examples/benchmarks_demo.rs:277-296 | the adaptive loop's chunks, or an error where the source loops forever |
| BenchmarkChunking.AdaptiveShape | examples/benchmarks_demo.rs:277-296 | adaptive groups hold between 1 and `max_chunk_size` words and at most `min_chunk_size + 50`, and together are the words in order |
| BenchmarkChunking.AdaptiveTerminates | examples/benchmarks_demo.rs:280-295 | with both sizes at least 1 the loop ends; with a maximum of 0 and words left it never does |
| BenchmarkChunking.SlidingChunking | examples/benchmarks_demo.rs:297-313 | the window loop's chunks with step `(window * (1 - ratio)) as usize`, or an error where the source loops forever |
| BenchmarkChunking.SlidingAt | examples/benchmarks_demo.rs:303-311 | window k starts at i + k * step, inside the words, and ends at most `window` words later |
| BenchmarkChunking.SlidingCount | examples/benchmarks_demo.rs:303-311 | there are just enough windows for the steps that start before the end |
| BenchmarkChunking.SlidingShape | examples/benchmarks_demo.rs:297-313 | with a positive step window k covers words [k * step, min(k * step + window, n)) and the windows reach the end |
| BenchmarkChunking.SlidingTerminates | examples/benchmarks_demo.rs:302-312 | the loop ends exactly when the step is positive or there are no words |
| BenchmarkChunking.DefaultsSucceed | examples/benchmarks_demo.rs:78-130 | under the default configurations every strategy ends on every text, and a text with a non-whitespace character gives at least one fixed chunk |
| MemoryPools.MemoryPool.constructor | examples/educational/memory_management.rs:428-468 | the free list is the block layout of the sizes, nothing is allocated, and the pool invariant holds |
| MemoryPools.BuildLayout | examples/educational/memory_management.rs:437-458 | the loop over block sizes computes the layout |
| MemoryPools.FillBlocks | examples/educational/memory_management.rs:440-457 | the inner loop pushes the blocks that still fit, each at the running offset, and advances the offset by their sizes |
| MemoryPools.FillShape | examples/educational/memory_management.rs:440-457 | the blocks of one size are contiguous from the offset, numbered consecutively, free, of that size, at most `num_blocks` of them, within the total, and at least one when one fits |
| MemoryPools.LayoutShape | examples/educational/memory_management.rs:437-458 | the whole layout is contiguous from 0, numbered 0.., free, and within the total size |
| MemoryPools.LayoutCount | examples/educational/memory_management.rs:438 | no size gets more blocks than its quarter of the total divided by the size, summed over its occurrences in the list |
| MemoryPools.LayoutNonEmpty | examples/educational/memory_management.rs:783-790 | the test: when the first size fits in a quarter of the total, the free list is not empty |
| MemoryPools.NumberedDistinct | examples/educational/memory_management.rs:443 | consecutively numbered blocks have distinct ids (the UUIDs are unique) |
| MemoryPools.FindBestFit | examples/educational/memory_management.rs:473-481 | the index of the first smallest free block of at least `size`, none exactly when every block is smaller |
| MemoryPools.BestFitUnique | examples/educational/memory_management.rs:476-481 | the best fit (strictly smaller wins, so the first of equal sizes) is unique |
| MemoryPools.MemoryPool.Allocate | examples/educational/memory_management.rs:471-497 | when some free block is large enough, the best fit is removed from the free list, marked allocated with the owner and the time, recorded under its id, and its size added; otherwise `OutOfMemory` and nothing changes |
| MemoryPools.MemoryPool.Deallocate | examples/educational/memory_management.rs:500-514 | an allocated id is removed, released (no owner, no references) to the end of the free list, and its size returned and subtracted; any other id gives `InvalidBlockId` and changes nothing |
| MemoryPools.MemoryPool.GarbageCollect | examples/educational/memory_management.rs:517-542 | every block with no references idle longer than 300 s is freed, the freed bytes are their total size, taken off the allocated size; the new free list is exactly the compaction (`Compact` of `SortByPtr`) of the old free list followed by the released stale blocks, in an order that lists each stale id once; when some block is stale, the freed bytes are positive |
| MemoryPools.MemoryPool.FreeAll | examples/educational/memory_management.rs:500-536 | deallocating a set of allocated ids, in an order that lists each of them once, removes exactly them from the allocated map, frees exactly their total size, and leaves the old free list followed by their released blocks in that order |
| MemoryPools.ReleasedAllAt | examples/educational/memory_management.rs:500-514 | the blocks appended by successive deallocations are one per id, block k being id k's block marked free with no owner and no references |
| MemoryPools.SizeSumSplit | examples/educational/memory_management.rs:532-536 | the allocated size splits into the freed and the remaining blocks |
| MemoryPools.StalePositive | examples/educational/memory_management.rs:819-838 | the test: freeing some positive-size blocks frees a positive number of bytes |
| MemoryPools.MemoryPool.CompactFreeBlocks | examples/educational/memory_management.rs:545-576 | the free list becomes the compaction of its blocks sorted by address; the allocated blocks stay |
| MemoryPools.MergeAdjacent | examples/educational/memory_management.rs:550-573 | the merging loop computes the compaction |
| MemoryPools.CompactShape | examples/educational/memory_management.rs:545-576 | after compaction the free list is sorted by address, has no two adjacent blocks, the same total size, no more blocks, all free with distinct ids |
| MemoryPools.CompactIds | examples/educational/memory_management.rs:545-576 | compaction introduces no id |
| MemoryPools.SortByPtr | examples/educational/memory_management.rs:548 | the sort is a permutation |
| MemoryPools.SortSorted | examples/educational/memory_management.rs:548 | the result is sorted by address |
| MemoryPools.MergeFrom | examples/educational/memory_management.rs:553-573 | the run starting at a block keeps that block's address and id and never yields more blocks than it reads |
| MemoryPools.MergeSum | examples/educational/memory_management.rs:558-565 | merging keeps the total size and leaves no adjacent pair |
| MemoryPools.MergeSorted | examples/educational/memory_management.rs:553-573 | merging a sorted list keeps it sorted |
| MemoryPools.Insert | examples/educational/memory_management.rs:548 | one step of the address sort: one block more, the blocks the same as a multiset |
| MemoryPools.InsertSorted | examples/educational/memory_management.rs:548 | inserting into an address-sorted list keeps it sorted |
| MemoryPools.Compact | examples/educational/memory_management.rs:545-576 | compaction never adds blocks and leaves none exactly when there were none |
| MemoryPools.MergeFree | examples/educational/memory_management.rs:553-573 | merging free blocks gives free blocks |
| Inference.GenerateTokens | examples/educational/inference_engine.rs:255-282 | the prompt's character codes, then up to min(max_tokens, 50) sampled tokens, stopping right after the first one that makes the text end with a stop string |
| Inference.GeneratedTokens | examples/educational/inference_engine.rs:255-282 | the result starts with the prompt codes, adds at most min(max_tokens, 50) tokens, at least one when max_tokens > 0, and exactly that many without stop strings |
| Inference.GenerateShape | examples/educational/inference_engine.rs:267-279 | the loop extends the tokens by at most the remaining steps, every added token is a letter code 65..90, and without stop strings it adds exactly the samples of the remaining steps |
| Inference.GenerateStep | examples/educational/inference_engine.rs:267-275 | each step pushes the sample and either stops or goes on; without stop strings it always goes on |
| Inference.SamplesLength | examples/educational/inference_engine.rs:267 | one sample per remaining step |
| Inference.SampleNextToken | examples/educational/inference_engine.rs:285-289 | `65 + step % 26`: always a code of A-Z |
| Inference.TokensToText | examples/educational/inference_engine.rs:302-306 | one character per token, `?` for codes that are not characters |
| Inference.Codes | examples/educational/inference_engine.rs:259-262 | one code per prompt character |
| Inference.RequestScheduler.constructor | examples/educational/inference_engine.rs:354-359 | the policy given and no queues |
| Inference.RequestScheduler.AddRequest | examples/educational/inference_engine.rs:392-398 | the request is appended to the queue of its priority, created empty when absent |
| Inference.RequestScheduler.GetNextBatch | examples/educational/inference_engine.rs:362-389 | under the priority policy the batch and queues are those of serving Critical, High, Normal, Low in turn; under any other policy the batch is empty and nothing changes |
| Inference.RequestScheduler.DrainInOrder | examples/educational/inference_engine.rs:368-377 | the loop over priorities serves each level up to the remaining room |
| Inference.TakeFront | examples/educational/inference_engine.rs:371-375 | the inner loop moves min(room, queue length) requests from the queue front to the batch, in order |
| Inference.ServeMeaning | examples/educational/inference_engine.rs:362-389 | the batch has min(max_size, waiting) requests and is exactly the front of the concatenation of the levels, in priority order, with the rest left queued; priorities outside the order are untouched and no queue is added or removed |
| Inference.ServeSuffix | examples/educational/inference_engine.rs:370-375 | every queue afterwards is a suffix of itself before |
| Inference.ServeHighThenLow | examples/educational/inference_engine.rs:686-720 | the test: with one High and one Low request, a batch of 2 is the High request then the Low |
| Inference.SchedulerScenario | examples/educational/inference_engine.rs:686-720 | the test run through the methods: two requests, High first, Low second |
| Inference.MemoryManager.constructor | examples/educational/inference_engine.rs:402-408 | the pool size, nothing allocated, no blocks |
| Inference.MemoryManager.Allocate | examples/educational/inference_engine.rs:411-427 | fails with `OutOfMemory` and changes nothing exactly when the size would exceed the pool; otherwise appends a new allocated block and adds its size |
| Inference.MemoryManager.Deallocate | examples/educational/inference_engine.rs:430-438 | fails with `InvalidMemoryBlock` exactly when no block has the id; otherwise removes the first block with it and subtracts its size |
| Inference.Position | examples/educational/inference_engine.rs:431 | `position`: the first index with the id, none exactly when no block has it |
| Inference.MemoryManagerScenario | examples/educational/inference_engine.rs:663-683 | the test: 256 then 512 fit, a further 512 fails, and after freeing the first and taking 256 the usage is 768 |
| Inference.ServeTakesFront | examples/educational/inference_engine.rs:368-377 | the batch holds exactly the first min(room, waiting) requests of the priority queues taken in order, and the queues keep the rest |
| Inference.ServeFrame | examples/educational/inference_engine.rs:368-377 | serving creates and drops no queue and leaves every priority outside the scan untouched |
| Inference.GenerateExtends | examples/educational/inference_engine.rs:267-279 | the generation keeps the prompt as prefix and adds at most the remaining steps, at least one while a step is left |
| Inference.GenerateLetters | examples/educational/inference_engine.rs:285-289 | every generated token is a capital-letter code, 65 to 90 |
| Inference.GenerateAll | examples/educational/inference_engine.rs:267-279 | with no stop strings every step runs and appends its sample |
| Optimization.PackNibbles | examples/educational/optimization_techniques.rs:93-104 | the packing loop of `quantize_int4` over pairs of 4-bit levels computes the packed bytes |
| Optimization.Packed | examples/educational/optimization_techniques.rs:94-104 | one byte per pair of levels, the last pair padded with 0 |
| Optimization.PackRoundTrip | examples/educational/optimization_techniques.rs:103-132 | a byte packed from two 4-bit levels gives back the first as its low nibble and the second as its high nibble |
| Optimization.NibblesOfPacked | examples/educational/optimization_techniques.rs:94-134 | nibble k of the packed data is level k, for every level |
| Optimization.DequantizeInt4 | examples/educational/optimization_techniques.rs:124-139 | each byte yields its low then its high nibble as (level - zero point) * scale, truncated to the original element count |
| Optimization.Int4RoundTrip | examples/educational/optimization_techniques.rs:84-139 | dequantizing packed levels gives exactly as many values as levels, each the dequantized level itself, so packing loses nothing beyond the level rounding |
| Optimization.KVCache.constructor | examples/educational/optimization_techniques.rs:177-184 | empty caches, the maximum length given, current length 0 |
| Optimization.KVCache.AddKv | examples/educational/optimization_techniques.rs:187-206 | the layer's keys and values each get the new vector appended, and the oldest dropped when the length exceeds the maximum; the current length is the layer's new length |
| Optimization.WindowShape | examples/educational/optimization_techniques.rs:196-203 | a layer within the maximum keeps min(length + 1, maximum) vectors, the newest last: the latest suffix of the appended history |
| Optimization.KVCache.GetKeys | examples/educational/optimization_techniques.rs:209-211 | present exactly when the layer has keys |
| Optimization.KVCache.GetValues | examples/educational/optimization_techniques.rs:214-216 | present exactly when the layer has values |
| Optimization.KVCache.Clear | examples/educational/optimization_techniques.rs:219-223 | both caches empty, length 0 |
| Optimization.KvCacheScenario | examples/educational/optimization_techniques.rs:725-740 | the test: one entry added to layer 0 is read back as the only key and value |
| Optimization.ContinuousBatcher.constructor | examples/educational/optimization_techniques.rs:289-309 | no pending or active requests, the limits given, and zeroed statistics: no requests, no batches, average batch size 0.0 |
| Optimization.ContinuousBatcher.AddRequest | examples/educational/optimization_techniques.rs:312-315 | the request appended to the pending list and the request count up by one |
| Optimization.ContinuousBatcher.FormBatch | examples/educational/optimization_techniques.rs:318-350 | the batch and the kept requests are those of the selection scan; a non-empty batch counts one batch and sets the average to (average · (batches − 1) + size) / batches, which keeps it the mean batch size; an empty batch leaves the count and the average as they were |
| Optimization.TakeBatch | examples/educational/optimization_techniques.rs:323-340 | the scan that moves a request into the batch (remove at i) or skips it computes the selection |
| Optimization.PickShape | examples/educational/optimization_techniques.rs:323-340 | batch and kept requests interleave back to the pending list in order, the batch never exceeds the maximum, and every request but the first taken waited at least the timeout |
| Optimization.PickFirst | examples/educational/optimization_techniques.rs:331 | with room, the first pending request is always taken first |
| Optimization.PickFresh | examples/educational/optimization_techniques.rs:331-333 | once the batch is non-empty, requests younger than the timeout are never taken |
| Optimization.OnlyOneWhenFresh | examples/educational/optimization_techniques.rs:318-350 | when every pending request is younger than the timeout, the batch is the first request alone |
| Optimization.BatcherScenario | examples/educational/optimization_techniques.rs:743-767 | the test's setup, two fresh requests with a 100 ms timeout, gives a batch of one |
| Optimization.AverageStep | examples/educational/optimization_techniques.rs:342-347 | the running average times the batch count stays the number of batched requests |
| KernelsPool.NewMatrix | examples/kernels_demo.rs:31-37 | a rows-by-cols matrix, row-major, every entry zero |
| KernelsPool.PoolTotalUpdate | examples/kernels_demo.rs:387 | replacing one pool changes the number of pooled matrices by the difference in its length |
| KernelsPool.PushThenPop | examples/kernels_demo.rs:356-377 | returning a matrix and then asking for its shape hands back that same matrix and restores the pools; the push adds one pooled matrix and keeps every matrix under its own shape |
| KernelsPool.PopShape | examples/kernels_demo.rs:359-360 | a hit takes a matrix of the requested shape and leaves one fewer pooled matrix, every pool still holding its own shape |
| KernelsPool.HitRate | examples/kernels_demo.rs:380-385 | a percentage between 0 and 100, zero exactly when there was no hit |
| KernelsPool.FusedMemoryManager.constructor | examples/kernels_demo.rs:347-354 | no pools and all counters zero |
| KernelsPool.FusedMemoryManager.GetOrCreateMatrix | examples/kernels_demo.rs:356-371 | a matrix of the requested shape: on a hit the last pooled one, popped, with one more hit and rows * cols * 4 bytes saved; on a miss a zero matrix, the pools unchanged and one more miss |
| KernelsPool.FusedMemoryManager.ReturnToPool | examples/kernels_demo.rs:373-377 | the matrix is pushed on the pool for its own shape, the counters unchanged |
| KernelsPool.FusedMemoryManager.Stats | examples/kernels_demo.rs:379-396 | the hit rate, the efficiency as its fraction, the pooled matrices summed over every pool, 1024 bytes each, and the bytes saved |
| KernelsPool.FusedMemoryManager.ClearCache | examples/kernels_demo.rs:398-401 | every pool is dropped and the counters stay |
| KernelsPool.PoolScenario | examples/kernels_demo.rs:769-787 | the test: after two misses and one return, the third request of that shape gets the returned matrix and the hit rate is positive |
| Model.CreateCausalMask | src/model.rs:575-600 | an n-by-n row-major mask whose entry (i, j) is 1 exactly when j > i and 0 otherwise |
| Model.FilledMask | src/model.rs:579-594 | after the double loop, entry i * n + j is the mask value of (i, j) |
| Model.IdxDivMod | src/model.rs:590 | row-major index i * n + j gives back row i and column j |
| Model.IdxBound | src/model.rs:590 | the index of a cell is inside the n * n buffer |
| Model.NumParameters | src/model.rs:906-939 | twice vocab * embd (embeddings and head), block * embd, per-block parameters times layers, and 2 * embd for the final norm |
| Model.ParameterCountPerLayer | src/model.rs:918-929 | one more layer adds exactly one block's parameters, and the count is never below the final norm's 2 * embd |
| Model.Generate | src/model.rs:730-816 | the generated tokens are the unfolding of the generation: each is the next token for the last `block_size` tokens so far, stopping after EOS or after `max_tokens` |
| Model.ContextShape | src/model.rs:750-754 | the context is the last `block_size` tokens, or all of them when fewer |
| Model.GenerationUnfold | src/model.rs:746-810 | one step: the next token is pushed, and generation stops when it is EOS and goes on otherwise |
| Model.GenerationLength | src/model.rs:746-810 | at most `max_tokens` tokens, at least one when `max_tokens` > 0 |
| Model.GenerationStops | src/model.rs:807-809 | no token but the last is EOS, and stopping early means the last one is EOS |
| Model.GenerationSteps | src/model.rs:750-802 | token k is the next token for the context of the prompt plus the first k generated tokens |
| Model.SampleFromProbs | src/model.rs:849-878 | the index returned is the first whose cumulative probability reaches the uniform draw, or the last index when none does |
| Model.SampleIsTheFirstReach | src/model.rs:864-872 | with non-negative probabilities the returned index is the least one reaching the draw, and every later cumulative sum reaches it too |
| Model.PrefixSumMono | src/model.rs:864-866 | cumulative sums of non-negative probabilities never decrease |
| ModelDemo.NumParameters | examples/model_demo.rs:81-115 | the layer loop sums embeddings, attention, feed-forward and layer norms per layer, the final norm and the head into the parameter count |
| ModelDemo.BlockSum | examples/model_demo.rs:90-105 | one more iteration adds one block's parameters: 3e² + e² for attention, 8e² for the feed-forward, 4e for the norms |
| ModelDemo.TinyParameters | examples/model_demo.rs:900-906 | the test: the tiny configuration has 1 052 928 parameters, between 0 and ten million |
| ModelDemo.FlopsPerToken | examples/model_demo.rs:130-153 | layers times the per-block flops (QK, AV, feed-forward) plus the head's embd * vocab |
| ModelDemo.FlopsSum | examples/model_demo.rs:136-147 | one more iteration adds one block's flops |
| ModelDemo.FlopsGrowWithContext | examples/model_demo.rs:138-144 | doubling the block size quadruples the attention flops, the feed-forward part stays |
| ModelDemo.MiniGPT.constructor | examples/model_demo.rs:167-226 | exactly the declared parameter tensors (embeddings, two per layer, head), each zeros of its declared size; training step 0; the device given |
| ModelDemo.StoredSizes | examples/model_demo.rs:186-216 | the stored tensors plus the layer norms, which are not stored, add up to the parameter count |
| ModelDemo.MiniGPT.Forward | examples/model_demo.rs:229-270 | `vocab_size` logits, each the sum over the last hidden state scaled by its index times 0.01; a loss exactly when targets are given, 0 for empty targets |
| ModelDemo.SimulateLmHead | examples/model_demo.rs:394-409 | logit i is the sum of the last hidden state's entries times i * 0.01 |
| ModelDemo.ComputeLoss | examples/model_demo.rs:412-433 | 0 for no targets, otherwise the cross-entropy of the logits at the last target |
| ModelDemo.ForwardScenario | examples/model_demo.rs:916-926 | the test: the tiny model is on "cpu" at step 0 and returns 1000 logits and no loss |
| ModelDemo.Generate | examples/model_demo.rs:436-474 | the prompt extended by exactly `max_tokens` tokens, each chosen from the last `block_size` tokens so far |
| ModelDemo.ExtendShape | examples/model_demo.rs:444-470 | the result is the prompt followed by exactly `max_tokens` tokens |
| ModelDemo.ExtendSteps | examples/model_demo.rs:446-464 | token k is the next token for the context of the first k tokens |
| ModelDemo.GenerationScenario | examples/model_demo.rs:928-938 | the test: from [1, 2] five tokens are added, 7 in all, starting with the prompt |
| EducationalLogging.MatMulFlops | examples/educational_logger_demo.rs:406-415 | a matmul or linear costs 2 * m * k * n flops from the first two input shapes, and 0 with fewer than two inputs |
| EducationalLogging.ElementwiseFlops | examples/educational_logger_demo.rs:416-428 | attention costs 4 * n³ for an output of length n; softmax, gelu and layernorm cost five times the product of the output shape; any other operation the product itself |
| EducationalLogging.MatMulFlopsExample | examples/educational_logger_demo.rs:1177-1190 | the test: a 32x768 by 768x3072 matmul is 150 994 944 flops |
| EducationalLogging.EducationalLogger.constructor | examples/educational_logger_demo.rs:196-208 | the given verbosity, the initialisation phase, no operations, timers, metrics or counts, zero statistics, tensors and attention shown |
| EducationalLogging.EducationalLogger.LogOperation | examples/educational_logger_demo.rs:488-505 | one entry appended and the operation total up by one, nothing else changed |
| EducationalLogging.EducationalLogger.StartPhase | examples/educational_logger_demo.rs:230-258 | the phase is the new one, and one phase-change entry of importance 2 naming it is logged |
| EducationalLogging.EducationalLogger.StartTimer | examples/educational_logger_demo.rs:261-267 | the operation's start time is set (a restart overwrites it); the log, statistics, phase, training metrics and operation counts stay as they were |
| EducationalLogging.EducationalLogger.EndTimer | examples/educational_logger_demo.rs:270-283 | for a running timer: the elapsed time, the timer removed and the time added to the total; otherwise 0 and nothing changed |
| EducationalLogging.EducationalLogger.LogMathOperation | examples/educational_logger_demo.rs:286-316 | the estimated flops are added to the total, the operation's count goes up by one (from 0 when new) and one mathematical entry with the shapes and flops is logged |
| EducationalLogging.EducationalLogger.LogTrainingEpoch | examples/educational_logger_demo.rs:345-378 | one metrics record appended with the given values, no accuracy and the peak memory so far |
| EducationalLogging.InitializationScenario | examples/educational_logger_demo.rs:1119-1125 | the test: verbosity 1, the initialisation phase, no operations |
| EducationalLogging.TimerScenario | examples/educational_logger_demo.rs:1127-1137 | the test: the duration is the time between start and end |
| EducationalLogging.MathLoggingScenario | examples/educational_logger_demo.rs:1139-1153 | the test: one entry, one operation counted, positive flops |
| EducationalLogging.TrainingScenario | examples/educational_logger_demo.rs:1155-1164 | the test: one record, for epoch 1, with average loss 2.5 |
| EducationalLogging.PhaseScenario | examples/educational_logger_demo.rs:1166-1175 | the test: the phase follows each transition |
| EducationalLogging.Lcg | examples/educational_logger_demo.rs:1107-1108 | one step of the linear congruential generator on 64-bit words, wrapping |
| EducationalLogging.SeedCell.constructor | examples/educational_logger_demo.rs:1087-1088 | the seed starts at 1 |
| EducationalLogging.SeedCell.RandomU64 | examples/educational_logger_demo.rs:1105-1112 | the seed advances one generator step and the result is the new seed modulo 100 |
| EducationalLogging.FirstDraws | examples/educational_logger_demo.rs:1105-1112 | from seed 1 the first draw is 90, the next below 100 |

## Left out

- Semantic and adaptive chunking of `src/chunking.rs` (`process_semantic_chunking`, `process_adaptive_chunking`) are not part of this model; `Chunking.ChunkProcessor.ProcessText` takes them as function parameters.
- The tokenizer inside the chunkers is not modelled: a text arrives as its token ids and decoding a chunk is a parameter.
- `suggest_optimizations`, `memory_usage_mb`, `format_flops`, `log_attention_operation`, `analyze_training_progress`, attention visualisation, the report printers and the `with_*` builders are not modelled: they only print or compute display values.
- `rand::random<T>` is not modelled: it converts the seed to a float; only `random_u64` and the generator step are.
- Floating-point rounding is not modelled: `f32`/`f64` values are exact reals, so averages, rates, densities and losses are exact.
- INT4 quantisation's float scaling, rounding and clamping to 0..15 are not modelled: the 4-bit levels are inputs, and only their packing and the dequantization of packed levels are.
- The forward pass, softmax, temperature and top-p of `src/model.rs` are not modelled: generation takes "context to next token" as a function parameter.
- The uniform draw of `sample_from_probs` (`thread_rng`) and the random sampling of the other generators are parameters.
- `Matrix::random`, `matmul`, `softmax`, `gelu` and the fused kernels of the kernel demo are float tensor code and are not modelled; only `Matrix::new` and the memory manager are.
- Printing, `tokio` sleeps, async and wall-clock measurement are not modelled; timestamps are parameters.
- `Uuid::new_v4` is modelled as a counter of creations (distinct, as fresh UUIDs are), and `Instant` as a whole number of seconds or milliseconds.
- Lowercasing covers the ASCII letters only; Rust's Unicode case mapping of other letters is not modelled.
- `usize`/`u64` overflow is not modelled except where it is a finding (the overlapping chunker) or explicit in the source (`wrapping_mul`/`wrapping_add` in the logger's generator).
- The kernel pool's key is the shape itself instead of the string "{rows}x{cols}", which is equal for two shapes exactly when the shapes are.
- EducationalLogging.EducationalLogger: `verbosity`, `show_tensors` and `show_attention` are constants fixed by the constructor, since the `with_*` builders that set them are not modelled.
- The model demo's parameter names are a datatype instead of `format!` strings.
- MemoryPools.FindBestFit: the `usize::MAX` sentinel of the best-fit scan is an `Option`, so a block of size `usize::MAX` is not a special case.
- MemoryPools.MemoryPool.constructor: requires positive block sizes, since `total_size / 4 / size` divides by zero otherwise; `new` and `garbage_collect` never fail in the source, so they return no `Result`.
- MemoryPools.MemoryPool.GarbageCollect: the order in which the `HashMap` yields the stale ids is not modelled; it is a ghost result of which the model says only that it lists every stale id once.
- MemoryPools.MemoryPool.FreeAll: the garbage collector's freeing loop is specified for ids that are allocated, which the collector guarantees by collecting them from `allocated_blocks`.
- Model.Generate: requires a non-empty prompt and a positive block size whenever a step runs; otherwise the context is empty and `context.len() - 1` underflows in the source (src/model.rs:773).
- ModelDemo.Generate: requires a non-empty prompt and a positive block size whenever a step runs; otherwise the context is empty and `simulate_lm_head` panics reading `hidden_states[seq_len - 1]` (examples/model_demo.rs:403).
- Model.SampleFromProbs: requires non-empty probabilities; with none, `probs.len() - 1` underflows in the source.
- ModelDemo.MiniGPT.Forward: requires a non-empty input (the source indexes position `seq_len - 1`); the last position's hidden state is a parameter, because the simulated attention and feed-forward layers that produce it are float code (`exp`, softmax, GELU).
- TokenizerDemo.BpeTokenizer.Train: requires the target size to be at least the current vocabulary size, since `vocab_size - vocab.len()` underflows otherwise.
- EducationalLogging.EducationalLogger.LogMathOperation: requires a matmul's first two input shapes to have the indexed dimensions; shorter shapes make the source panic on `inputs[0][1]` or `inputs[1][1]`.
- Tokenizer.TrainedRoundTrip: the round trip after training is proved only when every registered string is new; a merge whose spelling already exists overwrites its vocabulary entry (src/tokenizer.rs:390-391), and then the maps need not stay inverse.
- TokenizerDemo.TrainedDemoRoundTrip: likewise stated only when every registered string is new.
- TokenizerDemo.SpacesRemovedRoundTrip: likewise stated only when every registered string is new, since it rests on the trained round trip.
- TokenizerDemo.HelloWorldDemoRoundTrip: likewise stated only when every registered string is new.
- The in-place merge loops of the teaching tokenizers edit a `seq` field by reassignment; aliasing of the underlying `Vec` is not modelled.

## Findings

| source | as written | input that shows it | evidently intended | confidence | as-written member | corrected member |
|---|---|---|---|---|---|---|
| src/chunking.rs:417-421 | after `start_idx += step_size`, the check `tokens.len() - start_idx < min_chunk_size` subtracts in `usize`, which underflows once `start_idx` passes the end (a panic in a debug build) | the default configuration (512-token chunks, overlap 0.1, minimum 64) gives a step of 461; any non-empty text of fewer than 461 tokens passes the end after the first chunk (so, by the same arithmetic, does any longer text whose length modulo 461 is at least 64; only the short case is proved here) | the remainder saturating at 0 (or the loop leaving once the start passes the end), so a short text is one chunk over all of it | not executed; high for debug builds (a release build wraps and then leaves the loop on its own condition) | Chunking.ShortTextUnderflows | Chunking.OverlappingShape |
