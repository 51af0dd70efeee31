/**
 * The integer side of the library's MiniGPT model: the causal-mask
 * layout, the parameter count, the context window and stopping rule of
 * autoregressive generation, and the cumulative-sum sampler.
 *
 * The tensor computations (forward pass, softmax, temperature) are candle
 * code; generation takes the step "context to sampled token" as a function
 * parameter instead.
 */
module Model {

  datatype GPTConfig = GPTConfig(
    vocabSize: nat,
    nEmbd: nat,
    nHead: nat,
    nLayer: nat,
    blockSize: nat,
    dropout: real)

  // ---------------------------------------------------------------------------
  // Causal mask
  // ---------------------------------------------------------------------------

  /** Row-major position of entry (i, j) of an n-by-n matrix. */
  function Idx(n: nat, i: nat, j: nat): nat {
    i * n + j
  }

  /** Entry (i, j) of the mask: 1 where `j` lies in the future of `i`, else 0. */
  function MaskValue(i: nat, j: nat): real {
    if j > i then 1.0 else 0.0
  }

  lemma IdxBound(n: nat, i: nat, j: nat)
    requires i < n && j < n
    ensures Idx(n, i, j) < n * n
  {
    assert i * n + n == (i + 1) * n;
    assert (i + 1) * n <= n * n;
  }

  lemma MulAtLeast(x: int, n: nat)
    ensures x >= 1 ==> x * n >= n
    ensures x <= -1 ==> x * n <= -(n as int)
  {
    if x >= 1 {
      assert x * n == n + (x - 1) * n;
    } else if x <= -1 {
      assert x * n == -(n as int) + (x + 1) * n;
    }
  }

  /** Dividing a row-major position by `n` recovers the row and the column. */
  lemma IdxDivMod(n: nat, i: nat, j: nat)
    requires j < n
    ensures Idx(n, i, j) / n == i && Idx(n, i, j) % n == j
  {
    var k := i * n + j;
    var q, r := k / n, k % n;
    assert q * n + r == i * n + j;
    assert (q - i) * n == j - r;
    MulAtLeast(q - i, n);
  }

  /** The first `upto` entries of `s` are those of the mask. */
  ghost predicate Filled(s: seq<real>, n: nat, upto: nat)
    requires upto <= |s|
  {
    forall k :: 0 < n && 0 <= k < upto ==> s[k] == MaskValue(k / n, k % n)
  }

  /** The entries of `s` from `from` on are still 0. */
  ghost predicate ZeroFrom(s: seq<real>, from: nat) {
    forall k :: from <= k < |s| ==> s[k] == 0.0
  }

  /** One pass of the inner loop of `create_causal_mask`. */
  lemma FillStep(s: seq<real>, n: nat, i: nat, j: nat)
    requires i < n && j < n && |s| == n * n
    requires Idx(n, i, j) < |s| && Filled(s, n, Idx(n, i, j)) && ZeroFrom(s, Idx(n, i, j))
    ensures var t := if j > i then s[Idx(n, i, j) := 1.0] else s;
      |t| == n * n && Filled(t, n, Idx(n, i, j) + 1) && ZeroFrom(t, Idx(n, i, j) + 1)
  {
    IdxDivMod(n, i, j);
  }

  lemma RowEnd(n: nat, i: nat)
    ensures i * n + n == Idx(n, i + 1, 0)
  {
    assert (i + 1) * n == i * n + n;
  }

  /** All n·n entries filled gives the mask, entry by entry. */
  lemma FilledMask(s: seq<real>, n: nat, i: nat, j: nat)
    requires |s| == n * n && Filled(s, n, n * n)
    requires i < n && j < n
    ensures Idx(n, i, j) < |s| && s[Idx(n, i, j)] == MaskValue(i, j)
  {
    IdxBound(n, i, j);
    IdxDivMod(n, i, j);
  }

  /**
   * `create_causal_mask`: the n·n entries of the mask in row-major order,
   * entry (i, j) being 1 exactly when j > i.
   */
  method CreateCausalMask(n: nat) returns (mask: seq<real>)
    ensures |mask| == n * n && Filled(mask, n, n * n)
    ensures forall i, j :: 0 <= i < n && 0 <= j < n ==> Idx(n, i, j) < |mask| && mask[Idx(n, i, j)] == MaskValue(i, j)
  {
    mask := seq(n * n, _ => 0.0);
    for i := 0 to n
      invariant |mask| == n * n
      invariant Idx(n, i, 0) <= n * n
      invariant Filled(mask, n, Idx(n, i, 0)) && ZeroFrom(mask, Idx(n, i, 0))
    {
      for j := 0 to n
        invariant |mask| == n * n
        invariant Idx(n, i, j) <= n * n
        invariant Filled(mask, n, Idx(n, i, j)) && ZeroFrom(mask, Idx(n, i, j))
      {
        IdxBound(n, i, j);
        FillStep(mask, n, i, j);
        if j > i {
          mask := mask[i * n + j := 1.0];
        }
      }
      RowEnd(n, i);
    }
    forall i, j | 0 <= i < n && 0 <= j < n
      ensures Idx(n, i, j) < |mask| && mask[Idx(n, i, j)] == MaskValue(i, j)
    {
      FilledMask(mask, n, i, j);
    }
  }

  // ---------------------------------------------------------------------------
  // Parameter count
  // ---------------------------------------------------------------------------

  /** Trainable parameters of one transformer block: attention (4E²), feed-forward (8E²), two layer norms (4E). */
  function BlockParameters(e: nat): nat {
    12 * e * e + 4 * e
  }

  /**
   * The parameter count of a configuration: token and position embeddings,
   * the blocks, the final layer norm and the output head;
   * 2·V·E + B·E + L·(12E² + 4E) + 2E.
   */
  function ParameterCount(c: GPTConfig): nat {
    2 * c.vocabSize * c.nEmbd + c.blockSize * c.nEmbd + c.nLayer * BlockParameters(c.nEmbd) + 2 * c.nEmbd
  }

  /** `num_parameters`, adding the parts one after another. */
  method NumParameters(c: GPTConfig) returns (total: nat)
    ensures total == ParameterCount(c)
  {
    total := 0;
    total := total + c.vocabSize * c.nEmbd;
    total := total + c.blockSize * c.nEmbd;
    var perBlock := 4 * c.nEmbd * c.nEmbd + 8 * c.nEmbd * c.nEmbd + 4 * c.nEmbd;
    total := total + perBlock * c.nLayer;
    total := total + 2 * c.nEmbd;
    total := total + c.vocabSize * c.nEmbd;
  }

  /** Each extra block adds 12E² + 4E parameters, and nothing else depends on the depth. */
  lemma ParameterCountPerLayer(c: GPTConfig)
    ensures ParameterCount(c.(nLayer := c.nLayer + 1)) == ParameterCount(c) + BlockParameters(c.nEmbd)
    ensures ParameterCount(c) >= 2 * c.nEmbd
  {
    assert (c.nLayer + 1) * BlockParameters(c.nEmbd) == c.nLayer * BlockParameters(c.nEmbd) + BlockParameters(c.nEmbd);
  }

  // ---------------------------------------------------------------------------
  // Generation
  // ---------------------------------------------------------------------------

  /** The context the model sees: the last `blockSize` tokens when there are more, else all of them. */
  function Context(tokens: seq<nat>, blockSize: nat): seq<nat> {
    if |tokens| > blockSize then tokens[|tokens| - blockSize..] else tokens
  }

  /** The context is the suffix of the tokens of length min(|tokens|, blockSize). */
  lemma ContextShape(tokens: seq<nat>, blockSize: nat)
    ensures var r := Context(tokens, blockSize);
      |r| == (if |tokens| > blockSize then blockSize else |tokens|)
      && r == tokens[|tokens| - |r|..]
  {
  }

  /**
   * The tokens `generate` appends to `tokens` with `remaining` steps left:
   * each step samples from the context and stops right after the EOS id.
   */
  function Generation(tokens: seq<nat>, remaining: nat, blockSize: nat, eosId: nat, next: seq<nat> -> nat): seq<nat>
    decreases remaining
  {
    if remaining == 0 then []
    else
      var t := next(Context(tokens, blockSize));
      if t == eosId then [t]
      else [t] + Generation(tokens + [t], remaining - 1, blockSize, eosId, next)
  }

  lemma GenerationUnfold(tokens: seq<nat>, remaining: nat, blockSize: nat, eosId: nat, next: seq<nat> -> nat)
    requires remaining > 0
    ensures var t := next(Context(tokens, blockSize));
      Generation(tokens, remaining, blockSize, eosId, next)
      == if t == eosId then [t] else [t] + Generation(tokens + [t], remaining - 1, blockSize, eosId, next)
  {
  }

  /** Generation yields at most `remaining` tokens, and at least one when any step is allowed. */
  lemma {:induction false} GenerationLength(tokens: seq<nat>, remaining: nat, blockSize: nat, eosId: nat, next: seq<nat> -> nat)
    ensures var g := Generation(tokens, remaining, blockSize, eosId, next);
      |g| <= remaining && (remaining > 0 ==> g != [])
    decreases remaining
  {
    if remaining > 0 {
      var t := next(Context(tokens, blockSize));
      if t != eosId {
        GenerationLength(tokens + [t], remaining - 1, blockSize, eosId, next);
      }
    }
  }

  /** EOS can only be the last generated token, and a generation that stops early ends with EOS. */
  lemma {:induction false} GenerationStops(tokens: seq<nat>, remaining: nat, blockSize: nat, eosId: nat, next: seq<nat> -> nat)
    ensures var g := Generation(tokens, remaining, blockSize, eosId, next);
      (forall k :: 0 <= k < |g| - 1 ==> g[k] != eosId)
      && (0 < |g| < remaining ==> g[|g| - 1] == eosId)
    decreases remaining
  {
    if remaining > 0 {
      var t := next(Context(tokens, blockSize));
      if t != eosId {
        var rest := Generation(tokens + [t], remaining - 1, blockSize, eosId, next);
        GenerationStops(tokens + [t], remaining - 1, blockSize, eosId, next);
        GenerationLength(tokens + [t], remaining - 1, blockSize, eosId, next);
        assert Generation(tokens, remaining, blockSize, eosId, next) == [t] + rest;
      }
    }
  }

  /** Each generated token is what the sampler gives for the context of all tokens before it. */
  lemma {:induction false} GenerationSteps(tokens: seq<nat>, remaining: nat, blockSize: nat, eosId: nat, next: seq<nat> -> nat, k: nat)
    requires k < |Generation(tokens, remaining, blockSize, eosId, next)|
    ensures var g := Generation(tokens, remaining, blockSize, eosId, next);
      g[k] == next(Context(tokens + g[..k], blockSize))
    decreases remaining
  {
    var g := Generation(tokens, remaining, blockSize, eosId, next);
    var t := next(Context(tokens, blockSize));
    if k == 0 {
      assert tokens + g[..0] == tokens;
    } else {
      var rest := Generation(tokens + [t], remaining - 1, blockSize, eosId, next);
      assert g == [t] + rest;
      GenerationSteps(tokens + [t], remaining - 1, blockSize, eosId, next, k - 1);
      assert g[..k] == [t] + rest[..k - 1];
      assert tokens + g[..k] == (tokens + [t]) + rest[..k - 1];
    }
  }

  /**
   * The generation loop of `generate` on the prompt's token ids: at most
   * `maxTokens` steps, each pushing the sampled token onto the running
   * sequence and the output, stopping after EOS. A step needs a non-empty
   * context, since the logits are read at position `context.len() - 1`.
   */
  method Generate(prompt: seq<nat>, maxTokens: nat, blockSize: nat, eosId: nat, next: seq<nat> -> nat)
    returns (generated: seq<nat>)
    requires maxTokens > 0 ==> |prompt| > 0 && blockSize > 0
    ensures generated == Generation(prompt, maxTokens, blockSize, eosId, next)
  {
    var tokens := prompt;
    generated := [];
    for step := 0 to maxTokens
      invariant tokens == prompt + generated
      invariant generated + Generation(tokens, maxTokens - step, blockSize, eosId, next)
        == Generation(prompt, maxTokens, blockSize, eosId, next)
    {
      var context := Context(tokens, blockSize);
      var nextToken := next(context);
      GenerationUnfold(tokens, maxTokens - step, blockSize, eosId, next);
      ghost var rest := Generation(tokens + [nextToken], maxTokens - step - 1, blockSize, eosId, next);
      tokens := tokens + [nextToken];
      if nextToken == eosId {
        generated := generated + [nextToken];
        break;
      }
      assert generated + ([nextToken] + rest) == (generated + [nextToken]) + rest;
      generated := generated + [nextToken];
    }
  }

  // ---------------------------------------------------------------------------
  // Sampling
  // ---------------------------------------------------------------------------

  /** The running sum after index `j`, as `sample_from_probs` accumulates it. */
  function Cum(probs: seq<real>, j: nat): real
    requires j < |probs|
  {
    PrefixSum(probs, j + 1)
  }

  /** The sum of the first `k` probabilities. */
  function PrefixSum(probs: seq<real>, k: nat): real
    requires k <= |probs|
  {
    if k == 0 then 0.0 else PrefixSum(probs, k - 1) + probs[k - 1]
  }

  /**
   * `sample_from_probs` with the uniform draw `uniform` given: the first
   * index whose running sum reaches the draw, or the last index when none
   * does.
   */
  method SampleFromProbs(probs: seq<real>, uniform: real) returns (idx: nat)
    requires |probs| > 0
    ensures idx < |probs|
    ensures forall j :: 0 <= j < idx ==> uniform > Cum(probs, j)
    ensures uniform <= Cum(probs, idx) || (idx == |probs| - 1 && uniform > PrefixSum(probs, |probs|))
  {
    var cumsum := 0.0;
    for i := 0 to |probs|
      invariant cumsum == PrefixSum(probs, i)
      invariant forall j :: 0 <= j < i ==> uniform > Cum(probs, j)
    {
      cumsum := cumsum + probs[i];
      if uniform <= cumsum {
        return i;
      }
    }
    idx := |probs| - 1;
  }

  /** With non-negative probabilities the running sum never decreases. */
  lemma {:induction false} PrefixSumMono(probs: seq<real>, i: nat, j: nat)
    requires forall k :: 0 <= k < |probs| ==> probs[k] >= 0.0
    requires i <= j <= |probs|
    ensures PrefixSum(probs, i) <= PrefixSum(probs, j)
    decreases j - i
  {
    if i < j {
      PrefixSumMono(probs, i, j - 1);
    }
  }

  /**
   * With non-negative probabilities whose total reaches the draw, the
   * sampled index is the only one where the running sum first reaches it:
   * the draw exceeds every earlier running sum and none from there on.
   */
  lemma SampleIsTheFirstReach(probs: seq<real>, uniform: real, idx: nat, other: nat)
    requires forall k :: 0 <= k < |probs| ==> probs[k] >= 0.0
    requires idx < |probs| && other < |probs|
    requires forall j :: 0 <= j < idx ==> uniform > Cum(probs, j)
    requires uniform <= Cum(probs, idx)
    requires uniform <= Cum(probs, other)
    ensures idx <= other
    ensures forall j :: idx <= j < |probs| ==> uniform <= Cum(probs, j)
  {
    forall j | idx <= j < |probs|
      ensures uniform <= Cum(probs, j)
    {
      PrefixSumMono(probs, idx + 1, j + 1);
    }
  }
}
