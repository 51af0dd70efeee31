/**
 * The stand-alone MiniGPT of the model demo: its configuration presets,
 * parameter and FLOP counts (loops over the layers), parameter
 * initialisation, the output head of the simulated forward pass, and
 * generation with a sliding context window.
 *
 * The demo's configuration struct has the same fields as the library's,
 * so it is `Model.GPTConfig` here.
 */
module ModelDemo {
  import opened Wrappers
  import opened Model

  /** `GPTConfig::tiny`. */
  function Tiny(): GPTConfig {
    GPTConfig(1000, 128, 4, 4, 64, 0.1)
  }

  /** `GPTConfig::small`. */
  function Small(): GPTConfig {
    GPTConfig(5000, 256, 8, 6, 128, 0.1)
  }

  /** `GPTConfig::medium`. */
  function Medium(): GPTConfig {
    GPTConfig(10000, 512, 8, 12, 256, 0.1)
  }

  /** `GPTConfig::large`. */
  function Large(): GPTConfig {
    GPTConfig(50000, 768, 12, 24, 512, 0.1)
  }

  // ---------------------------------------------------------------------------
  // Counts
  // ---------------------------------------------------------------------------

  /**
   * `num_parameters`, summing the blocks one at a time: it counts exactly
   * what the library's `num_parameters` counts.
   */
  method NumParameters(c: GPTConfig) returns (total: nat)
    ensures total == ParameterCount(c)
  {
    var tokenEmb := c.vocabSize * c.nEmbd;
    var posEmb := c.blockSize * c.nEmbd;
    var transformerParams := 0;
    for layer := 0 to c.nLayer
      invariant transformerParams == layer * BlockParameters(c.nEmbd)
    {
      var qkvProj := 3 * c.nEmbd * c.nEmbd;
      var attnOut := c.nEmbd * c.nEmbd;
      var attnTotal := qkvProj + attnOut;
      var ffHidden := 4 * c.nEmbd;
      var ffUp := c.nEmbd * ffHidden;
      var ffDown := ffHidden * c.nEmbd;
      var ffTotal := ffUp + ffDown;
      var lnParams := 2 * c.nEmbd * 2;
      BlockSum(c.nEmbd, layer);
      transformerParams := transformerParams + attnTotal + ffTotal + lnParams;
    }
    var finalLn := c.nEmbd * 2;
    var lmHead := c.nEmbd * c.vocabSize;
    total := tokenEmb + posEmb + transformerParams + finalLn + lmHead;
  }

  /** One more block of attention (3E² + E²), feed-forward (2·4E²) and two layer norms (4E). */
  lemma BlockSum(e: nat, layer: nat)
    ensures layer * BlockParameters(e) + (3 * e * e + e * e) + (e * (4 * e) + (4 * e) * e) + 2 * e * 2
      == (layer + 1) * BlockParameters(e)
  {
    assert e * (4 * e) == 4 * e * e && (4 * e) * e == 4 * e * e;
  }

  /** The tiny preset has 1,052,928 parameters: more than none and under ten million. */
  lemma TinyParameters()
    ensures ParameterCount(Tiny()) == 1052928
    ensures 0 < ParameterCount(Tiny()) < 10000000
  {
  }

  /** The FLOPs of one block: two B²·E attention products and the 8E² feed-forward. */
  function BlockFlops(c: GPTConfig): nat {
    2 * c.blockSize * c.blockSize * c.nEmbd + 8 * c.nEmbd * c.nEmbd
  }

  /** `flops_per_token`: L·(2B²E + 8E²) + E·V. */
  method FlopsPerToken(c: GPTConfig) returns (totalFlops: nat)
    ensures totalFlops == c.nLayer * BlockFlops(c) + c.nEmbd * c.vocabSize
  {
    totalFlops := 0;
    for layer := 0 to c.nLayer
      invariant totalFlops == layer * BlockFlops(c)
    {
      var qkFlops := c.blockSize * c.nEmbd * c.blockSize;
      var avFlops := c.blockSize * c.blockSize * c.nEmbd;
      var ffFlops := 2 * c.nEmbd * (4 * c.nEmbd);
      FlopsSum(c, layer, qkFlops + avFlops + ffFlops);
      totalFlops := totalFlops + qkFlops + avFlops + ffFlops;
    }
    totalFlops := totalFlops + c.nEmbd * c.vocabSize;
  }

  lemma FlopsSum(c: GPTConfig, layer: nat, step: nat)
    requires step == c.blockSize * c.nEmbd * c.blockSize + c.blockSize * c.blockSize * c.nEmbd + 2 * c.nEmbd * (4 * c.nEmbd)
    ensures layer * BlockFlops(c) + step == (layer + 1) * BlockFlops(c)
  {
    assert c.blockSize * c.nEmbd * c.blockSize == c.blockSize * c.blockSize * c.nEmbd;
    assert 2 * c.nEmbd * (4 * c.nEmbd) == 8 * c.nEmbd * c.nEmbd;
  }

  /** Doubling the context multiplies the attention FLOPs of a block by four and leaves the feed-forward part alone. */
  lemma FlopsGrowWithContext(c: GPTConfig)
    ensures BlockFlops(c.(blockSize := 2 * c.blockSize)) + 3 * 8 * c.nEmbd * c.nEmbd == 4 * BlockFlops(c)
  {
    var b, e := c.blockSize, c.nEmbd;
    assert 2 * (2 * b) * (2 * b) * e == 4 * (2 * b * b * e);
  }

  // ---------------------------------------------------------------------------
  // The model
  // ---------------------------------------------------------------------------

  /** The names under which `new` stores parameter vectors. */
  datatype ParamName = TokenEmbedding | PositionEmbedding | BlockAttention(layer: nat) | BlockFfn(layer: nat) | LmHead

  /** The names `new` stores for `c`: one attention and one feed-forward entry per block. */
  predicate Declared(c: GPTConfig, name: ParamName) {
    match name
    case BlockAttention(i) => i < c.nLayer
    case BlockFfn(i) => i < c.nLayer
    case _ => true
  }

  /** The length of the zero vector stored under `name`. */
  function ParamSize(c: GPTConfig, name: ParamName): nat {
    match name
    case TokenEmbedding => c.vocabSize * c.nEmbd
    case PositionEmbedding => c.blockSize * c.nEmbd
    case BlockAttention(_) => c.nEmbd * c.nEmbd * 4
    case BlockFfn(_) => c.nEmbd * c.nEmbd * 8
    case LmHead => c.nEmbd * c.vocabSize
  }

  function Zeros(n: nat): seq<real> {
    seq(n, _ => 0.0)
  }

  /** Every stored vector but the layer norms': the count of the parameter formula minus the 4E·L + 2E norm weights. */
  lemma StoredSizes(c: GPTConfig)
    ensures ParamSize(c, TokenEmbedding) + ParamSize(c, PositionEmbedding) + ParamSize(c, LmHead)
      + c.nLayer * (ParamSize(c, BlockAttention(0)) + ParamSize(c, BlockFfn(0))) + c.nLayer * 4 * c.nEmbd + 2 * c.nEmbd
      == ParameterCount(c)
  {
    var e, l := c.nEmbd, c.nLayer;
    assert l * (e * e * 4 + e * e * 8) + l * 4 * e == l * BlockParameters(e);
  }

  class MiniGPT {
    const config: GPTConfig
    var parameters: map<ParamName, seq<real>>
    var trainingStep: nat
    const device: string

    /** `MiniGPT::new`: zero vectors for every declared name, at step 0, on the given device. */
    constructor(config: GPTConfig, device: string)
      ensures this.config == config && this.device == device && trainingStep == 0
      ensures forall name :: name in parameters <==> Declared(config, name)
      ensures forall name :: name in parameters ==> parameters[name] == Zeros(ParamSize(config, name))
    {
      this.config := config;
      this.device := device;
      trainingStep := 0;
      var params := map[];
      params := params[TokenEmbedding := Zeros(config.vocabSize * config.nEmbd)];
      params := params[PositionEmbedding := Zeros(config.blockSize * config.nEmbd)];
      for i := 0 to config.nLayer
        invariant forall name :: name in params <==> (Declared(config.(nLayer := i), name) && name != LmHead)
        invariant forall name :: name in params ==> params[name] == Zeros(ParamSize(config, name))
      {
        params := params[BlockAttention(i) := Zeros(config.nEmbd * config.nEmbd * 4)];
        params := params[BlockFfn(i) := Zeros(config.nEmbd * config.nEmbd * 8)];
      }
      params := params[LmHead := Zeros(config.nEmbd * config.vocabSize)];
      parameters := params;
    }

    /**
     * `forward` from the final hidden state of the last position: exactly
     * `vocab_size` logits, logit i being that state's sum scaled by
     * i·0.01; a loss only when targets are given, 0 for empty targets.
     */
    method Forward(inputIds: seq<nat>, targets: Option<seq<nat>>, last: seq<real>, crossEntropy: (seq<real>, nat) -> real)
      returns (logits: seq<real>, loss: Option<real>)
      requires |inputIds| > 0 && |last| == config.nEmbd
      ensures |logits| == config.vocabSize
      ensures forall i :: 0 <= i < |logits| ==> logits[i] == Scaled(last, |last|, LogitWeight(i))
      ensures loss.Some? <==> targets.Some?
      ensures targets == Some([]) ==> loss == Some(0.0)
    {
      logits := SimulateLmHead(last, config.vocabSize);
      if targets.Some? {
        var l := ComputeLoss(logits, targets.value, crossEntropy);
        loss := Some(l);
      } else {
        loss := None;
      }
    }
  }

  /** The weight `simulate_lm_head` gives to vocabulary entry `i`. */
  function LogitWeight(i: nat): real {
    (i as real) * 0.01
  }

  /** The sum of the first `k` entries of `h`, each times `w`. */
  function Scaled(h: seq<real>, k: nat, w: real): real
    requires k <= |h|
  {
    if k == 0 then 0.0 else Scaled(h, k - 1, w) + h[k - 1] * w
  }

  /** `simulate_lm_head` on the last position's hidden state. */
  method SimulateLmHead(last: seq<real>, vocabSize: nat) returns (logits: seq<real>)
    ensures |logits| == vocabSize
    ensures forall i :: 0 <= i < vocabSize ==> logits[i] == Scaled(last, |last|, LogitWeight(i))
  {
    logits := seq(vocabSize, _ => 0.0);
    for i := 0 to vocabSize
      invariant |logits| == vocabSize
      invariant forall k :: 0 <= k < i ==> logits[k] == Scaled(last, |last|, LogitWeight(k))
    {
      var sum := 0.0;
      for j := 0 to |last|
        invariant sum == Scaled(last, j, LogitWeight(i))
      {
        sum := sum + last[j] * ((i as real) * 0.01);
      }
      logits := logits[i := sum];
    }
  }

  /** `compute_loss`: 0 without targets, else the cross entropy of the last target. */
  function ComputeLoss(logits: seq<real>, targets: seq<nat>, crossEntropy: (seq<real>, nat) -> real): (r: real)
    ensures targets == [] ==> r == 0.0
    ensures targets != [] ==> r == crossEntropy(logits, targets[|targets| - 1])
  {
    if targets == [] then 0.0 else crossEntropy(logits, targets[|targets| - 1])
  }

  /** The forward test: three input ids under the tiny preset give 1000 logits and no loss. */
  method ForwardScenario(last: seq<real>, crossEntropy: (seq<real>, nat) -> real)
    returns (logits: seq<real>, loss: Option<real>, device: string, step: nat)
    requires |last| == 128
    ensures |logits| == 1000 && loss == None
    ensures device == "cpu" && step == 0
  {
    var model := new MiniGPT(Tiny(), "cpu");
    logits, loss := model.Forward([1, 2, 3], None, last, crossEntropy);
    device, step := model.device, model.trainingStep;
  }

  // ---------------------------------------------------------------------------
  // Generation
  // ---------------------------------------------------------------------------

  /** The demo's sequence after `steps` more tokens, each sampled from the context window. */
  function Extend(generated: seq<nat>, steps: nat, blockSize: nat, next: seq<nat> -> nat): seq<nat>
    decreases steps
  {
    if steps == 0 then generated
    else Extend(generated + [next(Context(generated, blockSize))], steps - 1, blockSize, next)
  }

  /** Extension keeps what was there and adds exactly `steps` tokens. */
  lemma {:induction false} ExtendShape(generated: seq<nat>, steps: nat, blockSize: nat, next: seq<nat> -> nat)
    ensures var r := Extend(generated, steps, blockSize, next);
      |r| == |generated| + steps && r[..|generated|] == generated
    decreases steps
  {
    if steps > 0 {
      var g := generated + [next(Context(generated, blockSize))];
      ExtendShape(g, steps - 1, blockSize, next);
      assert g[..|generated|] == generated;
    }
  }

  /** Each token after the prompt is sampled from the window of the tokens before it. */
  lemma {:induction false} ExtendSteps(generated: seq<nat>, steps: nat, blockSize: nat, next: seq<nat> -> nat, k: nat)
    requires |generated| <= k < |generated| + steps
    ensures var r := Extend(generated, steps, blockSize, next);
      |r| == |generated| + steps && r[k] == next(Context(r[..k], blockSize))
    decreases steps
  {
    var g := generated + [next(Context(generated, blockSize))];
    var r := Extend(generated, steps, blockSize, next);
    ExtendShape(generated, steps, blockSize, next);
    ExtendShape(g, steps - 1, blockSize, next);
    if k == |generated| {
      assert r[..|g|] == g;
      assert r[..k] == g[..k] == generated;
    } else {
      ExtendSteps(g, steps - 1, blockSize, next, k);
    }
  }

  /**
   * `generate`: the prompt followed by exactly `maxTokens` tokens, each
   * sampled from the last `block_size` tokens before it. A step needs a
   * non-empty context, since `simulate_lm_head` reads the hidden state at
   * `seq_len - 1`.
   */
  method Generate(promptIds: seq<nat>, maxTokens: nat, blockSize: nat, next: seq<nat> -> nat)
    returns (generated: seq<nat>)
    requires maxTokens > 0 ==> |promptIds| > 0 && blockSize > 0
    ensures generated == Extend(promptIds, maxTokens, blockSize, next)
  {
    generated := promptIds;
    for step := 0 to maxTokens
      invariant Extend(generated, maxTokens - step, blockSize, next) == Extend(promptIds, maxTokens, blockSize, next)
    {
      var contextStart := if |generated| > blockSize then |generated| - blockSize else 0;
      var context := generated[contextStart..];
      assert context == Context(generated, blockSize);
      var nextToken := next(context);
      generated := generated + [nextToken];
    }
  }

  /** The generation test: a two-token prompt and five steps give seven tokens starting with the prompt. */
  method GenerationScenario(next: seq<nat> -> nat) returns (generated: seq<nat>)
    ensures |generated| == 7 && generated[..2] == [1, 2]
  {
    generated := Generate([1, 2], 5, Tiny().blockSize, next);
    ExtendShape([1, 2], 5, Tiny().blockSize, next);
  }
}
