/**
 * The optimisation lesson's stateful parts: the per-layer key/value cache
 * with a length bound, the timeout-driven continuous batcher, and the
 * nibble packing of INT4 quantisation.
 *
 * Vectors of `f32` are sequences of reals; instants are whole milliseconds
 * passed in by the caller.
 */
module Optimization {
  import opened Seqs
  import opened Wrappers

  // ---------------------------------------------------------------------------
  // KVCache
  // ---------------------------------------------------------------------------

  type Vector = seq<real>

  /** A layer's list after `add_kv` pushes `x`: the oldest entry goes once the list is longer than `max`. */
  function Window(h: seq<Vector>, x: Vector, max: nat): seq<Vector> {
    var pushed := h + [x];
    if |pushed| > max then pushed[1..] else pushed
  }

  /**
   * A list within the bound stays within it, keeps the newest entry last
   * (when the bound allows any entry), and is what remains of the old list
   * plus `x` after dropping at most the oldest entry.
   */
  lemma WindowShape(h: seq<Vector>, x: Vector, max: nat)
    requires |h| <= max
    ensures var w := Window(h, x, max);
      |w| == Min(|h| + 1, max)
      && (max > 0 ==> w[|w| - 1] == x)
      && w == (h + [x])[|h| + 1 - |w|..]
  {
  }

  /** `entry(layer).or_insert_with(Vec::new)`, read back. */
  function Layer(m: map<nat, seq<Vector>>, layer: nat): seq<Vector> {
    if layer in m then m[layer] else []
  }

  class KVCache {
    var keys: map<nat, seq<Vector>>
    var values: map<nat, seq<Vector>>
    const maxLength: nat
    var currentLength: nat

    /** Both maps cover the same layers; each layer holds as many keys as values, at most `maxLength`. */
    ghost predicate Valid()
      reads this
    {
      keys.Keys == values.Keys
      && forall l :: l in keys ==> |keys[l]| == |values[l]| <= maxLength
    }

    constructor(maxLength: nat)
      ensures Valid() && this.maxLength == maxLength
      ensures keys == map[] && values == map[] && currentLength == 0
    {
      keys := map[];
      values := map[];
      this.maxLength := maxLength;
      currentLength := 0;
    }

    /** `add_kv`: pushes onto the layer's lists and drops the oldest entry beyond the bound. */
    method AddKv(layer: nat, k: Vector, v: Vector)
      requires Valid()
      modifies this
      ensures Valid()
      ensures keys == old(keys)[layer := Window(Layer(old(keys), layer), k, maxLength)]
      ensures values == old(values)[layer := Window(Layer(old(values), layer), v, maxLength)]
      ensures currentLength == |keys[layer]|
    {
      var layerKeys := Layer(keys, layer) + [k];
      var layerValues := Layer(values, layer) + [v];
      if |layerKeys| > maxLength {
        layerKeys := layerKeys[1..];
        layerValues := layerValues[1..];
      }
      keys := keys[layer := layerKeys];
      values := values[layer := layerValues];
      currentLength := |layerKeys|;
    }

    /** `get_keys`. */
    function GetKeys(layer: nat): (r: Option<seq<Vector>>)
      reads this
      ensures r.Some? <==> layer in keys
    {
      if layer in keys then Some(keys[layer]) else None
    }

    /** `get_values`. */
    function GetValues(layer: nat): (r: Option<seq<Vector>>)
      reads this
      ensures r.Some? <==> layer in values
    {
      if layer in values then Some(values[layer]) else None
    }

    /** `clear`: no layer is left. */
    method Clear()
      modifies this
      ensures Valid()
      ensures keys == map[] && values == map[] && currentLength == 0
    {
      keys := map[];
      values := map[];
      currentLength := 0;
    }
  }

  /** The cache test: one `add_kv` on a fresh cache of bound 10 stores exactly that pair. */
  method KvCacheScenario(k: Vector, v: Vector) returns (ks: Option<seq<Vector>>, vs: Option<seq<Vector>>)
    ensures ks == Some([k]) && vs == Some([v])
  {
    var cache := new KVCache(10);
    cache.AddKv(0, k, v);
    assert Layer(map[], 0) == [] && Window([], k, 10) == [k] && Window([], v, 10) == [v];
    ks := cache.GetKeys(0);
    vs := cache.GetValues(0);
  }

  // ---------------------------------------------------------------------------
  // ContinuousBatcher
  // ---------------------------------------------------------------------------

  datatype Request = Request(id: string, inputTokens: seq<nat>, maxTokens: nat, createdAt: nat)

  /** Milliseconds from `since` to `now`, zero when `since` is later. */
  function Elapsed(now: nat, since: nat): nat {
    if now >= since then now - since else 0
  }

  datatype Picked = Picked(batch: seq<Request>, kept: seq<Request>)

  /**
   * The scan of `form_batch` over `ps` with `count` requests already
   * taken: while there is room, a request is taken when the batch is empty
   * or it has waited at least `timeout`; the others stay pending.
   */
  function Pick(ps: seq<Request>, count: nat, max: nat, now: nat, timeout: nat): Picked
    decreases |ps|
  {
    if ps == [] || count >= max then Picked([], ps)
    else if count == 0 || Elapsed(now, ps[0].createdAt) >= timeout || count >= max then
      var r := Pick(ps[1..], count + 1, max, now, timeout);
      Picked([ps[0]] + r.batch, r.kept)
    else
      var r := Pick(ps[1..], count, max, now, timeout);
      Picked(r.batch, [ps[0]] + r.kept)
  }

  /** `ps` is `a` and `b` merged, each keeping its order. */
  predicate Interleaves(a: seq<Request>, b: seq<Request>, ps: seq<Request>)
    decreases |ps|
  {
    if ps == [] then a == [] && b == []
    else
      ((a != [] && a[0] == ps[0] && Interleaves(a[1..], b, ps[1..]))
       || (b != [] && b[0] == ps[0] && Interleaves(a, b[1..], ps[1..])))
  }

  /**
   * `form_batch` splits the pending list into the batch and what stays,
   * each in the original order; the batch holds at most `max - count`
   * requests, and all but a first one taken into an empty batch have
   * waited at least `timeout`.
   */
  lemma {:induction false} PickShape(ps: seq<Request>, count: nat, max: nat, now: nat, timeout: nat)
    ensures var r := Pick(ps, count, max, now, timeout);
      Interleaves(r.batch, r.kept, ps)
      && count + |r.batch| <= (if count <= max then max else count)
      && forall k :: 0 <= k < |r.batch| && (count > 0 || k > 0) ==> Elapsed(now, r.batch[k].createdAt) >= timeout
    decreases |ps|
  {
    var r := Pick(ps, count, max, now, timeout);
    if ps != [] && count < max {
      if count == 0 || Elapsed(now, ps[0].createdAt) >= timeout {
        PickShape(ps[1..], count + 1, max, now, timeout);
        var t := Pick(ps[1..], count + 1, max, now, timeout);
        assert r.batch[1..] == t.batch;
        assert forall k :: 1 <= k < |r.batch| ==> r.batch[k] == t.batch[k - 1];
      } else {
        PickShape(ps[1..], count, max, now, timeout);
        var t := Pick(ps[1..], count, max, now, timeout);
        assert r.kept[1..] == t.kept;
      }
    } else {
      InterleavesRight(ps);
    }
  }

  lemma {:induction false} InterleavesRight(ps: seq<Request>)
    ensures Interleaves([], ps, ps)
    decreases |ps|
  {
    if ps != [] {
      InterleavesRight(ps[1..]);
    }
  }

  /** A non-empty pending list and room for one: the first request is always taken. */
  lemma PickFirst(ps: seq<Request>, max: nat, now: nat, timeout: nat)
    requires ps != [] && max > 0
    ensures var r := Pick(ps, 0, max, now, timeout); r.batch != [] && r.batch[0] == ps[0]
  {
  }

  /** When no request has waited `timeout`, exactly one goes into the batch. */
  lemma {:induction false} PickFresh(ps: seq<Request>, count: nat, max: nat, now: nat, timeout: nat)
    requires count > 0 && forall k :: 0 <= k < |ps| ==> Elapsed(now, ps[k].createdAt) < timeout
    ensures Pick(ps, count, max, now, timeout).batch == []
    decreases |ps|
  {
    if ps != [] && count < max {
      assert Elapsed(now, ps[0].createdAt) < timeout;
      PickFresh(ps[1..], count, max, now, timeout);
    }
  }

  lemma OnlyOneWhenFresh(ps: seq<Request>, max: nat, now: nat, timeout: nat)
    requires ps != [] && max > 0
    requires forall k :: 0 <= k < |ps| ==> Elapsed(now, ps[k].createdAt) < timeout
    ensures Pick(ps, 0, max, now, timeout).batch == [ps[0]]
  {
    PickFresh(ps[1..], 1, max, now, timeout);
  }

  class ContinuousBatcher {
    var pending: seq<Request>
    var active: seq<Request>
    const maxBatchSize: nat
    const batchTimeout: nat
    var totalRequests: nat
    var totalBatches: nat
    var averageBatchSize: real
    /** The number of requests handed out in batches so far. */
    ghost var batched: nat

    /** The average batch size is the mean over the batches formed. */
    ghost predicate Valid()
      reads this
    {
      averageBatchSize * (totalBatches as real) == batched as real
    }

    constructor(maxBatchSize: nat, batchTimeout: nat)
      ensures Valid() && this.maxBatchSize == maxBatchSize && this.batchTimeout == batchTimeout
      ensures pending == [] && active == [] && totalRequests == 0 && totalBatches == 0
      ensures averageBatchSize == 0.0 && batched == 0
    {
      pending := [];
      active := [];
      this.maxBatchSize := maxBatchSize;
      this.batchTimeout := batchTimeout;
      totalRequests := 0;
      totalBatches := 0;
      averageBatchSize := 0.0;
      batched := 0;
    }

    /** `add_request`: queues the request at the end and counts it. */
    method AddRequest(request: Request)
      modifies this
      ensures pending == old(pending) + [request] && totalRequests == old(totalRequests) + 1
      ensures totalBatches == old(totalBatches) && averageBatchSize == old(averageBatchSize)
      ensures batched == old(batched) && active == old(active)
    {
      pending := pending + [request];
      totalRequests := totalRequests + 1;
    }

    /** `form_batch`: takes the batch of `Pick` out of the pending list and updates the batch statistics. */
    method FormBatch(now: nat) returns (batch: seq<Request>)
      requires Valid()
      modifies this
      ensures Valid()
      ensures Picked(batch, pending) == Pick(old(pending), 0, maxBatchSize, now, batchTimeout)
      ensures totalBatches == old(totalBatches) + (if batch == [] then 0 else 1)
      ensures averageBatchSize
        == if batch == [] then old(averageBatchSize) else Average(old(averageBatchSize), old(totalBatches), |batch|)
      ensures batched == old(batched) + |batch|
      ensures totalRequests == old(totalRequests) && active == old(active)
    {
      var kept;
      batch, kept := TakeBatch(pending, maxBatchSize, now, batchTimeout);
      var batches, average := totalBatches, averageBatchSize;
      if batch != [] {
        AverageStep(averageBatchSize, totalBatches, batched, |batch|);
        batches, average := totalBatches + 1, Average(averageBatchSize, totalBatches, |batch|);
      }
      pending, totalBatches, averageBatchSize, batched := kept, batches, average, batched + |batch|;
    }
  }

  /** The running average after one more batch of `n` requests, `batches` batches before it. */
  function Average(avg: real, batches: nat, n: nat): real {
    (avg * (batches as real) + n as real) / ((batches + 1) as real)
  }

  /** The running-average update keeps the average equal to the batched total over the batch count. */
  lemma AverageStep(avg: real, batches: nat, total: nat, n: nat)
    requires avg * (batches as real) == total as real
    ensures Average(avg, batches, n) * ((batches + 1) as real) == (total + n) as real
  {
  }

  /** The scan of `form_batch`: `remove(i)` of each request taken, `i += 1` past each one left. */
  method TakeBatch(pending: seq<Request>, max: nat, now: nat, timeout: nat) returns (batch: seq<Request>, kept: seq<Request>)
    ensures Picked(batch, kept) == Pick(pending, 0, max, now, timeout)
  {
    batch := [];
    kept := pending;
    var i := 0;
    while i < |kept| && |batch| < max
      invariant i <= |kept|
      invariant batch + Pick(kept[i..], |batch|, max, now, timeout).batch == Pick(pending, 0, max, now, timeout).batch
      invariant kept[..i] + Pick(kept[i..], |batch|, max, now, timeout).kept == Pick(pending, 0, max, now, timeout).kept
      decreases |kept| - i
    {
      var request := kept[i];
      var shouldAdd := batch == [] || Elapsed(now, request.createdAt) >= timeout || |batch| >= max;
      assert kept[i..][1..] == kept[i + 1..];
      if shouldAdd {
        ghost var rest := Pick(kept[i + 1..], |batch| + 1, max, now, timeout);
        assert (batch + [request]) + rest.batch == batch + ([request] + rest.batch);
        assert (kept[..i] + kept[i + 1..])[..i] == kept[..i];
        assert (kept[..i] + kept[i + 1..])[i..] == kept[i + 1..];
        batch := batch + [request];
        kept := kept[..i] + kept[i + 1..];
      } else {
        ghost var rest := Pick(kept[i + 1..], |batch|, max, now, timeout);
        assert kept[..i + 1] + rest.kept == kept[..i] + ([request] + rest.kept);
        i := i + 1;
      }
    }
    assert kept[..i] + kept[i..] == kept;
  }

  /**
   * The batcher test: two requests created at the same instant as the batch
   * is formed, with a 100 ms timeout, give a batch of ONE request.
   */
  method BatcherScenario(now: nat) returns (batch: seq<Request>)
    ensures |batch| == 1
  {
    var b := new ContinuousBatcher(2, 100);
    var r1 := Request("test1", [1, 2, 3], 10, now);
    var r2 := Request("test2", [4, 5, 6], 10, now);
    b.AddRequest(r1);
    b.AddRequest(r2);
    OnlyOneWhenFresh([r1, r2], 2, now, 100);
    batch := b.FormBatch(now);
  }

  // ---------------------------------------------------------------------------
  // INT4 nibble packing
  // ---------------------------------------------------------------------------

  /** Two 4-bit values in one byte, the first in the low nibble. */
  function Pack(v1: bv8, v2: bv8): bv8 {
    (v1 & 0x0F) | ((v2 & 0x0F) << 4)
  }

  function LowNibble(b: bv8): bv8 {
    b & 0x0F
  }

  function HighNibble(b: bv8): bv8 {
    (b >> 4) & 0x0F
  }

  /** Unpacking recovers both values of 0 to 15. */
  lemma PackRoundTrip(v1: bv8, v2: bv8)
    requires v1 < 16 && v2 < 16
    ensures LowNibble(Pack(v1, v2)) == v1 && HighNibble(Pack(v1, v2)) == v2
  {
  }

  /** The bytes `quantize_int4` stores for the quantised values `vs`, two per byte, a lone last one padded with 0. */
  function Packed(vs: seq<bv8>): (r: seq<bv8>)
    ensures |r| == (|vs| + 1) / 2
    decreases |vs|
  {
    if vs == [] then []
    else if |vs| == 1 then [Pack(vs[0], 0)]
    else [Pack(vs[0], vs[1])] + Packed(vs[2..])
  }

  /** The `k`-th 4-bit value stored in `data`. */
  function Nibble(data: seq<bv8>, k: nat): bv8
    requires k < 2 * |data|
  {
    if k % 2 == 0 then LowNibble(data[k / 2]) else HighNibble(data[k / 2])
  }

  /** The packing loop of `quantize_int4`, over values already quantised. */
  method PackNibbles(vs: seq<bv8>) returns (data: seq<bv8>)
    ensures data == Packed(vs)
  {
    data := [];
    var i := 0;
    while i < |vs|
      invariant i <= |vs|
      invariant data + Packed(vs[i..]) == Packed(vs)
      decreases |vs| - i
    {
      var v1 := vs[i];
      if i + 1 < |vs| {
        var v2 := vs[i + 1];
        assert vs[i..][2..] == vs[i + 2..];
        assert data + Packed(vs[i..]) == (data + [Pack(v1, v2)]) + Packed(vs[i + 2..]);
        data := data + [Pack(v1, v2)];
        i := i + 2;
      } else {
        assert vs[i + 1..] == [];
        data := data + [Pack(v1, 0)];
        i := i + 1;
      }
    }
  }

  /** Every stored nibble of `Packed(vs)` is the value it came from. */
  lemma {:induction false} NibblesOfPacked(vs: seq<bv8>, k: nat)
    requires forall j :: 0 <= j < |vs| ==> vs[j] < 16
    requires k < |vs|
    ensures k < 2 * |Packed(vs)| && Nibble(Packed(vs), k) == vs[k]
    decreases |vs|
  {
    if |vs| == 1 {
      PackRoundTrip(vs[0], 0);
    } else if k < 2 {
      PackRoundTrip(vs[0], vs[1]);
    } else {
      NibblesOfPacked(vs[2..], k - 2);
      assert Packed(vs)[k / 2] == Packed(vs[2..])[(k - 2) / 2];
    }
  }

  /** The real value a stored 4-bit value stands for. */
  function Dequantized(v: bv8, zeroPoint: bv8, scale: real): real {
    ((v as int) - (zeroPoint as int)) as real * scale
  }

  /** `dequantize` of an INT4 tensor: each nibble shifted by the zero point and scaled, cut to `size` values. */
  method DequantizeInt4(data: seq<bv8>, zeroPoint: bv8, scale: real, size: nat) returns (result: seq<real>)
    ensures |result| == Min(2 * |data|, size)
    ensures forall k :: 0 <= k < |result| ==> result[k] == Dequantized(Nibble(data, k), zeroPoint, scale)
  {
    result := [];
    for j := 0 to |data|
      invariant |result| == 2 * j
      invariant forall k :: 0 <= k < |result| ==> result[k] == Dequantized(Nibble(data, k), zeroPoint, scale)
    {
      var b := data[j];
      assert Nibble(data, 2 * j) == LowNibble(b) && Nibble(data, 2 * j + 1) == HighNibble(b);
      result := result + [Dequantized(LowNibble(b), zeroPoint, scale), Dequantized(HighNibble(b), zeroPoint, scale)];
    }
    if |result| > size {
      result := result[..size];
    }
  }

  /**
   * Packing then dequantising values of 0 to 15 gives back each value,
   * shifted and scaled, one per original value.
   */
  lemma Int4RoundTrip(vs: seq<bv8>, zeroPoint: bv8, scale: real, k: nat)
    requires forall j :: 0 <= j < |vs| ==> vs[j] < 16
    requires k < |vs|
    ensures Min(2 * |Packed(vs)|, |vs|) == |vs|
    ensures Dequantized(Nibble(Packed(vs), k), zeroPoint, scale) == Dequantized(vs[k], zeroPoint, scale)
  {
    NibblesOfPacked(vs, k);
  }
}
