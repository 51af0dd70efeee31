/**
 * The matrix pool of the fused-kernels demo: matrices returned by a
 * computation are kept in per-shape pools and handed out again to the next
 * request of the same shape, with hit and miss counters.
 *
 * Matrix entries (`f32`) are reals. A pool is keyed in the source by the
 * string "{rows}x{cols}"; two shapes give the same string only when they are
 * equal, so the key here is the shape itself.
 */
module KernelsPool {

  datatype Matrix = Matrix(data: seq<real>, rows: nat, cols: nat)

  /** `Matrix::new`: a rows-by-cols matrix of zeros, stored row by row. */
  function NewMatrix(rows: nat, cols: nat): (m: Matrix)
    ensures m.rows == rows && m.cols == cols && |m.data| == rows * cols
    ensures forall k :: 0 <= k < |m.data| ==> m.data[k] == 0.0
  {
    Matrix(seq(rows * cols, _ => 0.0), rows, cols)
  }

  datatype Shape = Shape(rows: nat, cols: nat)

  function ShapeOf(m: Matrix): Shape {
    Shape(m.rows, m.cols)
  }

  type Pools = map<Shape, seq<Matrix>>

  /** The pool for `s`, empty when there is none. */
  function Pool(p: Pools, s: Shape): seq<Matrix> {
    if s in p then p[s] else []
  }

  /** `return_to_pool`'s update: `m` pushed onto the pool of its own shape. */
  function Pushed(p: Pools, m: Matrix): Pools {
    p[ShapeOf(m) := Pool(p, ShapeOf(m)) + [m]]
  }

  /** The update of a hit: the pool for `s` loses its last matrix. */
  function Popped(p: Pools, s: Shape): Pools
    requires Pool(p, s) != []
  {
    p[s := Pool(p, s)[..|Pool(p, s)| - 1]]
  }

  /** Every pooled matrix has the shape of the pool it is in. */
  predicate Keyed(p: Pools) {
    forall s, k :: s in p && 0 <= k < |p[s]| ==> ShapeOf(p[s][k]) == s
  }

  /** The number of pooled matrices, summed over the pools. */
  ghost function PoolTotal(p: Pools): nat
    decreases |p|
  {
    if p == map[] then 0
    else
      var s :| s in p;
      |p[s]| + PoolTotal(p - {s})
  }

  lemma PoolTotalPeel(p: Pools, s: Shape)
    requires s in p
    ensures PoolTotal(p) == |p[s]| + PoolTotal(p - {s})
    decreases |p|
  {
    var t :| t in p && PoolTotal(p) == |p[t]| + PoolTotal(p - {t});
    if t != s {
      PoolTotalPeel(p - {t}, s);
      PoolTotalPeel(p - {s}, t);
      assert (p - {t}) - {s} == (p - {s}) - {t};
    }
  }

  /** Replacing one pool changes the total by the difference in its length. */
  lemma PoolTotalUpdate(p: Pools, s: Shape, q: seq<Matrix>)
    ensures PoolTotal(p[s := q]) + |Pool(p, s)| == PoolTotal(p) + |q|
  {
    PoolTotalPeel(p[s := q], s);
    assert p[s := q] - {s} == p - {s};
    if s in p {
      PoolTotalPeel(p, s);
    } else {
      assert p - {s} == p;
    }
  }

  /**
   * Returning a matrix and taking one of its shape gives that matrix back
   * and restores the pools up to an empty pool left for its shape; the
   * push adds one to the total, the pop takes one off, and both keep every
   * pooled matrix under its own shape.
   */
  lemma PushThenPop(p: Pools, m: Matrix)
    requires Keyed(p)
    ensures Keyed(Pushed(p, m))
    ensures PoolTotal(Pushed(p, m)) == PoolTotal(p) + 1
    ensures var s := ShapeOf(m);
      Pool(Pushed(p, m), s) != []
      && Pool(Pushed(p, m), s)[|Pool(Pushed(p, m), s)| - 1] == m
      && Popped(Pushed(p, m), s) == p[s := Pool(p, s)]
  {
    PoolTotalUpdate(p, ShapeOf(m), Pool(p, ShapeOf(m)) + [m]);
    assert (Pool(p, ShapeOf(m)) + [m])[..|Pool(p, ShapeOf(m))|] == Pool(p, ShapeOf(m));
  }

  lemma PopShape(p: Pools, s: Shape)
    requires Keyed(p) && Pool(p, s) != []
    ensures Keyed(Popped(p, s))
    ensures ShapeOf(Pool(p, s)[|Pool(p, s)| - 1]) == s
    ensures PoolTotal(Popped(p, s)) + 1 == PoolTotal(p)
  {
    PoolTotalUpdate(p, s, Pool(p, s)[..|Pool(p, s)| - 1]);
  }

  /**
   * The hit rate in percent, zero before any request. It is positive
   * exactly when some request was a hit, and `pool_efficiency` is the same
   * ratio as a fraction.
   */
  function HitRate(hits: nat, misses: nat): (r: real)
    ensures r == 0.0 <==> hits == 0
    ensures 0.0 <= r <= 100.0
  {
    if hits + misses > 0 then (hits as real) / ((hits + misses) as real) * 100.0 else 0.0
  }

  datatype MemoryStats = MemoryStats(
    cacheHitRate: real,
    totalTensorsCached: nat,
    memoryUsageBytes: nat,
    memorySavedBytes: nat,
    poolEfficiency: real)

  /** The bytes a hit saves: four per `f32` entry. */
  function SavedBytes(s: Shape): nat {
    s.rows * s.cols * 4
  }

  class FusedMemoryManager {
    var tensorPools: Pools
    var cacheHits: nat
    var cacheMisses: nat
    var memorySavedBytes: nat

    ghost predicate Valid()
      reads this
    {
      Keyed(tensorPools)
    }

    constructor()
      ensures Valid()
      ensures tensorPools == map[] && cacheHits == 0 && cacheMisses == 0 && memorySavedBytes == 0
    {
      tensorPools := map[];
      cacheHits := 0;
      cacheMisses := 0;
      memorySavedBytes := 0;
    }

    /**
     * `get_or_create_matrix`: the last matrix of the pool for the shape on a
     * hit, a new zero matrix on a miss; `key` plays no part. Exactly one
     * counter goes up, and only a hit saves bytes.
     */
    method GetOrCreateMatrix(key: string, rows: nat, cols: nat) returns (m: Matrix)
      requires Valid()
      modifies this
      ensures Valid()
      ensures m.rows == rows && m.cols == cols
      ensures var s := Shape(rows, cols); var pool := Pool(old(tensorPools), s);
        if pool != [] then
          m == pool[|pool| - 1] && tensorPools == Popped(old(tensorPools), s)
          && cacheHits == old(cacheHits) + 1 && cacheMisses == old(cacheMisses)
          && memorySavedBytes == old(memorySavedBytes) + SavedBytes(s)
        else
          m == NewMatrix(rows, cols) && tensorPools == old(tensorPools)
          && cacheHits == old(cacheHits) && cacheMisses == old(cacheMisses) + 1
          && memorySavedBytes == old(memorySavedBytes)
    {
      var s := Shape(rows, cols);
      if s in tensorPools && tensorPools[s] != [] {
        var pool := tensorPools[s];
        m := pool[|pool| - 1];
        PopShape(tensorPools, s);
        tensorPools := tensorPools[s := pool[..|pool| - 1]];
        cacheHits := cacheHits + 1;
        memorySavedBytes := memorySavedBytes + rows * cols * 4;
        return;
      }
      cacheMisses := cacheMisses + 1;
      m := NewMatrix(rows, cols);
    }

    /** `return_to_pool`: `matrix` goes on top of the pool for its own shape. */
    method ReturnToPool(matrix: Matrix)
      requires Valid()
      modifies this
      ensures Valid()
      ensures tensorPools == Pushed(old(tensorPools), matrix)
      ensures cacheHits == old(cacheHits) && cacheMisses == old(cacheMisses)
      ensures memorySavedBytes == old(memorySavedBytes)
    {
      PushThenPop(tensorPools, matrix);
      var s := ShapeOf(matrix);
      tensorPools := tensorPools[s := Pool(tensorPools, s) + [matrix]];
    }

    /** `stats`: the hit rate, and the pooled matrices counted over all pools. */
    method Stats() returns (r: MemoryStats)
      ensures r.cacheHitRate == HitRate(cacheHits, cacheMisses)
      ensures r.poolEfficiency == r.cacheHitRate / 100.0
      ensures r.totalTensorsCached == PoolTotal(tensorPools)
      ensures r.memoryUsageBytes == r.totalTensorsCached * 1024
      ensures r.memorySavedBytes == memorySavedBytes
    {
      var rate := HitRate(cacheHits, cacheMisses);
      var total := 0;
      var rest := tensorPools;
      while rest != map[]
        invariant total + PoolTotal(rest) == PoolTotal(tensorPools)
        decreases |rest|
      {
        var s :| s in rest;
        PoolTotalPeel(rest, s);
        total := total + |rest[s]|;
        rest := rest - {s};
      }
      r := MemoryStats(rate, total, total * 1024, memorySavedBytes, rate / 100.0);
    }

    /** `clear_cache`: every pool goes, the counters stay. */
    method ClearCache()
      modifies this
      ensures Valid()
      ensures tensorPools == map[]
      ensures cacheHits == old(cacheHits) && cacheMisses == old(cacheMisses)
      ensures memorySavedBytes == old(memorySavedBytes)
    {
      tensorPools := map[];
    }
  }

  /**
   * The pool test: two misses for a 10-by-10 matrix, one of them returned,
   * and a third request of that shape is a hit, so the hit rate is positive.
   */
  method PoolScenario() returns (stats: MemoryStats, third: Matrix, second: Matrix)
    ensures third == second
    ensures stats.cacheHitRate > 0.0
  {
    var manager := new FusedMemoryManager();
    var first := manager.GetOrCreateMatrix("test", 10, 10);
    second := manager.GetOrCreateMatrix("test2", 10, 10);
    manager.ReturnToPool(second);
    third := manager.GetOrCreateMatrix("test3", 10, 10);
    assert manager.cacheHits == 1;
    stats := manager.Stats();
  }
}
