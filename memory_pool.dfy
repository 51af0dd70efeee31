/**
 * The block pool of the memory-management lesson (`MemoryPool`): free
 * blocks laid out contiguously at creation, best-fit allocation,
 * deallocation, garbage collection of stale blocks and compaction of the
 * free list.
 *
 * Block ids (`Uuid::new_v4`) are modelled as the blocks' creation indices,
 * which are distinct as fresh UUIDs are; instants are whole seconds passed
 * in by the caller.
 */
module MemoryPools {
  import opened Seqs
  import opened Wrappers

  datatype MemoryType = CpuSystem | CpuPinned | GpuDevice | GpuUnified | GpuManaged

  datatype Block = Block(
    id: nat,
    ptr: nat,
    size: nat,
    memoryType: MemoryType,
    isAllocated: bool,
    allocatedAt: nat,
    lastAccessed: nat,
    referenceCount: nat,
    owner: Option<nat>)

  datatype MemoryError = OutOfMemory(memoryType: MemoryType) | InvalidBlockId(id: nat)

  /** Blocks idle for longer than this many seconds are collected. */
  const GcTimeout: nat := 300

  function SumSizes(bs: seq<Block>): nat {
    if bs == [] then 0 else bs[0].size + SumSizes(bs[1..])
  }

  lemma {:induction false} SumSizesAppend(a: seq<Block>, b: seq<Block>)
    ensures SumSizes(a + b) == SumSizes(a) + SumSizes(b)
    decreases |a|
  {
    if a == [] {
      assert a + b == b;
    } else {
      assert (a + b)[1..] == a[1..] + b;
      SumSizesAppend(a[1..], b);
    }
  }

  lemma SumSizesSnoc(bs: seq<Block>, b: Block)
    ensures SumSizes(bs + [b]) == SumSizes(bs) + b.size
  {
    SumSizesAppend(bs, [b]);
    assert [b][1..] == [];
  }

  // ---------------------------------------------------------------------------
  // Creation: the initial free list
  // ---------------------------------------------------------------------------

  /** A free block as `new` creates it. */
  function NewBlock(id: nat, ptr: nat, size: nat, mt: MemoryType, now: nat): Block {
    Block(id, ptr, size, mt, false, now, now, 0, None)
  }

  /**
   * The inner loop of `new` for one block size: `count` rounds, each adding
   * a block at `acc` when it still fits in `total`.
   */
  function Fill(total: nat, size: nat, count: nat, acc: nat, id: nat, mt: MemoryType, now: nat): seq<Block>
    decreases count
  {
    if count == 0 then []
    else if acc + size <= total then
      [NewBlock(id, acc, size, mt, now)] + Fill(total, size, count - 1, acc + size, id + 1, mt, now)
    else Fill(total, size, count - 1, acc, id, mt, now)
  }

  /** The number of blocks of `size` bytes `new` tries to fit: a quarter of the pool's bytes per size. */
  function BlockCount(total: nat, size: nat): nat
    requires size > 0
  {
    (total / 4) / size
  }

  /** The blocks `new` creates for `sizes`, from address `acc` and id `id` on. */
  function Layout(total: nat, sizes: seq<nat>, acc: nat, id: nat, mt: MemoryType, now: nat): seq<Block>
    requires forall k :: 0 <= k < |sizes| ==> sizes[k] > 0
    decreases |sizes|
  {
    if sizes == [] then []
    else
      var f := Fill(total, sizes[0], BlockCount(total, sizes[0]), acc, id, mt, now);
      f + Layout(total, sizes[1..], acc + SumSizes(f), id + |f|, mt, now)
  }

  /** Each block starts where the previous one ends, the first at `p`. */
  predicate Contiguous(bs: seq<Block>, p: nat) {
    bs == [] || (bs[0].ptr == p && Contiguous(bs[1..], p + bs[0].size))
  }

  /** Block `k` has id `id + k`. */
  predicate Numbered(bs: seq<Block>, id: nat) {
    forall k :: 0 <= k < |bs| ==> bs[k].id == id + k
  }

  /** Every block is free, unowned, unreferenced and of positive size. */
  predicate AllFree(bs: seq<Block>) {
    forall k :: 0 <= k < |bs| ==> Free(bs[k])
  }

  predicate Free(b: Block) {
    !b.isAllocated && b.size > 0 && b.referenceCount == 0 && b.owner.None?
  }

  function CountSize(bs: seq<Block>, s: nat): nat {
    if bs == [] then 0 else (if bs[0].size == s then 1 else 0) + CountSize(bs[1..], s)
  }

  /** The number of blocks of size `s` that the entries equal to `s` may create. */
  function Quota(total: nat, sizes: seq<nat>, s: nat): nat {
    if sizes == [] then 0
    else (if sizes[0] == s && s > 0 then BlockCount(total, s) else 0) + Quota(total, sizes[1..], s)
  }

  lemma ContiguousAppend(a: seq<Block>, b: seq<Block>, p: nat)
    requires Contiguous(a, p) && Contiguous(b, p + SumSizes(a))
    ensures Contiguous(a + b, p)
    decreases |a|
  {
    if a == [] {
      assert a + b == b;
    } else {
      assert (a + b)[1..] == a[1..] + b;
      ContiguousAppend(a[1..], b, p + a[0].size);
    }
  }

  lemma CountSizeAppend(a: seq<Block>, b: seq<Block>, s: nat)
    ensures CountSize(a + b, s) == CountSize(a, s) + CountSize(b, s)
    decreases |a|
  {
    if a == [] {
      assert a + b == b;
    } else {
      assert (a + b)[1..] == a[1..] + b;
      CountSizeAppend(a[1..], b, s);
    }
  }

  /** One size's blocks: contiguous from `acc`, numbered from `id`, inside `total`, at most `count` of them. */
  lemma {:induction false} FillShape(total: nat, size: nat, count: nat, acc: nat, id: nat, mt: MemoryType, now: nat)
    requires size > 0 && acc <= total
    ensures var f := Fill(total, size, count, acc, id, mt, now);
      Contiguous(f, acc) && Numbered(f, id) && AllFree(f)
      && acc + SumSizes(f) <= total && |f| <= count
      && (forall k :: 0 <= k < |f| ==> f[k].size == size)
      && (acc + size <= total && count > 0 ==> f != [])
    decreases count
  {
    if count > 0 {
      if acc + size <= total {
        FillShape(total, size, count - 1, acc + size, id + 1, mt, now);
      } else {
        FillShape(total, size, count - 1, acc, id, mt, now);
      }
    }
  }

  lemma {:induction false} CountOfUniform(bs: seq<Block>, size: nat, s: nat)
    requires forall k :: 0 <= k < |bs| ==> bs[k].size == size
    ensures CountSize(bs, s) == if size == s then |bs| else 0
    decreases |bs|
  {
    if bs != [] {
      CountOfUniform(bs[1..], size, s);
    }
  }

  lemma NumberedAppend(a: seq<Block>, b: seq<Block>, id: nat)
    requires Numbered(a, id) && Numbered(b, id + |a|)
    ensures Numbered(a + b, id)
  {
    forall k | 0 <= k < |a + b| ensures (a + b)[k].id == id + k {
      if k >= |a| {
        assert (a + b)[k] == b[k - |a|];
      }
    }
  }

  lemma AllFreeAppend(a: seq<Block>, b: seq<Block>)
    requires AllFree(a) && AllFree(b)
    ensures AllFree(a + b)
  {
    assert forall k :: 0 <= k < |a + b| ==> (a + b)[k] == if k < |a| then a[k] else b[k - |a|];
  }

  /** The facts `new` establishes about a stretch of the free list. */
  predicate Shaped(bs: seq<Block>, acc: nat, id: nat, total: nat) {
    Contiguous(bs, acc) && Numbered(bs, id) && AllFree(bs) && acc + SumSizes(bs) <= total
  }

  lemma ShapedAppend(a: seq<Block>, b: seq<Block>, acc: nat, id: nat, total: nat)
    requires Shaped(a, acc, id, total) && Shaped(b, acc + SumSizes(a), id + |a|, total)
    ensures Shaped(a + b, acc, id, total)
  {
    ContiguousAppend(a, b, acc);
    SumSizesAppend(a, b);
    NumberedAppend(a, b, id);
    AllFreeAppend(a, b);
  }

  /**
   * The initial free list: contiguous from address `acc`, numbered from
   * `id`, all free and within `total`.
   */
  lemma {:induction false} LayoutShape(total: nat, sizes: seq<nat>, acc: nat, id: nat, mt: MemoryType, now: nat)
    requires forall k :: 0 <= k < |sizes| ==> sizes[k] > 0
    requires acc <= total
    ensures Shaped(Layout(total, sizes, acc, id, mt, now), acc, id, total)
    decreases |sizes|
  {
    if sizes != [] {
      var f := Fill(total, sizes[0], BlockCount(total, sizes[0]), acc, id, mt, now);
      FillShape(total, sizes[0], BlockCount(total, sizes[0]), acc, id, mt, now);
      LayoutShape(total, sizes[1..], acc + SumSizes(f), id + |f|, mt, now);
      ShapedAppend(f, Layout(total, sizes[1..], acc + SumSizes(f), id + |f|, mt, now), acc, id, total);
    }
  }

  /** `new` creates at most `Quota` blocks of each size. */
  lemma {:induction false} LayoutCount(total: nat, sizes: seq<nat>, acc: nat, id: nat, mt: MemoryType, now: nat, s: nat)
    requires forall k :: 0 <= k < |sizes| ==> sizes[k] > 0
    requires acc <= total
    ensures CountSize(Layout(total, sizes, acc, id, mt, now), s) <= Quota(total, sizes, s)
    decreases |sizes|
  {
    if sizes != [] {
      var f := Fill(total, sizes[0], BlockCount(total, sizes[0]), acc, id, mt, now);
      var rest := Layout(total, sizes[1..], acc + SumSizes(f), id + |f|, mt, now);
      FillShape(total, sizes[0], BlockCount(total, sizes[0]), acc, id, mt, now);
      LayoutCount(total, sizes[1..], acc + SumSizes(f), id + |f|, mt, now, s);
      CountSizeAppend(f, rest, s);
      CountOfUniform(f, sizes[0], s);
    }
  }

  /** A first block size of at most a quarter of the pool gives a non-empty free list. */
  lemma LayoutNonEmpty(total: nat, sizes: seq<nat>, mt: MemoryType, now: nat)
    requires forall k :: 0 <= k < |sizes| ==> sizes[k] > 0
    requires sizes != [] && sizes[0] <= total / 4
    ensures Layout(total, sizes, 0, 0, mt, now) != []
  {
    FillShape(total, sizes[0], BlockCount(total, sizes[0]), 0, 0, mt, now);
  }

  // ---------------------------------------------------------------------------
  // Ids
  // ---------------------------------------------------------------------------

  predicate DistinctIds(bs: seq<Block>) {
    forall i, j :: 0 <= i < j < |bs| ==> bs[i].id != bs[j].id
  }

  /** No block of `bs` has id `x`. */
  predicate NoId(bs: seq<Block>, x: nat) {
    forall k :: 0 <= k < |bs| ==> bs[k].id != x
  }

  lemma NumberedDistinct(bs: seq<Block>, id: nat)
    requires Numbered(bs, id)
    ensures DistinctIds(bs)
  {
  }

  // ---------------------------------------------------------------------------
  // Compaction: sort by address, then merge adjacent blocks
  // ---------------------------------------------------------------------------

  predicate SortedByPtr(bs: seq<Block>) {
    forall i, j :: 0 <= i < j < |bs| ==> bs[i].ptr <= bs[j].ptr
  }

  /** Every block of `bs` starts at `p` or later. */
  predicate From(p: nat, bs: seq<Block>) {
    forall k :: 0 <= k < |bs| ==> p <= bs[k].ptr
  }

  /** `b` put before the first block of `s` whose address is not smaller. */
  function Insert(b: Block, s: seq<Block>): (r: seq<Block>)
    ensures |r| == |s| + 1 && multiset(r) == multiset(s) + multiset{b}
  {
    if s == [] || b.ptr <= s[0].ptr then [b] + s
    else
      assert s == [s[0]] + s[1..];
      [s[0]] + Insert(b, s[1..])
  }

  /** `sort_by_key(|b| b.ptr)`, as a stable insertion sort. */
  function SortByPtr(bs: seq<Block>): (r: seq<Block>)
    ensures |r| == |bs| && multiset(r) == multiset(bs)
  {
    if bs == [] then []
    else
      assert bs == [bs[0]] + bs[1..];
      Insert(bs[0], SortByPtr(bs[1..]))
  }

  /** A sequence sorted by address, with a first block no later than the rest. */
  lemma SortedCons(x: Block, r: seq<Block>)
    requires From(x.ptr, r) && SortedByPtr(r)
    ensures SortedByPtr([x] + r)
  {
    assert forall i :: 0 <= i < |r| ==> ([x] + r)[i + 1] == r[i];
  }

  lemma {:induction false} InsertFrom(p: nat, b: Block, s: seq<Block>)
    requires From(p, s) && p <= b.ptr
    ensures From(p, Insert(b, s))
    decreases |s|
  {
    if s != [] && b.ptr > s[0].ptr {
      assert From(p, s[1..]) by {
        assert forall i :: 0 <= i < |s[1..]| ==> s[1..][i] == s[i + 1];
      }
      InsertFrom(p, b, s[1..]);
      var r := Insert(b, s[1..]);
      assert forall i :: 0 <= i < |r| ==> ([s[0]] + r)[i + 1] == r[i];
    }
  }

  lemma {:induction false} InsertSorted(b: Block, s: seq<Block>)
    requires SortedByPtr(s)
    ensures SortedByPtr(Insert(b, s))
    decreases |s|
  {
    if s == [] || b.ptr <= s[0].ptr {
      assert From(b.ptr, s);
      SortedCons(b, s);
    } else {
      assert From(s[0].ptr, s[1..]) && SortedByPtr(s[1..]) by {
        assert forall i :: 0 <= i < |s[1..]| ==> s[1..][i] == s[i + 1];
      }
      InsertSorted(b, s[1..]);
      InsertFrom(s[0].ptr, b, s[1..]);
      SortedCons(s[0], Insert(b, s[1..]));
    }
  }

  lemma {:induction false} SortSorted(bs: seq<Block>)
    ensures SortedByPtr(SortByPtr(bs))
    decreases |bs|
  {
    if bs != [] {
      SortSorted(bs[1..]);
      InsertSorted(bs[0], SortByPtr(bs[1..]));
    }
  }

  /**
   * The merge loop of `compact_free_blocks` from block `cur` on: a block
   * that starts where `cur` ends is absorbed into it, any other closes `cur`.
   */
  function MergeFrom(cur: Block, rest: seq<Block>): (r: seq<Block>)
    ensures 1 <= |r| <= |rest| + 1 && r[0].ptr == cur.ptr && r[0].id == cur.id
    decreases |rest|
  {
    if rest == [] then [cur]
    else if cur.ptr + cur.size == rest[0].ptr then MergeFrom(cur.(size := cur.size + rest[0].size), rest[1..])
    else [cur] + MergeFrom(rest[0], rest[1..])
  }

  function Compact(bs: seq<Block>): (r: seq<Block>)
    ensures |r| <= |bs| && (r == [] <==> bs == [])
  {
    if bs == [] then [] else MergeFrom(bs[0], bs[1..])
  }

  /** No block ends where the next one begins. */
  predicate NonAdjacent(bs: seq<Block>) {
    forall k, j :: 0 <= k && j == k + 1 < |bs| ==> bs[k].ptr + bs[k].size != bs[j].ptr
  }

  lemma ConsNonAdjacent(x: Block, t: seq<Block>)
    requires NonAdjacent(t) && t != [] && x.ptr + x.size != t[0].ptr
    ensures NonAdjacent([x] + t)
  {
    assert forall i :: 0 <= i < |t| ==> ([x] + t)[i + 1] == t[i];
  }

  lemma SumSizesCons(x: Block, t: seq<Block>)
    ensures SumSizes([x] + t) == x.size + SumSizes(t)
  {
    assert ([x] + t)[1..] == t;
  }

  lemma {:induction false} MergeSize(cur: Block, rest: seq<Block>)
    ensures SumSizes(MergeFrom(cur, rest)) == cur.size + SumSizes(rest)
    decreases |rest|
  {
    if rest != [] {
      if cur.ptr + cur.size == rest[0].ptr {
        MergeSize(cur.(size := cur.size + rest[0].size), rest[1..]);
      } else {
        MergeSize(rest[0], rest[1..]);
        SumSizesCons(cur, MergeFrom(rest[0], rest[1..]));
      }
    }
  }

  lemma {:induction false} MergeNonAdjacent(cur: Block, rest: seq<Block>)
    ensures NonAdjacent(MergeFrom(cur, rest))
    decreases |rest|
  {
    if rest != [] {
      if cur.ptr + cur.size == rest[0].ptr {
        MergeNonAdjacent(cur.(size := cur.size + rest[0].size), rest[1..]);
      } else {
        MergeNonAdjacent(rest[0], rest[1..]);
        ConsNonAdjacent(cur, MergeFrom(rest[0], rest[1..]));
      }
    }
  }

  /** Merging keeps the total size and leaves no block ending where the next begins. */
  lemma MergeSum(cur: Block, rest: seq<Block>)
    ensures SumSizes(MergeFrom(cur, rest)) == cur.size + SumSizes(rest)
    ensures NonAdjacent(MergeFrom(cur, rest))
  {
    MergeSize(cur, rest);
    MergeNonAdjacent(cur, rest);
  }

  /** Merged blocks start no earlier than `cur` and stay in address order. */
  lemma {:induction false} MergeSorted(cur: Block, rest: seq<Block>)
    requires From(cur.ptr, rest) && SortedByPtr(rest)
    ensures From(cur.ptr, MergeFrom(cur, rest)) && SortedByPtr(MergeFrom(cur, rest))
    decreases |rest|
  {
    if rest != [] {
      assert forall i :: 0 <= i < |rest[1..]| ==> rest[1..][i] == rest[i + 1];
      if cur.ptr + cur.size == rest[0].ptr {
        MergeSorted(cur.(size := cur.size + rest[0].size), rest[1..]);
      } else {
        MergeSorted(rest[0], rest[1..]);
        var tail := MergeFrom(rest[0], rest[1..]);
        assert MergeFrom(cur, rest) == [cur] + tail;
        assert forall i :: 0 <= i < |tail| ==> ([cur] + tail)[i + 1] == tail[i];
      }
    }
  }

  /** Merging free blocks gives free blocks. */
  lemma {:induction false} MergeFree(cur: Block, rest: seq<Block>)
    requires Free(cur) && AllFree(rest)
    ensures AllFree(MergeFrom(cur, rest))
    decreases |rest|
  {
    if rest != [] {
      assert forall i :: 0 <= i < |rest[1..]| ==> rest[1..][i] == rest[i + 1];
      if cur.ptr + cur.size == rest[0].ptr {
        MergeFree(cur.(size := cur.size + rest[0].size), rest[1..]);
      } else {
        MergeFree(rest[0], rest[1..]);
        var tail := MergeFrom(rest[0], rest[1..]);
        assert MergeFrom(cur, rest) == [cur] + tail;
        assert forall i :: 0 <= i < |tail| ==> ([cur] + tail)[i + 1] == tail[i];
      }
    }
  }

  /** An id that is neither `cur`'s nor in `rest` is not among the merged blocks, and merged ids stay distinct. */
  lemma {:induction false} MergeIds(cur: Block, rest: seq<Block>, x: nat)
    requires x != cur.id && NoId(rest, x)
    ensures NoId(MergeFrom(cur, rest), x)
    decreases |rest|
  {
    if rest != [] {
      if cur.ptr + cur.size == rest[0].ptr {
        MergeIds(cur.(size := cur.size + rest[0].size), rest[1..], x);
      } else {
        MergeIds(rest[0], rest[1..], x);
      }
    }
  }

  lemma {:induction false} MergeDistinct(cur: Block, rest: seq<Block>)
    requires NoId(rest, cur.id) && DistinctIds(rest)
    ensures DistinctIds(MergeFrom(cur, rest))
    decreases |rest|
  {
    if rest != [] {
      assert forall i :: 0 <= i < |rest[1..]| ==> rest[1..][i] == rest[i + 1];
      if cur.ptr + cur.size == rest[0].ptr {
        MergeDistinct(cur.(size := cur.size + rest[0].size), rest[1..]);
      } else {
        MergeDistinct(rest[0], rest[1..]);
        MergeIds(rest[0], rest[1..], cur.id);
        var tail := MergeFrom(rest[0], rest[1..]);
        assert forall i :: 0 <= i < |tail| ==> ([cur] + tail)[i + 1] == tail[i];
      }
    }
  }

  /** Sorting keeps the blocks' total size, their freedom and their ids. */
  lemma {:induction false} InsertKeeps(b: Block, s: seq<Block>, x: nat)
    ensures SumSizes(Insert(b, s)) == b.size + SumSizes(s)
    ensures NoId(Insert(b, s), x) <==> x != b.id && NoId(s, x)
    ensures Free(b) && AllFree(s) ==> AllFree(Insert(b, s))
    decreases |s|
  {
    var r := Insert(b, s);
    if s == [] || b.ptr <= s[0].ptr {
      assert r[1..] == s;
      assert forall i :: 0 <= i < |s| ==> r[i + 1] == s[i];
    } else {
      InsertKeeps(b, s[1..], x);
      var t := Insert(b, s[1..]);
      assert r[1..] == t;
      assert forall i :: 0 <= i < |t| ==> r[i + 1] == t[i];
      assert forall i :: 0 <= i < |s[1..]| ==> s[i + 1] == s[1..][i];
    }
  }

  lemma {:induction false} InsertDistinct(b: Block, s: seq<Block>)
    requires DistinctIds(s) && NoId(s, b.id)
    ensures DistinctIds(Insert(b, s))
    decreases |s|
  {
    var r := Insert(b, s);
    if s == [] || b.ptr <= s[0].ptr {
      assert forall i :: 0 <= i < |s| ==> r[i + 1] == s[i];
    } else {
      assert forall i :: 0 <= i < |s[1..]| ==> s[i + 1] == s[1..][i];
      InsertDistinct(b, s[1..]);
      var t := Insert(b, s[1..]);
      InsertKeeps(b, s[1..], s[0].id);
      assert forall i :: 0 <= i < |t| ==> r[i + 1] == t[i];
    }
  }

  lemma {:induction false} SortSum(bs: seq<Block>)
    ensures SumSizes(SortByPtr(bs)) == SumSizes(bs)
    decreases |bs|
  {
    if bs != [] {
      SortSum(bs[1..]);
      InsertKeeps(bs[0], SortByPtr(bs[1..]), 0);
    }
  }

  lemma NoIdCons(bs: seq<Block>, x: nat)
    requires bs != []
    ensures NoId(bs, x) <==> bs[0].id != x && NoId(bs[1..], x)
  {
    assert forall i :: 0 <= i < |bs[1..]| ==> bs[i + 1] == bs[1..][i];
  }

  lemma {:induction false} SortIds(bs: seq<Block>, x: nat)
    ensures NoId(SortByPtr(bs), x) <==> NoId(bs, x)
    decreases |bs|
  {
    if bs != [] {
      SortIds(bs[1..], x);
      InsertKeeps(bs[0], SortByPtr(bs[1..]), x);
      NoIdCons(bs, x);
    }
  }

  lemma {:induction false} SortFree(bs: seq<Block>)
    requires AllFree(bs)
    ensures AllFree(SortByPtr(bs))
    decreases |bs|
  {
    if bs != [] {
      assert forall i :: 0 <= i < |bs[1..]| ==> bs[i + 1] == bs[1..][i];
      SortFree(bs[1..]);
      InsertKeeps(bs[0], SortByPtr(bs[1..]), 0);
    }
  }

  lemma {:induction false} SortDistinct(bs: seq<Block>)
    requires DistinctIds(bs)
    ensures DistinctIds(SortByPtr(bs))
    decreases |bs|
  {
    if bs != [] {
      assert forall i :: 0 <= i < |bs[1..]| ==> bs[i + 1] == bs[1..][i];
      SortDistinct(bs[1..]);
      SortIds(bs[1..], bs[0].id);
      InsertDistinct(bs[0], SortByPtr(bs[1..]));
    }
  }

  /**
   * The new free list of `compact_free_blocks`: sorted by address, no block
   * ending where the next begins, the same total size, no more blocks, and
   * free blocks with distinct ids drawn from the old ones.
   */
  lemma CompactShape(bs: seq<Block>)
    requires AllFree(bs) && DistinctIds(bs)
    ensures var r := Compact(SortByPtr(bs));
      SortedByPtr(r) && NonAdjacent(r) && SumSizes(r) == SumSizes(bs) && |r| <= |bs|
      && AllFree(r) && DistinctIds(r)
  {
    var t := SortByPtr(bs);
    SortSorted(bs);
    SortSum(bs);
    SortFree(bs);
    SortDistinct(bs);
    if t != [] {
      assert forall i :: 0 <= i < |t[1..]| ==> t[i + 1] == t[1..][i];
      MergeSum(t[0], t[1..]);
      MergeSorted(t[0], t[1..]);
      MergeFree(t[0], t[1..]);
      MergeDistinct(t[0], t[1..]);
    }
  }

  /** An id absent from the old free list is absent from the compacted one. */
  lemma CompactIds(bs: seq<Block>, x: nat)
    requires NoId(bs, x)
    ensures NoId(Compact(SortByPtr(bs)), x)
  {
    var t := SortByPtr(bs);
    SortIds(bs, x);
    if t != [] {
      assert forall i :: 0 <= i < |t[1..]| ==> t[i + 1] == t[1..][i];
      MergeIds(t[0], t[1..], x);
    }
  }

  // ---------------------------------------------------------------------------
  // The allocated blocks
  // ---------------------------------------------------------------------------

  /** Total size of the blocks of a map. */
  ghost function SizeSum(m: map<nat, Block>): nat
    decreases |m|
  {
    if m == map[] then 0
    else
      var k :| k in m;
      m[k].size + SizeSum(m - {k})
  }

  lemma SizeSumPeel(m: map<nat, Block>, k: nat)
    requires k in m
    ensures SizeSum(m) == m[k].size + SizeSum(m - {k})
    decreases |m|
  {
    var j :| j in m && SizeSum(m) == m[j].size + SizeSum(m - {j});
    if j != k {
      SizeSumPeel(m - {j}, k);
      SizeSumPeel(m - {k}, j);
      assert (m - {j}) - {k} == (m - {k}) - {j};
    }
  }

  /** The blocks of `m` whose keys are in `d`. */
  function Restrict(m: map<nat, Block>, d: set<nat>): map<nat, Block> {
    map k | k in m && k in d :: m[k]
  }

  /** The blocks of `m` whose keys are not in `d`. */
  function Without(m: map<nat, Block>, d: set<nat>): map<nat, Block> {
    map k | k in m && k !in d :: m[k]
  }

  /** One round of the freeing loop of `garbage_collect`. */
  lemma CollectStep(m: map<nat, Block>, stale: set<nat>, todo: set<nat>, done: set<nat>, id: nat)
    requires id in todo && todo + done == stale && todo !! done
    ensures (todo - {id}) + (done + {id}) == stale && (todo - {id}) !! (done + {id})
    ensures Without(m, done) - {id} == Without(m, done + {id})
  {
  }

  /** Seconds from `since` to `now`, zero when `since` is later. */
  function Elapsed(now: nat, since: nat): nat {
    if now >= since then now - since else 0
  }

  /** A block garbage collection frees: unreferenced and idle past the timeout. */
  predicate Stale(b: Block, now: nat) {
    b.referenceCount == 0 && Elapsed(now, b.lastAccessed) > GcTimeout
  }

  function StaleIds(m: map<nat, Block>, now: nat): set<nat> {
    set k | k in m && Stale(m[k], now)
  }

  /** A block as `allocate` hands it out. */
  function Taken(b: Block, owner: Option<nat>, now: nat): Block {
    b.(isAllocated := true, allocatedAt := now, lastAccessed := now, owner := owner)
  }

  /** A block as `deallocate` returns it to the free list. */
  function Released(b: Block): Block {
    b.(isAllocated := false, owner := None, referenceCount := 0)
  }

  /** `i` is the block `allocate` picks: fitting, smallest, first among the smallest. */
  predicate IsBestFit(bs: seq<Block>, size: nat, i: nat) {
    i < |bs| && bs[i].size >= size
    && (forall k :: 0 <= k < |bs| && bs[k].size >= size ==> bs[i].size <= bs[k].size)
    && (forall k :: 0 <= k < i && bs[k].size >= size ==> bs[i].size < bs[k].size)
  }

  /** At most one block is the best fit. */
  lemma BestFitUnique(bs: seq<Block>, size: nat, i: nat, j: nat)
    requires IsBestFit(bs, size, i) && IsBestFit(bs, size, j)
    ensures i == j
  {
  }

  /** The best-fit scan of `allocate`. */
  method FindBestFit(bs: seq<Block>, size: nat) returns (r: Option<nat>)
    ensures r.Some? ==> IsBestFit(bs, size, r.value)
    ensures r.None? <==> forall k :: 0 <= k < |bs| ==> bs[k].size < size
  {
    r := None;
    var bestSize: nat := 0;
    for i := 0 to |bs|
      invariant r.None? ==> forall k :: 0 <= k < i ==> bs[k].size < size
      invariant r.Some? ==> r.value < i && bs[r.value].size >= size && bestSize == bs[r.value].size
      invariant r.Some? ==> forall k :: 0 <= k < i && bs[k].size >= size ==> bestSize <= bs[k].size
      invariant r.Some? ==> forall k :: 0 <= k < r.value && bs[k].size >= size ==> bestSize < bs[k].size
    {
      if bs[i].size >= size && (r.None? || bs[i].size < bestSize) {
        r := Some(i);
        bestSize := bs[i].size;
      }
    }
  }

  // ---------------------------------------------------------------------------
  // Steps of the pool's methods
  // ---------------------------------------------------------------------------

  lemma LayoutCons(total: nat, sizes: seq<nat>, acc: nat, id: nat, mt: MemoryType, now: nat)
    requires sizes != [] && forall k :: 0 <= k < |sizes| ==> sizes[k] > 0
    ensures var f := Fill(total, sizes[0], BlockCount(total, sizes[0]), acc, id, mt, now);
      Layout(total, sizes, acc, id, mt, now) == f + Layout(total, sizes[1..], acc + SumSizes(f), id + |f|, mt, now)
  {
  }

  /** One round of the inner loop of `new` that adds block `nb`. */
  lemma FillPush(target: seq<Block>, blocks: seq<Block>, nb: Block, rest: seq<Block>)
    requires blocks + ([nb] + rest) == target
    ensures (blocks + [nb]) + rest == target
    ensures SumSizes([nb] + rest) == nb.size + SumSizes(rest)
  {
    assert ([nb] + rest)[1..] == rest;
  }

  /** Removing block `i` of a valid free list keeps it valid and drops its id. */
  lemma RemoveKeeps(bs: seq<Block>, i: nat)
    requires i < |bs| && AllFree(bs) && DistinctIds(bs)
    ensures var r := bs[..i] + bs[i + 1..];
      AllFree(r) && DistinctIds(r) && NoId(r, bs[i].id)
  {
    var r := bs[..i] + bs[i + 1..];
    assert forall k :: 0 <= k < |r| ==> r[k] == if k < i then bs[k] else bs[k + 1];
  }

  lemma SubKeepsNoId(bs: seq<Block>, i: nat, x: nat)
    requires i < |bs| && NoId(bs, x)
    ensures NoId(bs[..i] + bs[i + 1..], x)
  {
    var r := bs[..i] + bs[i + 1..];
    assert forall k :: 0 <= k < |r| ==> r[k] == if k < i then bs[k] else bs[k + 1];
  }

  /** Appending a free block with a new id keeps a free list valid. */
  lemma AppendKeeps(bs: seq<Block>, b: Block)
    requires AllFree(bs) && DistinctIds(bs) && NoId(bs, b.id) && Free(b)
    ensures AllFree(bs + [b]) && DistinctIds(bs + [b])
    ensures forall x :: NoId(bs, x) && x != b.id ==> NoId(bs + [b], x)
  {
    assert forall k :: 0 <= k < |bs| ==> (bs + [b])[k] == bs[k];
  }

  /** A map's total size is that of the blocks outside `d` plus that of the blocks in `d`. */
  lemma {:induction false} SizeSumSplit(m: map<nat, Block>, d: set<nat>)
    ensures SizeSum(m) == SizeSum(Without(m, d)) + SizeSum(Restrict(m, d))
    decreases |m|
  {
    if m == map[] {
      assert Without(m, d) == map[] && Restrict(m, d) == map[];
    } else {
      var k :| k in m;
      SizeSumSplit(m - {k}, d);
      if k in d {
        SplitIn(m, d, k);
      } else {
        SplitOut(m, d, k);
      }
    }
  }

  lemma SplitIn(m: map<nat, Block>, d: set<nat>, k: nat)
    requires k in m && k in d
    requires SizeSum(m - {k}) == SizeSum(Without(m - {k}, d)) + SizeSum(Restrict(m - {k}, d))
    ensures SizeSum(m) == SizeSum(Without(m, d)) + SizeSum(Restrict(m, d))
  {
    SizeSumPeel(m, k);
    SizeSumPeel(Restrict(m, d), k);
    assert Without(m - {k}, d) == Without(m, d);
    assert Restrict(m - {k}, d) == Restrict(m, d) - {k};
  }

  lemma SplitOut(m: map<nat, Block>, d: set<nat>, k: nat)
    requires k in m && k !in d
    requires SizeSum(m - {k}) == SizeSum(Without(m - {k}, d)) + SizeSum(Restrict(m - {k}, d))
    ensures SizeSum(m) == SizeSum(Without(m, d)) + SizeSum(Restrict(m, d))
  {
    SizeSumPeel(m, k);
    SizeSumPeel(Without(m, d), k);
    assert Without(m - {k}, d) == Without(m, d) - {k};
    assert Restrict(m - {k}, d) == Restrict(m, d);
  }

  /** Freeing at least one block of positive size frees a positive number of bytes. */
  lemma StalePositive(m: map<nat, Block>, d: set<nat>)
    requires d != {} && (forall x :: x in d ==> x in m && m[x].size > 0)
    ensures SizeSum(Restrict(m, d)) > 0
  {
    var x :| x in d;
    SizeSumPeel(Restrict(m, d), x);
  }

  /** The inner loop of `new` for one block size. */
  method FillBlocks(total: nat, size: nat, count: nat, acc: nat, id: nat, mt: MemoryType, now: nat)
      returns (blocks: seq<Block>, acc': nat, id': nat)
    ensures blocks == Fill(total, size, count, acc, id, mt, now)
    ensures acc' == acc + SumSizes(blocks) && id' == id + |blocks|
  {
    blocks, acc', id' := [], acc, id;
    for r := 0 to count
      invariant blocks + Fill(total, size, count - r, acc', id', mt, now) == Fill(total, size, count, acc, id, mt, now)
      invariant acc' + SumSizes(Fill(total, size, count - r, acc', id', mt, now)) == acc + SumSizes(Fill(total, size, count, acc, id, mt, now))
      invariant id' + |Fill(total, size, count - r, acc', id', mt, now)| == id + |Fill(total, size, count, acc, id, mt, now)|
    {
      if acc' + size <= total {
        ghost var rest := Fill(total, size, count - r - 1, acc' + size, id' + 1, mt, now);
        FillPush(Fill(total, size, count, acc, id, mt, now), blocks, NewBlock(id', acc', size, mt, now), rest);
        blocks := blocks + [NewBlock(id', acc', size, mt, now)];
        acc' := acc' + size;
        id' := id' + 1;
      }
    }
  }

  /** The loops of `new`: one round of `FillBlocks` per block size. */
  method BuildLayout(total: nat, sizes: seq<nat>, mt: MemoryType, now: nat) returns (blocks: seq<Block>)
    requires forall k :: 0 <= k < |sizes| ==> sizes[k] > 0
    ensures blocks == Layout(total, sizes, 0, 0, mt, now)
  {
    blocks := [];
    var acc: nat := 0;
    var nextId: nat := 0;
    var rest := sizes;
    while rest != []
      invariant forall k :: 0 <= k < |rest| ==> rest[k] > 0
      invariant blocks + Layout(total, rest, acc, nextId, mt, now) == Layout(total, sizes, 0, 0, mt, now)
      decreases |rest|
    {
      var f, acc', id' := FillBlocks(total, rest[0], BlockCount(total, rest[0]), acc, nextId, mt, now);
      LayoutCons(total, rest, acc, nextId, mt, now);
      AppendAssoc(blocks, f, Layout(total, rest[1..], acc', id', mt, now));
      blocks, acc, nextId, rest := blocks + f, acc', id', rest[1..];
    }
  }

  /** The merge loop of `compact_free_blocks` over blocks sorted by address. */
  method MergeAdjacent(blocks: seq<Block>) returns (compacted: seq<Block>)
    ensures compacted == Compact(blocks)
  {
    compacted := [];
    var current: Option<Block> := None;
    for i := 0 to |blocks|
      invariant current.None? <==> i == 0
      invariant current.None? ==> compacted == []
      invariant current.Some? ==> compacted + MergeFrom(current.value, blocks[i..]) == Compact(blocks)
    {
      var block := blocks[i];
      assert blocks[i..] == [block] + blocks[i + 1..];
      match current
      case None =>
        current := Some(block);
        assert [] + MergeFrom(block, blocks[1..]) == Compact(blocks);
      case Some(c) =>
        if c.ptr + c.size == block.ptr {
          current := Some(c.(size := c.size + block.size));
        } else {
          AppendAssoc(compacted, [c], MergeFrom(block, blocks[i + 1..]));
          compacted := compacted + [c];
          current := Some(block);
        }
    }
    if current.Some? {
      assert blocks[|blocks|..] == [];
      compacted := compacted + [current.value];
    }
  }

  /**
   * The blocks of `order`, released one after another, as `deallocate`
   * appends them; an id without a block appends nothing.
   */
  function ReleasedAll(m: map<nat, Block>, order: seq<nat>): seq<Block> {
    if order == [] then []
    else
      var id := order[|order| - 1];
      ReleasedAll(m, order[..|order| - 1]) + (if id in m then [Released(m[id])] else [])
  }

  /** One released block per id, in the order of the ids. */
  lemma {:induction false} ReleasedAllAt(m: map<nat, Block>, order: seq<nat>)
    requires forall k :: 0 <= k < |order| ==> order[k] in m
    ensures |ReleasedAll(m, order)| == |order|
    ensures forall k :: 0 <= k < |order| ==> ReleasedAll(m, order)[k] == Released(m[order[k]])
    decreases |order|
  {
    if order != [] {
      ReleasedAllAt(m, order[..|order| - 1]);
    }
  }

  /** `order` lists every id of `s` exactly once. */
  ghost predicate Enumerates(order: seq<nat>, s: set<nat>) {
    (forall k :: 0 <= k < |order| ==> order[k] in s)
    && (forall x :: x in s ==> x in order)
    && forall i, j :: 0 <= i < j < |order| ==> order[i] != order[j]
  }

  /** Listing one more id enumerates the larger set. */
  lemma EnumeratesSnoc(order: seq<nat>, s: set<nat>, id: nat)
    requires Enumerates(order, s) && id !in s
    ensures Enumerates(order + [id], s + {id})
  {
    var o := order + [id];
    forall x | x in s + {id} ensures x in o {
      if x != id {
        var k :| 0 <= k < |order| && order[k] == x;
        assert o[k] == x;
      } else {
        assert o[|order|] == id;
      }
    }
  }

  /** Appending one block after a concatenation. */
  lemma AppendAssocBlocks(a: seq<Block>, b: seq<Block>, x: Block)
    ensures a + (b + [x]) == (a + b) + [x]
  {
  }

  /** Releasing one more id appends its block. */
  lemma ReleasedAllSnoc(m: map<nat, Block>, order: seq<nat>, id: nat)
    requires id in m
    ensures ReleasedAll(m, order + [id]) == ReleasedAll(m, order) + [Released(m[id])]
  {
    assert (order + [id])[..|order|] == order;
  }

  class MemoryPool {
    const memoryType: MemoryType
    const totalSize: nat
    var allocatedSize: nat
    var freeBlocks: seq<Block>
    var allocatedBlocks: map<nat, Block>
    const blockSizes: seq<nat>

    /**
     * `allocatedSize` is the total size of the allocated blocks; each
     * allocated block is filed under its id; free blocks are free, have
     * distinct ids and none of the allocated ids.
     */
    ghost predicate Valid()
      reads this
    {
      allocatedSize == SizeSum(allocatedBlocks)
      && (forall x :: x in allocatedBlocks ==> allocatedBlocks[x].id == x && allocatedBlocks[x].size > 0)
      && (forall x :: x in allocatedBlocks ==> NoId(freeBlocks, x))
      && AllFree(freeBlocks) && DistinctIds(freeBlocks)
    }

    /** `new`: the free list of `Layout`, nothing allocated. */
    constructor(memoryType: MemoryType, totalSize: nat, blockSizes: seq<nat>, now: nat)
      requires forall k :: 0 <= k < |blockSizes| ==> blockSizes[k] > 0
      ensures Valid()
      ensures this.memoryType == memoryType && this.totalSize == totalSize && this.blockSizes == blockSizes
      ensures freeBlocks == Layout(totalSize, blockSizes, 0, 0, memoryType, now)
      ensures allocatedSize == 0 && allocatedBlocks == map[]
    {
      var blocks := BuildLayout(totalSize, blockSizes, memoryType, now);
      this.memoryType := memoryType;
      this.totalSize := totalSize;
      this.blockSizes := blockSizes;
      allocatedSize := 0;
      freeBlocks := blocks;
      allocatedBlocks := map[];
      new;
      LayoutShape(totalSize, blockSizes, 0, 0, memoryType, now);
      NumberedDistinct(blocks, 0);
    }

    /** `allocate`: moves the best-fitting free block into the allocated map. */
    method Allocate(size: nat, owner: Option<nat>, now: nat) returns (r: Result<Block, MemoryError>)
      requires Valid()
      modifies this
      ensures Valid()
      ensures r.Err? <==> forall k :: 0 <= k < |old(freeBlocks)| ==> old(freeBlocks)[k].size < size
      ensures r.Err? ==> (r.error == OutOfMemory(memoryType)
        && freeBlocks == old(freeBlocks) && allocatedBlocks == old(allocatedBlocks) && allocatedSize == old(allocatedSize))
      ensures r.Ok? ==> (r.value.size >= size && r.value.isAllocated && r.value.owner == owner
        && exists i: nat :: (IsBestFit(old(freeBlocks), size, i)
          && r.value == Taken(old(freeBlocks)[i], owner, now)
          && freeBlocks == old(freeBlocks)[..i] + old(freeBlocks)[i + 1..]
          && allocatedBlocks == old(allocatedBlocks)[r.value.id := r.value]
          && allocatedSize == old(allocatedSize) + r.value.size))
    {
      var best := FindBestFit(freeBlocks, size);
      if best.None? {
        return Err(OutOfMemory(memoryType));
      }
      var i := best.value;
      var block := Taken(freeBlocks[i], owner, now);
      assert !NoId(freeBlocks, block.id);
      ghost var oldFree := freeBlocks;
      ghost var oldMap := allocatedBlocks;
      freeBlocks := freeBlocks[..i] + freeBlocks[i + 1..];
      allocatedBlocks := allocatedBlocks[block.id := block];
      allocatedSize := allocatedSize + block.size;
      r := Ok(block);
      RemoveKeeps(oldFree, i);
      SizeSumPeel(allocatedBlocks, block.id);
      assert allocatedBlocks - {block.id} == oldMap;
      forall x | x in allocatedBlocks ensures NoId(freeBlocks, x) {
        if x != block.id {
          SubKeepsNoId(oldFree, i, x);
        }
      }
    }

    /** `deallocate`: returns an allocated block to the end of the free list. */
    method Deallocate(id: nat) returns (r: Result<nat, MemoryError>)
      requires Valid()
      modifies this
      ensures Valid()
      ensures id in old(allocatedBlocks) ==> (r == Ok(old(allocatedBlocks)[id].size)
        && allocatedBlocks == old(allocatedBlocks) - {id}
        && freeBlocks == old(freeBlocks) + [Released(old(allocatedBlocks)[id])]
        && allocatedSize == old(allocatedSize) - r.value)
      ensures id !in old(allocatedBlocks) ==> (r == Err(InvalidBlockId(id))
        && freeBlocks == old(freeBlocks) && allocatedBlocks == old(allocatedBlocks) && allocatedSize == old(allocatedSize))
    {
      if id !in allocatedBlocks {
        return Err(InvalidBlockId(id));
      }
      var block := Released(allocatedBlocks[id]);
      SizeSumPeel(allocatedBlocks, id);
      ghost var oldFree := freeBlocks;
      allocatedBlocks := allocatedBlocks - {id};
      allocatedSize := allocatedSize - block.size;
      freeBlocks := freeBlocks + [block];
      r := Ok(block.size);
      AppendKeeps(oldFree, block);
    }

    /** `compact_free_blocks`: sorts the free list by address and merges adjacent blocks. */
    method CompactFreeBlocks()
      requires Valid()
      modifies this
      ensures Valid()
      ensures freeBlocks == Compact(SortByPtr(old(freeBlocks)))
      ensures allocatedBlocks == old(allocatedBlocks) && allocatedSize == old(allocatedSize)
    {
      var blocks := SortByPtr(freeBlocks);
      var compacted := MergeAdjacent(blocks);
      CompactShape(freeBlocks);
      forall x | x in allocatedBlocks ensures NoId(compacted, x) {
        CompactIds(freeBlocks, x);
      }
      freeBlocks := compacted;
    }

    /**
     * The freeing loop of `garbage_collect`: deallocates every block of `ids`,
     * in the order `order` (a `HashMap`'s iteration order, which the source
     * leaves unspecified), each released block appended to the free list.
     */
    method FreeAll(ids: set<nat>) returns (freed: nat, ghost order: seq<nat>)
      requires Valid() && forall x :: x in ids ==> x in allocatedBlocks
      modifies this
      ensures Valid()
      ensures Enumerates(order, ids)
      ensures freeBlocks == old(freeBlocks) + ReleasedAll(old(allocatedBlocks), order)
      ensures allocatedBlocks == Without(old(allocatedBlocks), ids)
      ensures freed == SizeSum(Restrict(old(allocatedBlocks), ids))
      ensures allocatedSize + freed == old(allocatedSize)
      ensures SumSizes(freeBlocks) == SumSizes(old(freeBlocks)) + freed
    {
      ghost var m0, size0, free0, list0 := allocatedBlocks, allocatedSize, SumSizes(freeBlocks), freeBlocks;
      var todo := ids;
      ghost var done: set<nat> := {};
      freed := 0;
      order := [];
      while todo != {}
        invariant Valid()
        invariant todo + done == ids && todo !! done
        invariant Enumerates(order, done)
        invariant freeBlocks == list0 + ReleasedAll(m0, order)
        invariant allocatedBlocks == Without(m0, done)
        invariant allocatedSize + freed == size0
        invariant SumSizes(freeBlocks) == free0 + freed
        decreases |todo|
      {
        var id :| id in todo;
        ghost var before := freeBlocks;
        ghost var b := allocatedBlocks[id];
        assert b == m0[id];
        var res := Deallocate(id);
        SumSizesSnoc(before, Released(b));
        assert freeBlocks == before + [Released(b)];
        ReleasedAllSnoc(m0, order, id);
        AppendAssocBlocks(list0, ReleasedAll(m0, order), Released(b));
        EnumeratesSnoc(order, done, id);
        order := order + [id];
        if res.Ok? {
          freed := freed + res.value;
        }
        CollectStep(m0, ids, todo, done, id);
        todo := todo - {id};
        done := done + {id};
      }
      assert done == ids;
      SizeSumSplit(m0, ids);
    }

    /**
     * `garbage_collect`: frees every stale allocated block, returns the
     * bytes freed and compacts the free list.
     */
    method GarbageCollect(now: nat) returns (freed: nat, ghost order: seq<nat>)
      requires Valid()
      modifies this
      ensures Valid()
      ensures Enumerates(order, StaleIds(old(allocatedBlocks), now))
      ensures freeBlocks == Compact(SortByPtr(old(freeBlocks) + ReleasedAll(old(allocatedBlocks), order)))
      ensures allocatedBlocks == Without(old(allocatedBlocks), StaleIds(old(allocatedBlocks), now))
      ensures freed == SizeSum(Restrict(old(allocatedBlocks), StaleIds(old(allocatedBlocks), now)))
      ensures allocatedSize + freed == old(allocatedSize)
      ensures SumSizes(freeBlocks) == SumSizes(old(freeBlocks)) + freed
      ensures SortedByPtr(freeBlocks) && NonAdjacent(freeBlocks)
      ensures StaleIds(old(allocatedBlocks), now) != {} ==> freed > 0
    {
      var stale := StaleIds(allocatedBlocks, now);
      if stale != {} {
        StalePositive(allocatedBlocks, stale);
      }
      freed, order := FreeAll(stale);
      ghost var beforeCompact := freeBlocks;
      CompactFreeBlocks();
      CompactShape(beforeCompact);
    }
  }
}
