/**
 * The synchronous parts of the inference-engine lesson: the bounded byte
 * allocator (`MemoryManager`), the per-priority request scheduler
 * (`RequestScheduler`) and the simulated token generator.
 *
 * Block and request ids (`Uuid::new_v4`) are modelled as a counter;
 * temperature, top-p and timestamps, which the modelled code never reads,
 * are left out of the records.
 */
module Inference {
  import opened Seqs
  import opened Wrappers

  datatype InferenceError = OutOfMemory | InvalidMemoryBlock

  // ---------------------------------------------------------------------------
  // MemoryManager
  // ---------------------------------------------------------------------------

  datatype Block = Block(id: nat, size: nat, isAllocated: bool, sequenceId: Option<nat>)

  function SumSizes(bs: seq<Block>): nat {
    if bs == [] then 0 else bs[0].size + SumSizes(bs[1..])
  }

  lemma {:induction false} SumSizesAppend(a: seq<Block>, b: seq<Block>)
    ensures SumSizes(a + b) == SumSizes(a) + SumSizes(b)
    decreases |a|
  {
    if a == [] {
      assert a + b == b;
    } else {
      assert (a + b)[1..] == a[1..] + b;
      SumSizesAppend(a[1..], b);
    }
  }

  /** Removing block `i` takes its size off the total. */
  lemma SumSizesRemove(bs: seq<Block>, i: nat)
    requires i < |bs|
    ensures SumSizes(bs) == SumSizes(bs[..i] + bs[i + 1..]) + bs[i].size
  {
    var a, x, c := bs[..i], bs[i], bs[i + 1..];
    assert bs == (a + [x]) + c;
    SumSizesAppend(a + [x], c);
    SumSizesAppend(a, [x]);
    SumSizesAppend(a, c);
    SumSizesOne(x);
  }

  lemma SumSizesOne(x: Block)
    ensures SumSizes([x]) == x.size
  {
    assert [x][1..] == [];
  }

  predicate DistinctIds(bs: seq<Block>) {
    forall i, j :: 0 <= i < j < |bs| ==> bs[i].id != bs[j].id
  }

  /** Every id is below `bound`. */
  predicate IdsBelow(bs: seq<Block>, bound: nat) {
    forall k :: 0 <= k < |bs| ==> bs[k].id < bound
  }

  /** Removing a block keeps the ids distinct and below the bound. */
  lemma RemoveKeepsIds(bs: seq<Block>, i: nat, bound: nat)
    requires i < |bs| && DistinctIds(bs) && IdsBelow(bs, bound)
    ensures DistinctIds(bs[..i] + bs[i + 1..]) && IdsBelow(bs[..i] + bs[i + 1..], bound)
  {
    var rest := bs[..i] + bs[i + 1..];
    assert forall k :: 0 <= k < |rest| ==> rest[k] == if k < i then bs[k] else bs[k + 1];
  }

  /** `iter().position(|b| b.id == id)`: the first block with id `id`. */
  method Position(bs: seq<Block>, id: nat) returns (r: Option<nat>)
    ensures r.Some? ==> (r.value < |bs| && bs[r.value].id == id
      && forall k :: 0 <= k < r.value ==> bs[k].id != id)
    ensures r.None? <==> forall k :: 0 <= k < |bs| ==> bs[k].id != id
  {
    for i := 0 to |bs|
      invariant forall k :: 0 <= k < i ==> bs[k].id != id
    {
      if bs[i].id == id {
        return Some(i);
      }
    }
    return None;
  }

  class MemoryManager {
    const poolSize: nat
    var allocatedMemory: nat
    var memoryBlocks: seq<Block>
    var nextId: nat

    /** The allocated total is the blocks' total and within the pool; ids are distinct and issued. */
    ghost predicate Valid()
      reads this
    {
      allocatedMemory == SumSizes(memoryBlocks) && allocatedMemory <= poolSize
      && DistinctIds(memoryBlocks) && IdsBelow(memoryBlocks, nextId)
    }

    constructor(poolSize: nat)
      ensures Valid()
      ensures this.poolSize == poolSize && allocatedMemory == 0 && memoryBlocks == []
    {
      this.poolSize := poolSize;
      allocatedMemory := 0;
      memoryBlocks := [];
      nextId := 0;
    }

    /** `allocate`: fails iff the request does not fit in what is left of the pool. */
    method Allocate(size: nat) returns (r: Result<Block, InferenceError>)
      requires Valid()
      modifies this
      ensures Valid()
      ensures r.Err? <==> old(allocatedMemory) + size > poolSize
      ensures r.Err? ==> (r.error == OutOfMemory && allocatedMemory == old(allocatedMemory)
        && memoryBlocks == old(memoryBlocks) && nextId == old(nextId))
      ensures r.Ok? ==> (r.value == Block(old(nextId), size, true, None)
        && allocatedMemory == old(allocatedMemory) + size
        && memoryBlocks == old(memoryBlocks) + [r.value] && nextId == old(nextId) + 1)
    {
      if allocatedMemory + size > poolSize {
        return Err(OutOfMemory);
      }
      var block := Block(nextId, size, true, None);
      SumSizesAppend(memoryBlocks, [block]);
      assert [block][1..] == [];
      allocatedMemory := allocatedMemory + size;
      memoryBlocks := memoryBlocks + [block];
      nextId := nextId + 1;
      r := Ok(block);
    }

    /** `deallocate`: removes the block with id `id` and gives its size back. */
    method Deallocate(id: nat) returns (r: Result<(), InferenceError>)
      requires Valid()
      modifies this
      ensures Valid()
      ensures r.Err? <==> forall k :: 0 <= k < |old(memoryBlocks)| ==> old(memoryBlocks)[k].id != id
      ensures r.Err? ==> (r.error == InvalidMemoryBlock && allocatedMemory == old(allocatedMemory)
        && memoryBlocks == old(memoryBlocks))
      ensures r.Ok? ==> exists i: nat :: (i < |old(memoryBlocks)| && old(memoryBlocks)[i].id == id
        && memoryBlocks == old(memoryBlocks)[..i] + old(memoryBlocks)[i + 1..]
        && allocatedMemory == old(allocatedMemory) - old(memoryBlocks)[i].size)
      ensures nextId == old(nextId)
    {
      var pos := Position(memoryBlocks, id);
      if pos.None? {
        return Err(InvalidMemoryBlock);
      }
      var i := pos.value;
      var block := memoryBlocks[i];
      SumSizesRemove(memoryBlocks, i);
      RemoveKeepsIds(memoryBlocks, i, nextId);
      memoryBlocks := memoryBlocks[..i] + memoryBlocks[i + 1..];
      allocatedMemory := allocatedMemory - block.size;
      r := Ok(());
    }
  }

  /** The allocation sequence of the memory-manager test, ending with 768 bytes in use. */
  method MemoryManagerScenario() returns (used: nat, thirdFailed: bool)
    ensures used == 768 && thirdFailed
  {
    var m := new MemoryManager(1024);
    var b1 := m.Allocate(256);
    var b2 := m.Allocate(512);
    var b3 := m.Allocate(512);
    thirdFailed := b3.Err?;
    var d := m.Deallocate(b1.value.id);
    assert m.memoryBlocks == [b2.value];
    var b4 := m.Allocate(256);
    used := m.allocatedMemory;
  }

  // ---------------------------------------------------------------------------
  // RequestScheduler
  // ---------------------------------------------------------------------------

  datatype Priority = Low | Normal | High | Critical

  datatype SchedulingPolicy = FirstComeFirstServe | PriorityBased | ShortestJobFirst | RoundRobin

  datatype Request = Request(id: nat, prompt: string, maxTokens: nat, stopTokens: seq<string>, priority: Priority)

  type Queues = map<Priority, seq<Request>>

  /** The order in which `get_next_batch` drains the queues. */
  const ServeOrder: seq<Priority> := [Critical, High, Normal, Low]

  /** The queue of priority `p`, empty when none was created. */
  function Level(qs: Queues, p: Priority): seq<Request> {
    if p in qs then qs[p] else []
  }

  /** The queues of `ps`, one after the other. */
  function Levels(qs: Queues, ps: seq<Priority>): seq<Request> {
    if ps == [] then [] else Level(qs, ps[0]) + Levels(qs, ps[1..])
  }

  datatype Served = Served(batch: seq<Request>, queues: Queues)

  /** How many requests the queue of `p` gives up when `room` places are left. */
  function Take(qs: Queues, p: Priority, room: nat): nat {
    Min(room, |Level(qs, p)|)
  }

  /** The queues after the first `k` requests of `p`'s queue are taken. */
  function Drop(qs: Queues, p: Priority, k: nat): Queues
    requires k <= |Level(qs, p)|
  {
    if p in qs then qs[p := Level(qs, p)[k..]] else qs
  }

  /**
   * The batch of at most `room` requests taken from the fronts of the
   * queues of `ps` in turn, and the queues left behind.
   */
  function Serve(qs: Queues, ps: seq<Priority>, room: nat): Served
    decreases |ps|
  {
    if ps == [] then Served([], qs)
    else
      var k := Take(qs, ps[0], room);
      var rest := Serve(Drop(qs, ps[0], k), ps[1..], room - k);
      Served(Level(qs, ps[0])[..k] + rest.batch, rest.queues)
  }

  lemma DropKeys(qs: Queues, p: Priority, k: nat)
    requires k <= |Level(qs, p)|
    ensures Drop(qs, p, k).Keys == qs.Keys
  {
  }

  lemma LevelDrop(qs: Queues, p: Priority, k: nat, p2: Priority)
    requires k <= |Level(qs, p)|
    ensures Level(Drop(qs, p, k), p2) == if p2 == p then Level(qs, p)[k..] else Level(qs, p2)
  {
  }

  lemma {:induction false} LevelsOther(qs: Queues, p: Priority, v: seq<Request>, ps: seq<Priority>)
    requires p !in ps && p in qs
    ensures Levels(qs[p := v], ps) == Levels(qs, ps)
    decreases |ps|
  {
    if ps != [] {
      LevelsOther(qs, p, v, ps[1..]);
    }
  }

  /** A sequence without repetitions, as `ServeOrder` is. */
  predicate Distinct(ps: seq<Priority>) {
    forall i, j :: 0 <= i < j < |ps| ==> ps[i] != ps[j]
  }

  lemma LevelsCons(qs: Queues, ps: seq<Priority>)
    requires ps != []
    ensures Levels(qs, ps) == Level(qs, ps[0]) + Levels(qs, ps[1..])
  {
  }

  lemma LevelsDrop(qs: Queues, p: Priority, k: nat, ps: seq<Priority>)
    requires k <= |Level(qs, p)| && p !in ps
    ensures Levels(Drop(qs, p, k), ps) == Levels(qs, ps)
  {
    if p in qs {
      LevelsOther(qs, p, Level(qs, p)[k..], ps);
    }
  }

  /** Taking `k` from `q` and then `batch` from `tail` takes from `q + tail` in order. */
  lemma ConcatStep(q: seq<Request>, k: nat, room: nat, batch: seq<Request>, left: seq<Request>, tail: seq<Request>)
    requires k == Min(room, |q|)
    requires |batch| == Min(room - k, |tail|) && batch + left == tail
    ensures |q[..k] + batch| == Min(room, |q + tail|)
    ensures (q[..k] + batch) + (q[k..] + left) == q + tail
  {
    if k < |q| {
      assert room == k && |batch| == 0;
      assert batch == [] && left == tail;
      AppendAssoc(q[..k], q[k..], left);
      assert q[..k] + q[k..] == q;
      assert q[..k] + batch == q[..k];
    } else {
      assert q[..k] == q && q[k..] == [];
      AppendAssoc(q, batch, left);
      assert [] + left == left;
    }
  }

  lemma ServeStep(qs: Queues, ps: seq<Priority>, room: nat, rest: Served)
    requires ps != [] && Distinct(ps)
    requires var k := Take(qs, ps[0], room); var qs' := Drop(qs, ps[0], k);
      |rest.batch| == Min(room - k, |Levels(qs', ps[1..])|)
      && rest.batch + Levels(rest.queues, ps[1..]) == Levels(qs', ps[1..])
      && Level(rest.queues, ps[0]) == Level(qs', ps[0])
    ensures var q, k := Level(qs, ps[0]), Take(qs, ps[0], room);
      |q[..k] + rest.batch| == Min(room, |Levels(qs, ps)|)
      && (q[..k] + rest.batch) + Levels(rest.queues, ps) == Levels(qs, ps)
  {
    var q, k := Level(qs, ps[0]), Take(qs, ps[0], room);
    var tail, left := Levels(qs, ps[1..]), Levels(rest.queues, ps[1..]);
    assert Levels(qs, ps) == q + tail by {
      LevelsCons(qs, ps);
    }
    assert Levels(rest.queues, ps) == q[k..] + left by {
      LevelDrop(qs, ps[0], k, ps[0]);
      LevelsCons(rest.queues, ps);
    }
    assert Levels(Drop(qs, ps[0], k), ps[1..]) == tail by {
      assert ps[0] !in ps[1..];
      LevelsDrop(qs, ps[0], k, ps[1..]);
    }
    ConcatStep(q, k, room, rest.batch, left, tail);
  }

  /** Serving creates and drops no queue, and leaves the queues outside `ps` alone. */
  lemma {:induction false} ServeFrame(qs: Queues, ps: seq<Priority>, room: nat)
    ensures var s := Serve(qs, ps, room);
      s.queues.Keys == qs.Keys && forall p :: p !in ps ==> Level(s.queues, p) == Level(qs, p)
    decreases |ps|
  {
    if ps != [] {
      var k := Take(qs, ps[0], room);
      var qs' := Drop(qs, ps[0], k);
      var rest := Serve(qs', ps[1..], room - k);
      assert Serve(qs, ps, room).queues == rest.queues;
      ServeFrame(qs', ps[1..], room - k);
      DropKeys(qs, ps[0], k);
      forall p | p !in ps
        ensures Level(rest.queues, p) == Level(qs, p)
      {
        LevelDrop(qs, ps[0], k, p);
      }
    }
  }

  /** The batch is the first `room` requests of the queues of `ps` in turn, and the queues keep the rest. */
  lemma {:induction false} ServeTakesFront(qs: Queues, ps: seq<Priority>, room: nat)
    requires Distinct(ps)
    ensures var s := Serve(qs, ps, room);
      |s.batch| == Min(room, |Levels(qs, ps)|)
      && s.batch + Levels(s.queues, ps) == Levels(qs, ps)
    decreases |ps|
  {
    if ps != [] {
      var k := Take(qs, ps[0], room);
      var qs' := Drop(qs, ps[0], k);
      var rest := Serve(qs', ps[1..], room - k);
      assert Distinct(ps[1..]) && ps[0] !in ps[1..];
      ServeTakesFront(qs', ps[1..], room - k);
      ServeFrame(qs', ps[1..], room - k);
      ServeStep(qs, ps, room, rest);
    }
  }

  /**
   * `get_next_batch` under the priority policy: the batch is the first
   * `room` requests of the queues concatenated in serving order (or all of
   * them), and the queues keep exactly the rest; each queue loses only a
   * prefix and no queue is created or dropped.
   */
  lemma ServeMeaning(qs: Queues, ps: seq<Priority>, room: nat)
    requires Distinct(ps)
    ensures var s := Serve(qs, ps, room);
      |s.batch| == Min(room, |Levels(qs, ps)|)
      && s.batch + Levels(s.queues, ps) == Levels(qs, ps)
      && s.queues.Keys == qs.Keys
      && forall p :: p !in ps ==> Level(s.queues, p) == Level(qs, p)
  {
    ServeTakesFront(qs, ps, room);
    ServeFrame(qs, ps, room);
  }

  /** `a` is what is left of `b` after dropping a prefix. */
  predicate IsSuffix(a: seq<Request>, b: seq<Request>) {
    |a| <= |b| && a == b[|b| - |a|..]
  }

  lemma SuffixDrop(a: seq<Request>, b: seq<Request>, k: nat)
    requires k <= |b| && IsSuffix(a, b[k..])
    ensures IsSuffix(a, b)
  {
    assert b[k..][|b[k..]| - |a|..] == b[|b| - |a|..];
  }

  /** What is left of a queue after a drop is left of it before. */
  lemma SuffixOfDrop(qs: Queues, p0: Priority, k: nat, p: Priority, left: seq<Request>)
    requires k <= |Level(qs, p0)| && IsSuffix(left, Level(Drop(qs, p0, k), p))
    ensures IsSuffix(left, Level(qs, p))
  {
    LevelDrop(qs, p0, k, p);
    if p == p0 {
      SuffixDrop(left, Level(qs, p), k);
    }
  }

  /** Each queue only loses requests from its front. */
  lemma {:induction false} ServeSuffix(qs: Queues, ps: seq<Priority>, room: nat, p: Priority)
    ensures IsSuffix(Level(Serve(qs, ps, room).queues, p), Level(qs, p))
    decreases |ps|
  {
    if ps != [] {
      var k := Take(qs, ps[0], room);
      var qs' := Drop(qs, ps[0], k);
      var rest := Serve(qs', ps[1..], room - k);
      assert Serve(qs, ps, room).queues == rest.queues;
      ServeSuffix(qs', ps[1..], room - k, p);
      SuffixOfDrop(qs, ps[0], k, p, Level(rest.queues, p));
    }
  }

  /** Serving `ps` with `room` to spare after `batch` ends in `whole`. */
  predicate Resumes(batch: seq<Request>, qs: Queues, ps: seq<Priority>, room: nat, whole: Served) {
    Served(batch + Serve(qs, ps, room).batch, Serve(qs, ps, room).queues) == whole
  }

  /** One round of the outer loop of `get_next_batch`: the queue of `ps[0]` is drained. */
  lemma ServeLevelStep(qs0: Queues, ps: seq<Priority>, rest: seq<Priority>, maxSize: nat, b0: seq<Request>,
                       batch: seq<Request>, qs: Queues, whole: Served)
    requires ps != [] && rest == ps[1..] && |b0| <= maxSize
    requires Resumes(b0, qs0, ps, maxSize - |b0|, whole)
    requires batch == b0 + Level(qs0, ps[0])[..Min(maxSize - |b0|, |Level(qs0, ps[0])|)]
    requires qs == if ps[0] in qs0 then qs0[ps[0] := Level(qs0, ps[0])[Min(maxSize - |b0|, |Level(qs0, ps[0])|)..]] else qs0
    ensures |batch| <= maxSize
    ensures Resumes(batch, qs, rest, maxSize - |batch|, whole)
  {
    var k := Min(maxSize - |b0|, |Level(qs0, ps[0])|);
    var tail := Serve(qs, rest, maxSize - |b0| - k);
    assert b0 + (Level(qs0, ps[0])[..k] + tail.batch) == batch + tail.batch;
  }

  /** The inner loop of `get_next_batch`: requests move from the front of `queue` until the batch is full. */
  method TakeFront(batch: seq<Request>, queue: seq<Request>, maxSize: nat) returns (batch': seq<Request>, queue': seq<Request>)
    requires |batch| <= maxSize
    ensures var k := Min(maxSize - |batch|, |queue|);
      batch' == batch + queue[..k] && queue' == queue[k..]
  {
    batch', queue' := batch, queue;
    ghost var t := 0;
    while |batch'| < maxSize && queue' != []
      invariant t <= Min(maxSize - |batch|, |queue|)
      invariant batch' == batch + queue[..t] && queue' == queue[t..]
      decreases |queue'|
    {
      batch' := batch' + [queue'[0]];
      queue' := queue'[1..];
      assert queue[..t + 1] == queue[..t] + [queue[t]];
      t := t + 1;
    }
  }

  class RequestScheduler {
    const policy: SchedulingPolicy
    var queues: Queues

    constructor(policy: SchedulingPolicy)
      ensures this.policy == policy && queues == map[]
    {
      this.policy := policy;
      queues := map[];
    }

    /** `add_request`: appends the request to the tail of its priority's queue. */
    method AddRequest(request: Request)
      modifies this
      ensures queues == old(queues)[request.priority := Level(old(queues), request.priority) + [request]]
    {
      var p := request.priority;
      queues := queues[p := Level(queues, p) + [request]];
    }

    /** `get_next_batch`: drains the queues in priority order, or returns nothing under other policies. */
    method GetNextBatch(maxSize: nat) returns (batch: seq<Request>)
      modifies this
      ensures policy == PriorityBased ==> Served(batch, queues) == Serve(old(queues), ServeOrder, maxSize)
      ensures policy != PriorityBased ==> batch == [] && queues == old(queues)
    {
      batch := [];
      if policy == PriorityBased {
        batch := DrainInOrder(ServeOrder, maxSize);
      }
    }

    /** The priority branch of `get_next_batch`, for the priorities `order` in turn. */
    method DrainInOrder(order: seq<Priority>, maxSize: nat) returns (batch: seq<Request>)
      modifies this
      ensures Served(batch, queues) == Serve(old(queues), order, maxSize)
    {
      batch := [];
      ghost var whole := Serve(queues, order, maxSize);
      for j := 0 to |order|
        invariant |batch| <= maxSize
        invariant Resumes(batch, queues, order[j..], maxSize - |batch|, whole)
      {
        var p := order[j];
        ghost var b0, qs0 := batch, queues;
        if p in queues {
          var queue;
          batch, queue := TakeFront(batch, queues[p], maxSize);
          queues := queues[p := queue];
        }
        assert order[j..][1..] == order[j + 1..];
        ServeLevelStep(qs0, order[j..], order[j + 1..], maxSize, b0, batch, queues, whole);
      }
    }
  }

  /** With one high and one low request queued, a batch of two serves the high one first. */
  lemma ServeHighThenLow(qs: Queues, h: Request, l: Request)
    requires Level(qs, Critical) == [] && Level(qs, High) == [h] && Level(qs, Normal) == [] && Level(qs, Low) == [l]
    ensures Serve(qs, ServeOrder, 2).batch == [h, l]
  {
    var ps := ServeOrder;
    LevelsCons(qs, ps);
    LevelsCons(qs, ps[1..]);
    LevelsCons(qs, ps[2..]);
    LevelsCons(qs, ps[3..]);
    assert ps[1..][1..] == ps[2..] && ps[2..][1..] == ps[3..] && ps[3..][1..] == [];
    assert Levels(qs, ps) == [h, l];
    assert Distinct(ps);
    ServeMeaning(qs, ps, 2);
    var b := Serve(qs, ps, 2).batch;
    assert b == (b + Levels(Serve(qs, ps, 2).queues, ps))[..2];
  }

  /** The scheduler test: a low then a high request come out high first. */
  method SchedulerScenario() returns (batch: seq<Request>)
    ensures |batch| == 2 && batch[0].priority == High && batch[1].priority == Low
  {
    var s := new RequestScheduler(PriorityBased);
    var low := Request(0, "Low priority", 10, [], Low);
    var high := Request(1, "High priority", 10, [], High);
    s.AddRequest(low);
    s.AddRequest(high);
    ServeHighThenLow(s.queues, high, low);
    batch := s.GetNextBatch(2);
  }

  // ---------------------------------------------------------------------------
  // Token generation
  // ---------------------------------------------------------------------------

  /** Generation stops after at most this many tokens. */
  const GenerationCap: nat := 50

  /** `sample_next_token`: the letters A to Z in turn. */
  function SampleNextToken(step: nat): (t: nat)
    ensures 65 <= t <= 90
  {
    65 + step % 26
  }

  /** `char::from_u32(t).unwrap_or('?')`. */
  function FromCode(t: nat): char {
    if t < 0xD800 || (0xE000 <= t < 0x11_0000) then t as char else '?'
  }

  function TokensToText(ts: seq<nat>): (s: string)
    ensures |s| == |ts|
  {
    if ts == [] then [] else [FromCode(ts[0])] + TokensToText(ts[1..])
  }

  function Codes(s: string): (r: seq<nat>)
    ensures |r| == |s|
  {
    if s == [] then [] else [s[0] as nat] + Codes(s[1..])
  }

  predicate EndsWith(s: string, suffix: string) {
    |suffix| <= |s| && s[|s| - |suffix|..] == suffix
  }

  /** `should_stop`: the text so far ends with one of the stop strings. */
  predicate ShouldStop(ts: seq<nat>, stops: seq<string>) {
    stops != [] && exists k :: 0 <= k < |stops| && EndsWith(TokensToText(ts), stops[k])
  }

  /** The generation loop from step `i` on, below `limit`, after `ts`. */
  function GenerateFrom(ts: seq<nat>, i: nat, limit: nat, stops: seq<string>): seq<nat>
    decreases limit - i
  {
    if i >= limit then ts
    else
      var ts' := ts + [SampleNextToken(i)];
      if ShouldStop(ts', stops) then ts' else GenerateFrom(ts', i + 1, limit, stops)
  }

  /** What `generate_tokens` returns. */
  function Generated(r: Request): seq<nat> {
    GenerateFrom(Codes(r.prompt), 0, Min(r.maxTokens, GenerationCap), r.stopTokens)
  }

  /** The tokens of steps `i` to `limit`. */
  function Samples(i: nat, limit: nat): seq<nat>
    decreases limit - i
  {
    if i >= limit then [] else [SampleNextToken(i)] + Samples(i + 1, limit)
  }

  /** `generate_tokens`: the prompt's code points, then sampled tokens until a stop string or the cap. */
  method GenerateTokens(r: Request) returns (tokens: seq<nat>)
    ensures tokens == Generated(r)
  {
    tokens := Codes(r.prompt);
    var limit := Min(r.maxTokens, GenerationCap);
    var i := 0;
    while i < limit
      invariant i <= limit
      invariant GenerateFrom(tokens, i, limit, r.stopTokens) == Generated(r)
      decreases limit - i
    {
      var next := SampleNextToken(i);
      tokens := tokens + [next];
      if ShouldStop(tokens, r.stopTokens) {
        return;
      }
      i := i + 1;
    }
  }

  /** One step of the generation loop: it stops after the new token or goes on from it. */
  lemma GenerateStep(ts: seq<nat>, i: nat, limit: nat, stops: seq<string>)
    requires i < limit
    ensures var ts' := ts + [SampleNextToken(i)]; var g := GenerateFrom(ts, i, limit, stops);
      (g == ts' || g == GenerateFrom(ts', i + 1, limit, stops))
      && (stops == [] ==> g == GenerateFrom(ts', i + 1, limit, stops))
  {
  }

  /** The generated tokens extend `ts` by at most `limit - i` tokens, and by at least one when a step is left. */
  lemma {:induction false} GenerateExtends(ts: seq<nat>, i: nat, limit: nat, stops: seq<string>)
    ensures var g := GenerateFrom(ts, i, limit, stops);
      |ts| <= |g| <= |ts| + (if i <= limit then limit - i else 0) && g[..|ts|] == ts
      && (i < limit ==> |g| > |ts|)
    decreases limit - i
  {
    if i < limit {
      var ts' := ts + [SampleNextToken(i)];
      GenerateStep(ts, i, limit, stops);
      GenerateExtends(ts', i + 1, limit, stops);
      var g := GenerateFrom(ts, i, limit, stops);
      assert g[..|ts'|][..|ts|] == g[..|ts|];
      assert ts'[..|ts|] == ts;
    }
  }

  /** Every generated token after `ts` is a capital letter. */
  lemma {:induction false} GenerateLetters(ts: seq<nat>, i: nat, limit: nat, stops: seq<string>)
    ensures var g := GenerateFrom(ts, i, limit, stops);
      forall k :: |ts| <= k < |g| ==> 65 <= g[k] <= 90
    decreases limit - i
  {
    if i < limit {
      var ts' := ts + [SampleNextToken(i)];
      GenerateStep(ts, i, limit, stops);
      GenerateLetters(ts', i + 1, limit, stops);
      GenerateExtends(ts', i + 1, limit, stops);
      var g := GenerateFrom(ts, i, limit, stops);
      assert g[..|ts'|] == ts';
      assert g[|ts|] == ts'[|ts|];
    }
  }

  /** With no stop strings, the generation runs every remaining step. */
  lemma {:induction false} GenerateAll(ts: seq<nat>, i: nat, limit: nat)
    ensures GenerateFrom(ts, i, limit, []) == ts + Samples(i, limit)
    decreases limit - i
  {
    if i < limit {
      var ts' := ts + [SampleNextToken(i)];
      GenerateStep(ts, i, limit, []);
      GenerateAll(ts', i + 1, limit);
      assert ts' + Samples(i + 1, limit) == ts + Samples(i, limit);
    }
  }

  /**
   * The generated tokens start with the prompt's code points, carry at most
   * `limit - i` more tokens, all letters, and at least one when any step is
   * left; with no stop strings they are exactly the remaining samples.
   */
  lemma GenerateShape(ts: seq<nat>, i: nat, limit: nat, stops: seq<string>)
    ensures var g := GenerateFrom(ts, i, limit, stops);
      |ts| <= |g| <= |ts| + (if i <= limit then limit - i else 0) && g[..|ts|] == ts
      && (i < limit ==> |g| > |ts|)
      && (forall k :: |ts| <= k < |g| ==> 65 <= g[k] <= 90)
      && (stops == [] ==> g == ts + Samples(i, limit))
  {
    GenerateExtends(ts, i, limit, stops);
    GenerateLetters(ts, i, limit, stops);
    if stops == [] {
      GenerateAll(ts, i, limit);
    }
  }

  /**
   * `generate_tokens` returns the prompt's code points and at most
   * min(max_tokens, 50) letters; with no stop strings exactly that many.
   */
  lemma GeneratedTokens(r: Request)
    ensures var g := Generated(r);
      |r.prompt| <= |g| <= |r.prompt| + Min(r.maxTokens, GenerationCap)
      && g[..|r.prompt|] == Codes(r.prompt)
      && (r.maxTokens > 0 ==> |g| > |r.prompt|)
      && (r.stopTokens == [] ==> |g| == |r.prompt| + Min(r.maxTokens, GenerationCap))
  {
    GenerateShape(Codes(r.prompt), 0, Min(r.maxTokens, GenerationCap), r.stopTokens);
    SamplesLength(0, Min(r.maxTokens, GenerationCap));
  }

  lemma {:induction false} SamplesLength(i: nat, limit: nat)
    ensures |Samples(i, limit)| == if i <= limit then limit - i else 0
    decreases limit - i
  {
    if i < limit {
      SamplesLength(i + 1, limit);
    }
  }
}
