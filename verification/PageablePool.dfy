/** `pageable_pool_resource`: a coalescing best-fit sub-allocator over one buffer. */
module PageablePool {
  import opened Common

  /** `size_t` is 64 bits wide; `rmm::CUDA_ALLOCATION_ALIGNMENT` is 256. */
  const SIZE_MODULUS: nat := 0x1_0000_0000_0000_0000
  const ALIGNMENT: nat := 256

  /** `rmm::align_up`, with the wrap-around of `size_t`. */
  function AlignUp(bytes: nat): nat {
    var sum := (bytes + (ALIGNMENT - 1)) % SIZE_MODULUS;
    sum - sum % ALIGNMENT
  }

  /** The least multiple that is large enough, or zero when that does not fit a `size_t`. */
  lemma {:induction false} AlignUpExact(bytes: nat)
    requires 0 < bytes < SIZE_MODULUS
    ensures AlignUp(bytes) % ALIGNMENT == 0
    ensures if bytes <= SIZE_MODULUS - ALIGNMENT
            then bytes <= AlignUp(bytes) < bytes + ALIGNMENT else AlignUp(bytes) == 0
  {
  }

  datatype Block = Block(start: nat, size: nat) {
    function End(): nat {
      start + size
    }

    predicate Has(x: nat) {
      start <= x < End()
    }
  }

  // ---- free lists as sequences ----

  ghost predicate InSome(blocks: seq<Block>, x: nat) {
    exists i :: 0 <= i < |blocks| && blocks[i].Has(x)
  }

  /** Non-empty blocks in address order with a gap between neighbours: nothing is left to coalesce. */
  ghost predicate Coalesced(blocks: seq<Block>) {
    && (forall i :: 0 <= i < |blocks| ==> blocks[i].size > 0)
    && (forall i, j :: 0 <= i < j < |blocks| ==> blocks[i].End() < blocks[j].start)
  }

  ghost predicate Aligned(blocks: seq<Block>) {
    forall b :: b in blocks ==> b.start % ALIGNMENT == 0
  }

  ghost predicate Apart(b: Block, c: Block) {
    b.End() <= c.start || c.End() <= b.start
  }

  /** A coalesced list is determined by the bytes in it. */
  lemma {:induction false} CoalescedIsCanonical(a: seq<Block>, b: seq<Block>)
    requires Coalesced(a) && Coalesced(b)
    requires forall x :: InSome(a, x) <==> InSome(b, x)
    ensures a == b
    decreases |a|
  {
    if a == [] {
      if b != [] {
        assert b[0].Has(b[0].start);
        assert InSome(b, b[0].start);
      }
    } else {
      assert a[0].Has(a[0].start) && InSome(a, a[0].start);
      assert b != [];
      assert b[0].Has(b[0].start) && InSome(b, b[0].start);
      FirstStart(a, b);
      FirstStart(b, a);
      FirstEnd(a, b);
      FirstEnd(b, a);
      forall x ensures InSome(a[1..], x) <==> InSome(b[1..], x) {
        WithoutFirst(a, x);
        WithoutFirst(b, x);
      }
      CoalescedIsCanonical(a[1..], b[1..]);
      assert a == [a[0]] + a[1..] && b == [b[0]] + b[1..];
    }
  }

  lemma {:induction false} FirstStart(a: seq<Block>, b: seq<Block>)
    requires Coalesced(a) && Coalesced(b) && a != [] && b != []
    requires InSome(b, a[0].start)
    ensures b[0].start <= a[0].start
  {
  }

  lemma {:induction false} FirstEnd(a: seq<Block>, b: seq<Block>)
    requires Coalesced(a) && Coalesced(b) && a != [] && b != [] && a[0].start == b[0].start
    requires forall x :: InSome(a, x) <==> InSome(b, x)
    ensures a[0].End() <= b[0].End()
  {
    if b[0].End() < a[0].End() {
      assert a[0].Has(b[0].End());
      assert InSome(a, b[0].End());
    }
  }

  lemma {:induction false} WithoutFirst(a: seq<Block>, x: nat)
    requires Coalesced(a) && a != []
    ensures InSome(a[1..], x) <==> InSome(a, x) && !a[0].Has(x)
  {
    if InSome(a, x) && !a[0].Has(x) {
      var i :| 0 <= i < |a| && a[i].Has(x);
      assert a[1..][i - 1].Has(x);
    }
    if InSome(a[1..], x) {
      var i :| 0 <= i < |a[1..]| && a[1..][i].Has(x);
      assert a[i + 1].Has(x);
    }
  }

  // ---- the free list ----

  class CoalescingFreeList {
    var blocks: seq<Block>

    constructor ()
      ensures blocks == []
    {
      blocks := [];
    }

    /** Takes out a smallest block that is large enough. */
    method GetBlock(size: nat) returns (r: Option<Block>)
      requires Coalesced(blocks)
      modifies this
      ensures Coalesced(blocks)
      ensures r.None? <==> forall i :: 0 <= i < |old(blocks)| ==> old(blocks)[i].size < size
      ensures r.None? ==> blocks == old(blocks)
      ensures r.Some? ==> r.value in old(blocks) && r.value.size >= size
      ensures r.Some? ==> forall c :: c in old(blocks) && c.size >= size ==> r.value.size <= c.size
      ensures r.Some? ==> forall x :: InSome(blocks, x) <==> InSome(old(blocks), x) && !r.value.Has(x)
      ensures r.Some? ==> forall c :: c in blocks ==> c in old(blocks) && Apart(c, r.value)
    {
      var best := |blocks|;
      for i := 0 to |blocks|
        invariant best == |blocks| ==> forall j :: 0 <= j < i ==> blocks[j].size < size
        invariant best != |blocks| ==> 0 <= best < i && blocks[best].size >= size
        invariant best != |blocks| ==>
          forall j :: 0 <= j < i && blocks[j].size >= size ==> blocks[best].size <= blocks[j].size
      {
        if blocks[i].size >= size && (best == |blocks| || blocks[i].size < blocks[best].size) {
          best := i;
        }
      }
      if best == |blocks| {
        return None;
      }
      r := Some(blocks[best]);
      ghost var before := blocks;
      blocks := blocks[..best] + blocks[best + 1..];
      forall x ensures InSome(blocks, x) <==> InSome(before, x) && !before[best].Has(x) {
        WithoutOne(before, best, x);
      }
    }

    /** Puts a block in, merged with the neighbours it touches. */
    method Insert(b: Block)
      requires Coalesced(blocks) && b.size > 0
      requires forall c :: c in blocks ==> Apart(b, c)
      modifies this
      ensures Coalesced(blocks)
      ensures forall x :: InSome(blocks, x) <==> InSome(old(blocks), x) || b.Has(x)
      ensures Aligned(old(blocks)) && b.start % ALIGNMENT == 0 ==> Aligned(blocks)
    {
      var i := 0;
      while i < |blocks| && blocks[i].start < b.start
        invariant 0 <= i <= |blocks|
        invariant forall j :: 0 <= j < i ==> blocks[j].start < b.start
      {
        i := i + 1;
      }
      ghost var before := blocks;
      NewBlockPlace(before, b, i);
      var merged := b;
      var lo, hi := i, i;
      if i > 0 && blocks[i - 1].End() == b.start {
        lo := i - 1;
        merged := Block(blocks[lo].start, blocks[lo].size + merged.size);
      }
      if i < |blocks| && b.End() == blocks[i].start {
        hi := i + 1;
        merged := Block(merged.start, merged.size + blocks[i].size);
      }
      blocks := blocks[..lo] + [merged] + blocks[hi..];
      MergedIsCoalesced(before, b, lo, i, hi, merged);
      forall x ensures InSome(blocks, x) <==> InSome(before, x) || b.Has(x) {
        MergedBytes(before, b, lo, i, hi, merged, x);
      }
    }
  }

  /** Everything before the insertion point ends before the new block, everything after starts behind it. */
  lemma {:induction false} NewBlockPlace(a: seq<Block>, b: Block, i: nat)
    requires Coalesced(a) && i <= |a| && b.size > 0
    requires forall c :: c in a ==> Apart(b, c)
    requires forall j :: 0 <= j < i ==> a[j].start < b.start
    requires i < |a| ==> b.start <= a[i].start
    ensures forall j :: 0 <= j < i ==> a[j].End() <= b.start
    ensures forall j :: i <= j < |a| ==> b.End() <= a[j].start
  {
    forall j | 0 <= j < |a|
      ensures j < i ==> a[j].End() <= b.start
      ensures j >= i ==> b.End() <= a[j].start
    {
      assert a[j] in a && Apart(b, a[j]);
      assert j > i ==> a[i].End() < a[j].start;
    }
  }

  lemma {:induction false} MergedIsCoalesced(a: seq<Block>, b: Block, lo: nat, i: nat, hi: nat, merged: Block)
    requires Coalesced(a) && b.size > 0 && lo <= i <= hi <= |a| && i - lo <= 1 && hi - i <= 1
    requires forall j :: 0 <= j < i ==> a[j].End() <= b.start
    requires forall j :: i <= j < |a| ==> b.End() <= a[j].start
    requires if lo < i then a[lo].End() == b.start else i > 0 ==> a[i - 1].End() != b.start
    requires if i < hi then b.End() == a[i].start else i < |a| ==> b.End() != a[i].start
    requires merged.start == (if lo < i then a[lo].start else b.start)
    requires merged.End() == (if i < hi then a[i].End() else b.End())
    ensures Coalesced(a[..lo] + [merged] + a[hi..])
  {
    assert forall j :: 0 <= j < lo ==> a[j].End() < merged.start;
    assert forall j :: hi <= j < |a| ==> merged.End() < a[j].start;
    var left, right := a[..lo], a[hi..];
    assert forall j :: 0 <= j < |right| ==> right[j] == a[hi + j];
    CoalescedAround(left, merged, right);
  }

  lemma {:induction false} CoalescedAround(left: seq<Block>, b: Block, right: seq<Block>)
    requires Coalesced(left) && Coalesced(right) && b.size > 0
    requires forall j :: 0 <= j < |left| ==> left[j].End() < b.start
    requires forall j :: 0 <= j < |right| ==> b.End() < right[j].start
    ensures Coalesced(left + [b] + right)
  {
    var c := left + [b] + right;
    var n := |left|;
    assert forall k :: 0 <= k < n ==> c[k] == left[k];
    assert forall k :: n < k < |c| ==> c[k] == right[k - n - 1];
  }

  lemma {:induction false} WithoutOne(a: seq<Block>, k: nat, x: nat)
    requires Coalesced(a) && k < |a|
    ensures InSome(a[..k] + a[k + 1..], x) <==> InSome(a, x) && !a[k].Has(x)
  {
    var b := a[..k] + a[k + 1..];
    if InSome(a, x) && !a[k].Has(x) {
      var i :| 0 <= i < |a| && a[i].Has(x);
      assert b[if i < k then i else i - 1].Has(x);
    }
    if InSome(b, x) {
      var i :| 0 <= i < |b| && b[i].Has(x);
      assert a[if i < k then i else i + 1].Has(x);
    }
  }

  /** Replacing the touched neighbours by the merged block adds exactly the new block's bytes. */
  lemma {:induction false} MergedBytes(a: seq<Block>, b: Block, lo: nat, i: nat, hi: nat, merged: Block, x: nat)
    requires lo <= i <= hi <= |a| && i - lo <= 1 && hi - i <= 1
    requires lo < i ==> a[lo].End() == b.start
    requires i < hi ==> b.End() == a[i].start
    requires merged.start == (if lo < i then a[lo].start else b.start)
    requires merged.End() == (if i < hi then a[i].End() else b.End())
    ensures InSome(a[..lo] + [merged] + a[hi..], x) <==> InSome(a, x) || b.Has(x)
  {
    var c := a[..lo] + [merged] + a[hi..];
    assert c[lo] == merged;
    assert merged.Has(x) <==> b.Has(x) || (lo < i && a[lo].Has(x)) || (i < hi && a[i].Has(x));
    if InSome(a, x) {
      var k :| 0 <= k < |a| && a[k].Has(x);
      assert c[if k < lo then k else if k < hi then lo else k - hi + lo + 1].Has(x);
    }
    if b.Has(x) {
      assert c[lo].Has(x);
    }
    if InSome(c, x) {
      var k :| 0 <= k < |c| && c[k].Has(x);
      if k < lo {
        assert a[k].Has(x);
      } else if k > lo {
        assert a[k - lo - 1 + hi].Has(x);
      }
    }
  }

  // ---- what the pool guarantees ----

  /** A live allocation: its address and the bytes asked for; it occupies the aligned size. */
  function Held(p: nat, bytes: nat): Block {
    Block(p, AlignUp(bytes))
  }

  ghost predicate InLive(live: map<nat, nat>, x: nat) {
    exists p :: p in live && Held(p, live[p]).Has(x)
  }

  /** Free blocks and live allocations tile the pool: inside it, aligned, disjoint, nothing missing. */
  ghost predicate Tiled(pool: Block, free: seq<Block>, live: map<nat, nat>) {
    && Coalesced(free) && Aligned(free)
    && (forall b :: b in free ==> pool.start <= b.start && b.End() <= pool.End())
    && (forall p :: p in live ==> 0 < live[p] <= AlignUp(live[p]) && p % ALIGNMENT == 0)
    && (forall p :: p in live ==> pool.start <= p && Held(p, live[p]).End() <= pool.End())
    && (forall p, q :: p in live && q in live && p != q ==> Apart(Held(p, live[p]), Held(q, live[q])))
    && (forall b, p :: b in free && p in live ==> Apart(b, Held(p, live[p])))
    && (forall x :: pool.Has(x) ==> InSome(free, x) || InLive(live, x))
  }

  /** No byte is both free and live, so the free bytes are what the live allocations leave. */
  lemma {:induction false} FreeIsTheRest(pool: Block, free: seq<Block>, live: map<nat, nat>, x: nat)
    requires Tiled(pool, free, live)
    ensures InSome(free, x) <==> pool.Has(x) && !InLive(live, x)
  {
    if InSome(free, x) {
      var i :| 0 <= i < |free| && free[i].Has(x);
      assert free[i] in free;
      forall p | p in live ensures !Held(p, live[p]).Has(x) {
        assert Apart(free[i], Held(p, live[p]));
      }
    }
  }

  /** The live half of `Tiled`. */
  ghost predicate LiveFits(pool: Block, live: map<nat, nat>) {
    && (forall p :: p in live ==> 0 < live[p] <= AlignUp(live[p]) && p % ALIGNMENT == 0)
    && (forall p :: p in live ==> pool.start <= p && Held(p, live[p]).End() <= pool.End())
    && (forall p, q :: p in live && q in live && p != q ==> Apart(Held(p, live[p]), Held(q, live[q])))
  }

  /** A coalesced list that holds exactly the bytes no allocation holds completes the tiling. */
  lemma {:induction false} TiledByBytes(pool: Block, free: seq<Block>, live: map<nat, nat>)
    requires Coalesced(free) && LiveFits(pool, live)
    requires Aligned(free)
    requires forall x :: InSome(free, x) <==> pool.Has(x) && !InLive(live, x)
    ensures Tiled(pool, free, live)
  {
    forall b | b in free
      ensures pool.start <= b.start && b.End() <= pool.End()
      ensures forall p :: p in live ==> Apart(b, Held(p, live[p]))
    {
      var i :| 0 <= i < |free| && free[i] == b;
      assert b.Has(b.start) && b.Has(b.End() - 1);
      assert InSome(free, b.start) && InSome(free, b.End() - 1);
      forall p | p in live ensures Apart(b, Held(p, live[p])) {
        var h := Held(p, live[p]);
        var x := if b.start < p then p else b.start;
        assert b.Has(x) ==> InSome(free, x);
        assert h.Has(x) ==> InLive(live, x);
      }
    }
  }

  lemma {:induction false} FirstInsert(pool: Block, free: seq<Block>)
    requires Coalesced(free) && Aligned(free)
    requires forall x :: InSome(free, x) <==> pool.Has(x)
    ensures Tiled(pool, free, map[])
  {
    TiledByBytes(pool, free, map[]);
  }

  /** No free block is larger than the pool. */
  lemma {:induction false} NoneFits(pool: Block, free: seq<Block>, live: map<nat, nat>, size: nat)
    requires Tiled(pool, free, live) && size > pool.size
    ensures forall b :: b in free ==> b.size < size
  {
  }

  /** The front of a free block, as an allocation, fits in with the live ones. */
  lemma {:induction false} CarvedFits(pool: Block, free: seq<Block>, live: map<nat, nat>, b: Block, bytes: nat)
    requires Tiled(pool, free, live) && b in free && 0 < bytes <= AlignUp(bytes) <= b.size
    ensures b.start !in live && LiveFits(pool, live[b.start := bytes])
  {
    hide Coalesced, InSome, InLive;
    forall p | p in live ensures p != b.start && Apart(Held(b.start, bytes), Held(p, live[p])) {
      assert Apart(b, Held(p, live[p]));
    }
  }

  /** Carving an allocation off the front of a free block. */
  lemma {:induction false} AllocationTiles(pool: Block, free: seq<Block>, live: map<nat, nat>, b: Block, bytes: nat,
                                           free': seq<Block>)
    requires Tiled(pool, free, live) && b in free
    requires 0 < bytes <= AlignUp(bytes) <= b.size && AlignUp(bytes) % ALIGNMENT == 0
    requires Coalesced(free')
    requires forall x :: InSome(free', x) <==> InSome(free, x) && !Held(b.start, bytes).Has(x)
    requires Aligned(free')
    ensures b.start !in live && Tiled(pool, free', live[b.start := bytes])
  {
    hide Tiled, Coalesced, Aligned, LiveFits, InSome, InLive;
    var live' := live[b.start := bytes];
    CarvedFits(pool, free, live, b, bytes);
    forall x ensures InSome(free', x) <==> pool.Has(x) && !InLive(live', x) {
      FreeIsTheRest(pool, free, live, x);
      LiveWith(live, b.start, bytes, x);
    }
    TiledByBytes(pool, free', live');
  }

  lemma {:induction false} LiveWith(live: map<nat, nat>, p: nat, bytes: nat, x: nat)
    requires p !in live
    ensures InLive(live[p := bytes], x) <==> InLive(live, x) || Held(p, bytes).Has(x)
  {
    var live' := live[p := bytes];
    assert live'[p] == bytes;
    if InLive(live, x) {
      var q :| q in live && Held(q, live[q]).Has(x);
      assert q in live' && live'[q] == live[q];
    }
  }

  /** Giving an allocation back. */
  lemma {:induction false} ReturnTiles(pool: Block, free: seq<Block>, live: map<nat, nat>, p: nat, free': seq<Block>)
    requires Tiled(pool, free, live) && p in live && Coalesced(free')
    requires forall x :: InSome(free', x) <==> InSome(free, x) || Held(p, live[p]).Has(x)
    requires Aligned(free')
    ensures Tiled(pool, free', live - {p})
  {
    var rest := live - {p};
    assert rest[p := live[p]] == live;
    forall x ensures InSome(free', x) <==> pool.Has(x) && !InLive(rest, x) {
      FreeIsTheRest(pool, free, live, x);
      LiveWith(rest, p, live[p], x);
      if Held(p, live[p]).Has(x) {
        forall q | q in rest ensures !Held(q, rest[q]).Has(x) {
          assert Apart(Held(p, live[p]), Held(q, live[q]));
        }
      }
    }
    TiledByBytes(pool, free', rest);
  }

  /** The free list depends on what is live and on nothing else: not on the order of calls. */
  lemma {:induction false} FreeListIsDetermined(pool: Block, free: seq<Block>, free': seq<Block>, live: map<nat, nat>)
    requires Tiled(pool, free, live) && Tiled(pool, free', live)
    ensures free == free'
  {
    forall x ensures InSome(free, x) <==> InSome(free', x) {
      FreeIsTheRest(pool, free, live, x);
      FreeIsTheRest(pool, free', live, x);
    }
    CoalescedIsCanonical(free, free');
  }

  /** Once everything is returned there is one free block again. */
  lemma {:induction false} AllReturned(pool: Block, free: seq<Block>)
    requires Tiled(pool, free, map[]) && pool.size > 0 && pool.start % ALIGNMENT == 0
    ensures free == [pool]
  {
    forall x | pool.Has(x) ensures InSome([pool], x) {
      assert [pool][0].Has(x);
    }
    assert Tiled(pool, [pool], map[]);
    FreeListIsDetermined(pool, free, [pool], map[]);
  }

  ghost predicate NoFit(free: seq<Block>, size: nat) {
    forall b :: b in free ==> b.size < size
  }

  ghost predicate BestFit(free: seq<Block>, size: nat, b: Block) {
    b in free && b.size >= size && forall c :: c in free && c.size >= size ==> b.size <= c.size
  }

  lemma {:induction false} NothingBig(free: seq<Block>, size: nat)
    requires forall i :: 0 <= i < |free| ==> free[i].size < size
    ensures NoFit(free, size)
  {
  }

  lemma {:induction false} WholeBlock(free: seq<Block>, b: Block, x: nat)
    requires b in free
    ensures b.Has(x) ==> InSome(free, x)
  {
    var i :| 0 <= i < |free| && free[i] == b;
  }

  lemma {:induction false} TiledList(pool: Block, free: seq<Block>, live: map<nat, nat>)
    requires Tiled(pool, free, live)
    ensures Coalesced(free) && Aligned(free)
  {
  }

  lemma {:induction false} StaysAligned(before: seq<Block>, rest: seq<Block>, b: Block)
    requires Aligned(before) && b in before && forall c :: c in rest ==> c in before
    ensures Aligned(rest) && b.start % ALIGNMENT == 0
  {
  }

  /** Taking a block out and putting its tail back removes just the front. */
  lemma {:induction false} CarvedBytes(before: seq<Block>, rest: seq<Block>, b: Block, bytes: nat, after: seq<Block>)
    requires b in before && AlignUp(bytes) <= b.size
    requires forall x: nat :: InSome(rest, x) <==> InSome(before, x) && !b.Has(x)
    requires forall x: nat :: InSome(after, x) <==> InSome(rest, x) || b.start + AlignUp(bytes) <= x < b.End()
    ensures forall x: nat :: InSome(after, x) <==> InSome(before, x) && !Held(b.start, bytes).Has(x)
  {
    hide InSome, AlignUp;
    forall x: nat ensures InSome(after, x) <==> InSome(before, x) && !Held(b.start, bytes).Has(x) {
      WholeBlock(before, b, x);
    }
  }

  // ---- any sequence of calls ----

  datatype Allocation = NullPointer | Pointer(address: nat) | Exhausted

  datatype PoolState = PoolState(free: seq<Block>, live: map<nat, nat>)

  datatype PoolCall = Allocate(bytes: nat, result: Allocation) | Deallocate(p: nat, bytes: nat)

  /** The free list after a call, by its bytes: those of `b` went or came. */
  ghost predicate Without(free: seq<Block>, b: Block, after: seq<Block>) {
    && Coalesced(after) && Aligned(after)
    && forall x :: InSome(after, x) <==> InSome(free, x) && !b.Has(x)
  }

  ghost predicate Including(free: seq<Block>, b: Block, after: seq<Block>) {
    && Coalesced(after) && Aligned(after)
    && forall x :: InSome(after, x) <==> InSome(free, x) || b.Has(x)
  }

  /** An allocation of that many bytes may have that result. */
  ghost predicate Answers(free: seq<Block>, bytes: nat, r: Allocation) {
    && (r.NullPointer? <==> bytes == 0)
    && (r.Exhausted? <==> bytes > 0 && (AlignUp(bytes) == 0 || NoFit(free, AlignUp(bytes))))
    && (r.Pointer? ==> exists b :: BestFit(free, AlignUp(bytes), b) && b.start == r.address)
  }

  /** What a call does: an allocation takes the front of a best fit, a matching free gives it back. */
  ghost predicate Does(s: PoolState, call: PoolCall, t: PoolState) {
    match call
    case Allocate(bytes, r) =>
      && bytes < SIZE_MODULUS && Answers(s.free, bytes, r)
      && if r.Pointer?
         then t.live == s.live[r.address := bytes] && Without(s.free, Held(r.address, bytes), t.free)
         else t == s
    case Deallocate(p, bytes) =>
      if bytes == 0 then t == s
      else
        && p in s.live && s.live[p] == bytes
        && t.live == s.live - {p} && Including(s.free, Held(p, bytes), t.free)
  }

  ghost function Start(pool: Block): PoolState {
    PoolState(if pool.size == 0 then [] else [pool], map[])
  }

  ghost predicate IsHistory(pool: Block, states: seq<PoolState>, calls: seq<PoolCall>) {
    && |states| == |calls| + 1 && states[0] == Start(pool)
    && forall i :: 0 <= i < |calls| ==> Does(states[i], calls[i], states[i + 1])
  }

  lemma {:induction false} StartTiles(pool: Block)
    requires pool.start % ALIGNMENT == 0
    ensures Tiled(pool, Start(pool).free, map[])
  {
    forall x | pool.Has(x) ensures InSome(Start(pool).free, x) {
      assert [pool][0].Has(x);
    }
  }

  lemma {:induction false} CallTiles(pool: Block, s: PoolState, call: PoolCall, t: PoolState)
    requires Tiled(pool, s.free, s.live) && Does(s, call, t)
    ensures Tiled(pool, t.free, t.live)
  {
    match call
    case Allocate(bytes, r) =>
      if r.Pointer? {
        AlignUpExact(bytes);
        hide Tiled, Coalesced, Aligned, InSome, AlignUp;
        var b :| BestFit(s.free, AlignUp(bytes), b) && b.start == r.address;
        AllocationTiles(pool, s.free, s.live, b, bytes, t.free);
      }
    case Deallocate(p, bytes) =>
      if bytes > 0 {
        hide Tiled, Coalesced, Aligned, InSome;
        ReturnTiles(pool, s.free, s.live, p, t.free);
      }
  }

  /** Through any sequence of allocations and matching frees the tiling holds. */
  lemma {:induction false} HistoryTiles(pool: Block, states: seq<PoolState>, calls: seq<PoolCall>, k: nat)
    requires IsHistory(pool, states, calls) && pool.start % ALIGNMENT == 0 && k < |states|
    ensures Tiled(pool, states[k].free, states[k].live)
  {
    hide Tiled, Does;
    if k == 0 {
      StartTiles(pool);
    } else {
      HistoryTiles(pool, states, calls, k - 1);
      CallTiles(pool, states[k - 1], calls[k - 1], states[k]);
    }
  }

  /**
   * Whatever two sequences of calls were: where the same allocations are live the free lists are
   * equal, and where nothing is live the pool is as it was made.
   */
  lemma {:induction false} FreeListIsCanonical(
    pool: Block, states: seq<PoolState>, calls: seq<PoolCall>, k: nat,
    states': seq<PoolState>, calls': seq<PoolCall>, m: nat)
    requires IsHistory(pool, states, calls) && k < |states| && IsHistory(pool, states', calls') && m < |states'|
    requires pool.start % ALIGNMENT == 0
    ensures states[k].live == states'[m].live ==> states[k] == states'[m]
    ensures states[k].live == map[] ==> states[k] == Start(pool)
  {
    HistoryTiles(pool, states, calls, k);
    HistoryTiles(pool, states', calls', m);
    StartTiles(pool);
    hide Tiled;
    if states[k].live == states'[m].live {
      FreeListIsDetermined(pool, states[k].free, states'[m].free, states[k].live);
    }
    if states[k].live == map[] {
      FreeListIsDetermined(pool, states[k].free, Start(pool).free, map[]);
    }
  }

  class PageablePoolResource {
    const pool: Block
    const freeList: CoalescingFreeList
    ghost var live: map<nat, nat>

    ghost function State(): PoolState
      reads this, freeList
    {
      PoolState(freeList.blocks, live)
    }

    ghost predicate Valid()
      reads this, freeList
    {
      && Tiled(pool, freeList.blocks, live)
      && pool.size < SIZE_MODULUS && pool.start % ALIGNMENT == 0
    }

    /** The upstream hands out page-aligned memory; an empty pool has no block to register. */
    constructor (base: nat, size: nat)
      requires base % ALIGNMENT == 0 && size < SIZE_MODULUS
      ensures Valid() && pool == Block(base, size) && State() == Start(pool) && fresh(freeList)
    {
      pool := Block(base, size);
      freeList := new CoalescingFreeList();
      live := map[];
      new;
      if size > 0 {
        freeList.Insert(Block(base, size));
      }
      forall x | pool.Has(x) ensures InSome(freeList.blocks, x) {
      }
      FirstInsert(pool, freeList.blocks);
      StartTiles(pool);
      FreeListIsDetermined(pool, freeList.blocks, Start(pool).free, map[]);
    }

    /** Exhausted exactly when no free block can hold the aligned size. */
    method AllocateSync(bytes: nat) returns (r: Allocation)
      requires Valid() && bytes < SIZE_MODULUS
      modifies this, freeList
      ensures Valid() && Does(old(State()), Allocate(bytes, r), State())
      ensures r.Pointer? ==> r.address !in old(live)
    {
      hide Tiled;
      if bytes == 0 {
        return NullPointer;
      }
      AlignUpExact(bytes);
      TiledList(pool, freeList.blocks, live);
      hide Tiled, Coalesced, Aligned, InSome, Held, AlignUp;
      var aligned := AlignUp(bytes);
      if bytes > pool.size || aligned == 0 || aligned > pool.size {
        if aligned != 0 {
          NoneFits(pool, freeList.blocks, live, aligned);
        }
        return Exhausted;
      }
      ghost var before := freeList.blocks;
      var blk := TakeFront(bytes, aligned);
      if blk.None? {
        return Exhausted;
      }
      var b := blk.value;
      live := live[b.start := bytes];
      AllocationTiles(pool, before, old(live), b, bytes, freeList.blocks);
      r := Pointer(b.start);
    }

    /** Finds a best fit and leaves all of it but the front in the free list. */
    method TakeFront(ghost bytes: nat, aligned: nat) returns (blk: Option<Block>)
      requires Coalesced(freeList.blocks) && Aligned(freeList.blocks)
      requires aligned == AlignUp(bytes) > 0 && aligned % ALIGNMENT == 0
      modifies freeList
      ensures blk.None? ==> NoFit(old(freeList.blocks), aligned) && freeList.blocks == old(freeList.blocks)
      ensures blk.Some? ==> BestFit(old(freeList.blocks), aligned, blk.value)
      ensures blk.Some? ==> Coalesced(freeList.blocks) && Aligned(freeList.blocks)
      ensures blk.Some? ==> forall x ::
        InSome(freeList.blocks, x) <==> InSome(old(freeList.blocks), x) && !Held(blk.value.start, bytes).Has(x)
    {
      hide Coalesced, Aligned, InSome, Held, AlignUp;
      ghost var before := freeList.blocks;
      blk := freeList.GetBlock(aligned);
      if blk.None? {
        NothingBig(before, aligned);
        return;
      }
      var b := blk.value;
      ghost var rest := freeList.blocks;
      StaysAligned(before, rest, b);
      if b.size > aligned {
        var tail := Block(b.start + aligned, b.size - aligned);
        assert forall c :: c in rest ==> Apart(c, b) && Apart(tail, c);
        freeList.Insert(tail);
      }
      CarvedBytes(before, rest, b, bytes, freeList.blocks);
    }

    /** Returns an allocation made with the same size. */
    method DeallocateSync(p: nat, bytes: nat)
      requires Valid() && (bytes > 0 ==> p in live && live[p] == bytes)
      modifies this, freeList
      ensures Valid() && Does(old(State()), Deallocate(p, bytes), State())
    {
      if bytes == 0 {
        return;
      }
      ghost var before := freeList.blocks;
      freeList.Insert(Block(p, AlignUp(bytes)));
      live := live - {p};
      ReturnTiles(pool, before, old(live), p, freeList.blocks);
    }
  }
}
