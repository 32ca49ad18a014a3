/** MemoryPoolAllocator of allocators.h as a state machine over its calls, and what every run of calls keeps. */
module PoolSpec {
  import opened ByteStreams
  import opened Wrappers

  /** sizeof(ChunkHeader) on a 64-bit machine; RAPIDJSON_ALIGN leaves it as it is. */
  const HEADER := 24

  /** RAPIDJSON_ALIGN on a 64-bit machine. */
  function Align(n: nat): (a: nat)
    ensures n <= a < n + 8 && a % 8 == 0
  {
    (n + 7) / 8 * 8
  }

  /** A chunk: the address of its header, and the bytes behind the header it has and has given out. */
  datatype Chunk = Chunk(base: nat, capacity: nat, size: nat) {
    /** The first address not given out yet. */
    function Free(): (a: nat) {
      base + HEADER + size
    }

    function End(): (a: nat) {
      base + HEADER + capacity
    }
  }

  /**
   * The chunks, the head of the list first, and the blocks callers still hold: the address of each with the size it
   * was last asked for.
   */
  datatype Pool = Pool(chunks: seq<Chunk>, chunkCapacity: nat, userBuffer: Option<nat>, live: map<nat, nat>)

  type Memory = nat -> Byte

  // ---- calls ------------------------------------------------------------------------------------------------------

  /** The capacity of the chunk Malloc asks the base allocator for. */
  function NewCapacity(p: Pool, size: nat): (c: nat) {
    if p.chunkCapacity > Align(size) then p.chunkCapacity else Align(size)
  }

  /** The head chunk has no room for size bytes, which are aligned already. */
  predicate Full(p: Pool, size: nat) {
    p.chunks == [] || p.chunks[0].size + size > p.chunks[0].capacity
  }

  /** The pool with the chunk added that the base allocator answered with, if one was needed. */
  function Roomy(p: Pool, size: nat, answer: Option<nat>): (r: Option<Pool>)
    ensures r.Some? ==> r.value.chunks != []
  {
    if !Full(p, Align(size)) then Some(p)
    else if answer == None then None
    else Some(p.(chunks := [Chunk(answer.value, NewCapacity(p, size), 0)] + p.chunks))
  }

  /** The head chunk with grown bytes more given out, to the block at a. */
  function HeadGrown(p: Pool, a: nat, size: nat, grown: nat): (q: Pool)
    requires p.chunks != []
  {
    var head := p.chunks[0];
    p.(chunks := [head.(size := head.size + grown)] + p.chunks[1..], live := p.live[a := size])
  }

  /** Malloc(size), given what the base allocator answers should it be asked; None stands for a null pointer. */
  function Malloc(p: Pool, size: nat, answer: Option<nat>): (r: (Pool, Option<nat>))
    ensures r.1 == None ==> r.0 == p
  {
    if size == 0 || Roomy(p, size, answer) == None then (p, None)
    else
      var q := Roomy(p, size, answer).value;
      (HeadGrown(q, q.chunks[0].Free(), size, Align(size)), Some(q.chunks[0].Free()))
  }

  /** The block is the last one of the head chunk, and the chunk has room for n instead of o bytes in it. */
  predicate Expands(p: Pool, ptr: nat, o: nat, n: nat) {
    p.chunks != [] && ptr + o == p.chunks[0].Free() && p.chunks[0].size + (n - o) <= p.chunks[0].capacity
  }

  /** Realloc on a block: the pool, the address, and whether the bytes have been copied there. */
  function Realloc(p: Pool, ptr: nat, originalSize: nat, newSize: nat, answer: Option<nat>)
    : (r: (Pool, Option<nat>, bool))
  {
    var o, n := Align(originalSize), Align(newSize);
    if newSize == 0 then (p.(live := p.live - {ptr}), None, false)
    else if o >= n then (p.(live := p.live[ptr := newSize]), Some(ptr), false)
    else if Expands(p, ptr, o, n) then
      (HeadGrown(p, ptr, newSize, n - o), Some(ptr), false)
    else
      var (q, new_) := Malloc(p, newSize, answer);
      if new_ == None then (p, None, false) else (q.(live := q.live - {ptr}), new_, true)
  }

  /** The loop of Clear. */
  function Cleared(chunks: seq<Chunk>, userBuffer: Option<nat>): (r: seq<Chunk>) {
    if chunks == [] then []
    else if userBuffer == Some(chunks[0].base) then [chunks[0].(size := 0)] + chunks[1..]
    else Cleared(chunks[1..], userBuffer)
  }

  function Clear(p: Pool): (r: Pool) {
    p.(chunks := Cleared(p.chunks, p.userBuffer), live := map[])
  }

  datatype Call =
    | MallocCall(size: nat, answer: Option<nat>)
    | ReallocCall(ptr: nat, originalSize: nat, newSize: nat, answer: Option<nat>)
    | ClearCall

  function Step(p: Pool, c: Call): (r: Pool) {
    match c
    case MallocCall(size, answer) => Malloc(p, size, answer).0
    case ReallocCall(ptr, originalSize, newSize, answer) => Realloc(p, ptr, originalSize, newSize, answer).0
    case ClearCall => Clear(p)
  }

  function Run(p: Pool, calls: seq<Call>): (r: Pool)
    decreases calls
  {
    if calls == [] then p else Run(Step(p, calls[0]), calls[1..])
  }

  // ---- what callers and the base allocator owe --------------------------------------------------------------------

  /** The base allocator answers with aligned memory of the size asked for that overlaps no chunk. */
  predicate Honest(p: Pool, size: nat, answer: Option<nat>) {
    answer.Some? ==>
      answer.value > 0 && answer.value % 8 == 0
      && forall i :: 0 <= i < |p.chunks| ==> Apart(Chunk(answer.value, NewCapacity(p, size), 0), p.chunks[i])
  }

  /** A block is reallocated only while held, and with the size it was asked for. */
  predicate Fair(p: Pool, c: Call) {
    match c
    case MallocCall(size, answer) => Honest(p, size, answer)
    case ReallocCall(ptr, originalSize, newSize, answer) =>
      ptr in p.live && p.live[ptr] == originalSize && Honest(p, newSize, answer)
    case ClearCall => true
  }

  predicate FairRun(p: Pool, calls: seq<Call>)
    decreases calls
  {
    calls == [] || (Fair(p, calls[0]) && FairRun(Step(p, calls[0]), calls[1..]))
  }

  // ---- safety -----------------------------------------------------------------------------------------------------

  predicate Apart(a: Chunk, b: Chunk) {
    a.End() <= b.base || b.End() <= a.base
  }

  predicate Sound(c: Chunk) {
    c.base > 0 && c.size % 8 == 0 && c.size <= c.capacity
  }

  /** The block lies in the part of the chunk that has been given out, a multiple of the alignment behind its header. */
  predicate Inside(c: Chunk, address: nat, size: nat) {
    c.base + HEADER <= address && address + Align(size) <= c.Free() && (address - c.base) % 8 == 0
  }

  predicate ChunksSafe(chunks: seq<Chunk>) {
    && (forall i :: 0 <= i < |chunks| ==> Sound(chunks[i]))
    && (forall i, k :: 0 <= i < k < |chunks| ==> Apart(chunks[i], chunks[k]))
  }

  /** The user's buffer, if there is one, is the last chunk of the list. */
  predicate UserLast(p: Pool) {
    p.userBuffer.Some? ==> p.chunks != [] && p.chunks[|p.chunks| - 1].base == p.userBuffer.value
  }

  /** Chunks from the base allocator are aligned; nothing asks that of the user's buffer. */
  predicate ChunksAligned(p: Pool) {
    forall i :: 0 <= i < |p.chunks| ==> p.chunks[i].base % 8 == 0 || p.userBuffer == Some(p.chunks[i].base)
  }

  predicate BlockSafe(p: Pool, a: nat)
    requires a in p.live
  {
    p.live[a] > 0 && exists i :: 0 <= i < |p.chunks| && Inside(p.chunks[i], a, p.live[a])
  }

  predicate BlocksApart(live: map<nat, nat>, a: nat, b: nat)
    requires a in live && b in live
  {
    a + Align(live[a]) <= b || b + Align(live[b]) <= a
  }

  /**
   * Every live block is inside the used part of one chunk and aligned with it, no two live blocks overlap, no chunk has
   * given out more than it has, and the chunks are apart.
   */
  predicate Safe(p: Pool) {
    && ChunksSafe(p.chunks) && UserLast(p) && ChunksAligned(p)
    && (forall a <- p.live :: BlockSafe(p, a))
    && (forall a <- p.live, b <- p.live :: a != b ==> BlocksApart(p.live, a, b))
  }

  /** A live block, with the chunk it is in. */
  lemma ChunkOf(p: Pool, a: nat) returns (i: nat)
    requires Safe(p) && a in p.live
    ensures i < |p.chunks| && Inside(p.chunks[i], a, p.live[a]) && p.live[a] > 0
  {
    assert BlockSafe(p, a);
    i :| 0 <= i < |p.chunks| && Inside(p.chunks[i], a, p.live[a]);
  }

  /** A block is aligned exactly when its chunk is; so all are, unless the user's buffer is not and holds blocks. */
  lemma AlignedIff(p: Pool, a: nat) returns (i: nat)
    requires Safe(p) && a in p.live
    ensures i < |p.chunks| && Inside(p.chunks[i], a, p.live[a])
    ensures a % 8 == 0 <==> p.chunks[i].base % 8 == 0
    ensures a % 8 == 0 || (p.userBuffer == Some(p.chunks[i].base) && p.userBuffer.value % 8 != 0)
  {
    hide Safe, Align;
    i := ChunkOf(p, a);
    ChunkAligned(p, i);
    SameRemainder(a, p.chunks[i].base);
  }

  lemma ChunkAligned(p: Pool, i: nat)
    requires Safe(p) && i < |p.chunks|
    ensures p.chunks[i].base % 8 == 0 || p.userBuffer == Some(p.chunks[i].base)
  {
    hide BlockSafe, BlocksApart, ChunksSafe, UserLast;
  }

  lemma SameRemainder(a: nat, b: nat)
    requires b <= a && (a - b) % 8 == 0
    ensures a % 8 == 0 <==> b % 8 == 0
  {
  }

  /** A live block that ends where the head chunk does is in the head chunk. */
  lemma LastIsInHead(p: Pool, a: nat)
    requires Safe(p) && p.chunks != [] && a in p.live && a + Align(p.live[a]) == p.chunks[0].Free()
    ensures Inside(p.chunks[0], a, p.live[a])
  {
    var i := ChunkOf(p, a);
    TwoChunks(p, i);
  }

  lemma TwoChunks(p: Pool, i: nat)
    requires Safe(p) && i < |p.chunks|
    ensures Sound(p.chunks[0]) && Sound(p.chunks[i]) && (i > 0 ==> Apart(p.chunks[0], p.chunks[i]))
  {
  }

  /** a is where the head chunk goes on, or its last block, and is to be size bytes long. */
  predicate AtTheEnd(p: Pool, a: nat, size: nat, grown: nat)
    requires p.chunks != []
  {
    var head := p.chunks[0];
    && head.size + grown <= head.capacity && grown % 8 == 0 && size > 0
    && (a == head.Free() || (a in p.live && a + Align(p.live[a]) == head.Free()))
    && a + Align(size) == head.Free() + grown
  }

  /** No other live block reaches into what the head chunk is about to give out. */
  lemma OthersAreElsewhere(p: Pool, a: nat, size: nat, grown: nat, b: nat)
    requires Safe(p) && p.chunks != [] && AtTheEnd(p, a, size, grown) && b in p.live && b != a
    ensures b + Align(p.live[b]) <= a || a + Align(size) <= b
  {
    var head := p.chunks[0];
    var i := ChunkOf(p, b);
    assert Sound(head);
    if a in p.live {
      LastIsInHead(p, a);
      assert BlocksApart(p.live, a, b);
    }
    if i > 0 {
      assert Sound(p.chunks[i]) && Apart(head, p.chunks[i]);
    }
  }

  /** The head chunk gives out more, to a block that starts where it ended or is its last one. */
  lemma HeadGrows(p: Pool, a: nat, size: nat, grown: nat)
    requires Safe(p) && p.chunks != [] && AtTheEnd(p, a, size, grown)
    ensures Safe(HeadGrown(p, a, size, grown))
  {
    ChunksGrow(p, a, size, grown);
    forall b | b in HeadGrown(p, a, size, grown).live
      ensures BlockSafe(HeadGrown(p, a, size, grown), b)
    {
      BlockStays(p, a, size, grown, b);
    }
    hide Align, ChunksSafe, ChunksAligned, UserLast, BlockSafe, BlocksApart, AtTheEnd, HeadGrown;
    forall b, c | b in HeadGrown(p, a, size, grown).live && c in HeadGrown(p, a, size, grown).live && b != c
      ensures BlocksApart(HeadGrown(p, a, size, grown).live, b, c)
    {
      StillApart(p, a, size, grown, b, c);
    }
  }

  lemma ChunksGrow(p: Pool, a: nat, size: nat, grown: nat)
    requires Safe(p) && p.chunks != [] && AtTheEnd(p, a, size, grown)
    ensures var q := HeadGrown(p, a, size, grown);
            ChunksSafe(q.chunks) && UserLast(q) && ChunksAligned(q)
  {
    hide Align, BlockSafe, BlocksApart;
    var q := HeadGrown(p, a, size, grown);
    assert forall i :: 0 < i < |q.chunks| ==> q.chunks[i] == p.chunks[i];
    assert Sound(p.chunks[0]);
    forall i, k | 0 <= i < k < |q.chunks|
      ensures Apart(q.chunks[i], q.chunks[k])
    {
      assert Apart(p.chunks[i], p.chunks[k]);
    }
  }

  lemma StillApart(p: Pool, a: nat, size: nat, grown: nat, b: nat, c: nat)
    requires Safe(p) && p.chunks != [] && AtTheEnd(p, a, size, grown) && b != c
    requires b in HeadGrown(p, a, size, grown).live && c in HeadGrown(p, a, size, grown).live
    ensures BlocksApart(HeadGrown(p, a, size, grown).live, b, c)
  {
    hide Align, BlockSafe, AtTheEnd, ChunksSafe, ChunksAligned, UserLast;
    if b == a {
      OthersAreElsewhere(p, a, size, grown, c);
    } else if c == a {
      OthersAreElsewhere(p, a, size, grown, b);
    } else {
      assert BlocksApart(p.live, b, c);
    }
  }

  lemma BlockStays(p: Pool, a: nat, size: nat, grown: nat, b: nat)
    requires Safe(p) && p.chunks != [] && AtTheEnd(p, a, size, grown)
    requires b in HeadGrown(p, a, size, grown).live
    ensures BlockSafe(HeadGrown(p, a, size, grown), b)
  {
    var q := HeadGrown(p, a, size, grown);
    if b == a {
      AtTheEndInside(p, a, size, grown);
      assert Inside(q.chunks[0], a, size);
    } else {
      hide Safe, Align, AtTheEnd;
      var i := ChunkOf(p, b);
      assert Inside(q.chunks[i], b, q.live[b]);
    }
  }

  lemma AtTheEndInside(p: Pool, a: nat, size: nat, grown: nat)
    requires Safe(p) && p.chunks != [] && AtTheEnd(p, a, size, grown)
    ensures size > 0 && Inside(HeadGrown(p, a, size, grown).chunks[0], a, size)
  {
    assert Sound(p.chunks[0]);
    hide BlocksApart, UserLast, ChunksAligned;
    if a in p.live && a != p.chunks[0].Free() {
      LastIsInHead(p, a);
    }
    hide Align, Safe;
  }

  /** A new empty chunk at the head. */
  lemma ChunkAdded(p: Pool, size: nat, answer: nat)
    requires Safe(p) && Honest(p, size, Some(answer))
    ensures Safe(p.(chunks := [Chunk(answer, NewCapacity(p, size), 0)] + p.chunks))
  {
    hide Align, Inside, Sound;
    var q := p.(chunks := [Chunk(answer, NewCapacity(p, size), 0)] + p.chunks);
    ChunksAdded(p, size, answer);
    forall b | b in q.live
      ensures BlockSafe(q, b)
    {
      var i := ChunkOf(p, b);
      assert Inside(q.chunks[i + 1], b, q.live[b]);
    }
    hide ChunksSafe, ChunksAligned, UserLast, BlockSafe;
    forall b, c | b in q.live && c in q.live && b != c
      ensures BlocksApart(q.live, b, c)
    {
      assert BlocksApart(p.live, b, c);
    }
  }

  lemma ChunksAdded(p: Pool, size: nat, answer: nat)
    requires Safe(p) && Honest(p, size, Some(answer))
    ensures var q := p.(chunks := [Chunk(answer, NewCapacity(p, size), 0)] + p.chunks);
            ChunksSafe(q.chunks) && UserLast(q) && ChunksAligned(q)
  {
    hide BlockSafe, BlocksApart, Align, Apart;
    var q := p.(chunks := [Chunk(answer, NewCapacity(p, size), 0)] + p.chunks);
    assert forall i :: 0 < i < |q.chunks| ==> q.chunks[i] == p.chunks[i - 1];
  }

  lemma RoomySafe(p: Pool, size: nat, answer: Option<nat>)
    requires Safe(p) && Honest(p, size, answer) && Roomy(p, size, answer).Some?
    ensures var q := Roomy(p, size, answer).value;
            Safe(q) && q.live == p.live && q.chunks[0].size + Align(size) <= q.chunks[0].capacity
  {
    hide Safe, Honest;
    if Full(p, Align(size)) {
      ChunkAdded(p, size, answer.value);
    }
  }

  lemma MallocSafe(p: Pool, size: nat, answer: Option<nat>)
    requires Safe(p) && Honest(p, size, answer)
    ensures Safe(Malloc(p, size, answer).0)
    ensures Malloc(p, size, answer).1.Some? ==> Malloc(p, size, answer).1.value !in p.live
  {
    hide Safe, Honest, Roomy, HeadGrown;
    if size > 0 && Roomy(p, size, answer).Some? {
      var q := Roomy(p, size, answer).value;
      RoomySafe(p, size, answer);
      HeadGrows(q, q.chunks[0].Free(), size, Align(size));
      FreeIsNotLive(q);
    }
  }

  lemma FreeIsNotLive(p: Pool)
    requires Safe(p) && p.chunks != []
    ensures p.chunks[0].Free() !in p.live
  {
    var a := p.chunks[0].Free();
    if a in p.live {
      var i := ChunkOf(p, a);
      TwoChunks(p, i);
    }
  }

  /** Blocks may be given up, or kept smaller than they are. */
  lemma FewerSafe(p: Pool, live: map<nat, nat>)
    requires Safe(p)
    requires forall a <- live ::
               a in p.live && (live[a] == p.live[a] || (0 < live[a] && Align(live[a]) <= Align(p.live[a])))
    ensures Safe(p.(live := live))
  {
    hide Align;
    var q := p.(live := live);
    forall a | a in live
      ensures BlockSafe(q, a)
    {
      var i := ChunkOf(p, a);
      assert Inside(q.chunks[i], a, live[a]);
    }
    forall b, c | b in live && c in live && b != c
      ensures BlocksApart(live, b, c)
    {
      assert BlocksApart(p.live, b, c);
    }
  }

  lemma ReallocSafe(p: Pool, ptr: nat, newSize: nat, answer: Option<nat>)
    requires Safe(p) && ptr in p.live && Honest(p, newSize, answer)
    ensures Safe(Realloc(p, ptr, p.live[ptr], newSize, answer).0)
  {
    hide Safe, Honest, Malloc, HeadGrown;
    var o, n := Align(p.live[ptr]), Align(newSize);
    if newSize == 0 {
      FewerSafe(p, p.live - {ptr});
    } else if o >= n {
      FewerSafe(p, p.live[ptr := newSize]);
    } else if Expands(p, ptr, o, n) {
      HeadGrows(p, ptr, newSize, n - o);
    } else {
      MallocSafe(p, newSize, answer);
      var (q, new_) := Malloc(p, newSize, answer);
      if new_.Some? {
        FewerSafe(q, q.live - {ptr});
      }
    }
  }

  lemma BasesDiffer(chunks: seq<Chunk>, i: nat)
    requires ChunksSafe(chunks) && 0 < i < |chunks|
    ensures chunks[0].base != chunks[i].base
  {
    assert Sound(chunks[0]) && Sound(chunks[i]) && Apart(chunks[0], chunks[i]);
  }

  /** Clear gives back every chunk but the user's buffer, which it leaves empty. */
  lemma {:induction false} ClearedIs(chunks: seq<Chunk>, userBuffer: Option<nat>)
    requires ChunksSafe(chunks)
    requires userBuffer.Some? ==> chunks != [] && chunks[|chunks| - 1].base == userBuffer.value
    ensures Cleared(chunks, userBuffer)
         == if userBuffer == None then [] else [chunks[|chunks| - 1].(size := 0)]
  {
    if |chunks| > 1 {
      BasesDiffer(chunks, |chunks| - 1);
      assert forall i :: 0 <= i < |chunks| - 1 ==> chunks[1..][i] == chunks[i + 1];
      ClearedIs(chunks[1..], userBuffer);
    }
  }

  lemma StepSafe(p: Pool, c: Call)
    requires Safe(p) && Fair(p, c)
    ensures Safe(Step(p, c))
  {
    match c
    case MallocCall(size, answer) => MallocSafe(p, size, answer);
    case ReallocCall(ptr, originalSize, newSize, answer) => ReallocSafe(p, ptr, newSize, answer);
    case ClearCall =>
      ClearedIs(p.chunks, p.userBuffer);
      if p.userBuffer.Some? {
        assert Sound(p.chunks[|p.chunks| - 1]);
      }
  }

  lemma SameUserBuffer(p: Pool, c: Call)
    ensures Step(p, c).userBuffer == p.userBuffer
  {
  }

  lemma SafeTotals(p: Pool)
    requires Safe(p)
    ensures Size(p.chunks) <= Capacity(p.chunks)
  {
    SizeWithinCapacity(p.chunks);
  }

  /** Any run of calls keeps the pool safe, as long as callers and the base allocator keep to their part. */
  lemma {:induction false} RunSafe(p: Pool, calls: seq<Call>)
    requires Safe(p) && FairRun(p, calls)
    ensures Safe(Run(p, calls)) && Size(Run(p, calls).chunks) <= Capacity(Run(p, calls).chunks)
    ensures p.userBuffer == None || p.userBuffer.value % 8 == 0 ==> forall a <- Run(p, calls).live :: a % 8 == 0
    decreases calls
  {
    hide Step, Fair, BlockSafe, BlocksApart, Safe;
    if calls == [] {
      SafeTotals(p);
      forall a <- p.live
        ensures a % 8 == 0 || (p.userBuffer.Some? && p.userBuffer.value % 8 != 0)
      {
        var _ := AlignedIff(p, a);
      }
    } else {
      StepSafe(p, calls[0]);
      SameUserBuffer(p, calls[0]);
      RunSafe(Step(p, calls[0]), calls[1..]);
    }
  }

  // ---- contents ---------------------------------------------------------------------------------------------------

  /** memcpy. */
  function Copied(m: Memory, from: nat, to: nat, n: nat): (r: Memory) {
    (a: nat) => if to <= a < to + n then m(from + (a - to)) else m(a)
  }

  /** Memory after Realloc. */
  function ReallocMemory(p: Pool, ptr: nat, newSize: nat, answer: Option<nat>, m: Memory): (r: Memory)
    requires ptr in p.live
  {
    var (q, place, copied) := Realloc(p, ptr, p.live[ptr], newSize, answer);
    if copied && place.Some? then Copied(m, ptr, place.value, Align(p.live[ptr])) else m
  }

  function Bytes(m: Memory, a: nat, n: nat): (s: seq<Byte>)
    ensures |s| == n
  {
    seq(n, (k: nat) => m(a + k))
  }

  function Min(a: nat, b: nat): (c: nat) {
    if a < b then a else b
  }

  /** Realloc keeps the bytes the old and the new size share, and touches no byte of another live block. */
  lemma ReallocKeepsBytes(p: Pool, ptr: nat, newSize: nat, answer: Option<nat>, m: Memory)
    requires Safe(p) && ptr in p.live && Honest(p, newSize, answer)
    ensures var r := Realloc(p, ptr, p.live[ptr], newSize, answer);
            var m' := ReallocMemory(p, ptr, newSize, answer, m);
            && (r.1.Some? ==>
                  var kept := Min(p.live[ptr], newSize);
                  Bytes(m', r.1.value, kept) == Bytes(m, ptr, kept))
            && (forall b <- r.0.live :: Some(b) != r.1 ==> Bytes(m', b, r.0.live[b]) == Bytes(m, b, r.0.live[b]))
  {
    hide Safe, Honest, Bytes;
    if Moves(p, ptr, newSize) {
      MallocSafe(p, newSize, answer);
      MallocIs(p, newSize, answer);
      var (q, place) := Malloc(p, newSize, answer);
      if place.Some? {
        CopyKeepsOthers(q, ptr, place.value, m);
      }
    }
  }

  /** Realloc has to find another place for the block. */
  predicate Moves(p: Pool, ptr: nat, newSize: nat)
    requires ptr in p.live
  {
    var o, n := Align(p.live[ptr]), Align(newSize);
    newSize > 0 && o < n && !Expands(p, ptr, o, n)
  }

  lemma MallocIs(p: Pool, size: nat, answer: Option<nat>)
    ensures var (q, place) := Malloc(p, size, answer);
            place.Some? ==> q.live == p.live[place.value := size]
  {
  }

  /** A copy between two live blocks: it arrives, does not overlap, and leaves the other blocks as they were. */
  lemma CopyKeepsOthers(q: Pool, from: nat, to: nat, m: Memory)
    requires Safe(q) && from in q.live && to in q.live && from != to && Align(q.live[from]) <= Align(q.live[to])
    ensures var n := Align(q.live[from]);
            && (from + n <= to || to + n <= from)
            && Bytes(Copied(m, from, to, n), to, Min(q.live[from], q.live[to]))
               == Bytes(m, from, Min(q.live[from], q.live[to]))
            && forall b <- q.live :: b != to ==> Bytes(Copied(m, from, to, n), b, q.live[b]) == Bytes(m, b, q.live[b])
  {
    hide BlockSafe, ChunksSafe, ChunksAligned, UserLast, Bytes, Copied;
    assert BlocksApart(q.live, from, to);
    var n := Align(q.live[from]);
    CopyArrives(m, from, to, n, Min(q.live[from], q.live[to]));
    forall b <- q.live | b != to
      ensures Bytes(Copied(m, from, to, n), b, q.live[b]) == Bytes(m, b, q.live[b])
    {
      assert BlocksApart(q.live, b, to);
      CopyPasses(m, from, to, n, b, q.live[b]);
    }
  }

  lemma CopyArrives(m: Memory, from: nat, to: nat, n: nat, k: nat)
    requires k <= n
    ensures Bytes(Copied(m, from, to, n), to, k) == Bytes(m, from, k)
  {
  }

  lemma CopyPasses(m: Memory, from: nat, to: nat, n: nat, b: nat, k: nat)
    requires b + k <= to || to + n <= b
    ensures Bytes(Copied(m, from, to, n), b, k) == Bytes(m, b, k)
  {
  }

  // ---- totals -----------------------------------------------------------------------------------------------------

  function Capacity(chunks: seq<Chunk>): (n: nat) {
    if chunks == [] then 0 else chunks[0].capacity + Capacity(chunks[1..])
  }

  function Size(chunks: seq<Chunk>): (n: nat) {
    if chunks == [] then 0 else chunks[0].size + Size(chunks[1..])
  }

  lemma {:induction false} SizeWithinCapacity(chunks: seq<Chunk>)
    requires forall i :: 0 <= i < |chunks| ==> Sound(chunks[i])
    ensures Size(chunks) <= Capacity(chunks)
  {
    if chunks != [] {
      assert Sound(chunks[0]);
      SizeWithinCapacity(chunks[1..]);
    }
  }

  /**
   * Where Malloc puts a block: behind what the head chunk has given out if it has room there, whatever the base
   * allocator would say, and else at the start of one chunk more, as large as the pool's chunks or the block. A header
   * is three words. Null comes for size 0, and when there is neither room nor an answer, and then changes nothing.
   */
  lemma MallocPlaces(p: Pool, size: nat, answer: Option<nat>)
    ensures var (q, a) := Malloc(p, size, answer);
            var n := Align(size);
            if size == 0 then
              a == None && q == p
            else if p.chunks != [] && p.chunks[0].size + n <= p.chunks[0].capacity then
              var head := p.chunks[0];
              && a == Some(head.base + 24 + head.size)
              && q.chunks == [Chunk(head.base, head.capacity, head.size + n)] + p.chunks[1..]
            else if answer == None then
              a == None && q == p
            else
              && a == Some(answer.value + 24)
              && |q.chunks| == |p.chunks| + 1 && q.chunks[1..] == p.chunks
              && q.chunks[0].base == answer.value && q.chunks[0].size == n
              && q.chunks[0].capacity == Max(p.chunkCapacity, n)
    ensures var (q, a) := Malloc(p, size, answer);
            && (a.Some? ==> Size(q.chunks) == Size(p.chunks) + Align(size) && q.live == p.live[a.value := size])
            && (|q.chunks| == |p.chunks| ==> Capacity(q.chunks) == Capacity(p.chunks))
            && q.chunkCapacity == p.chunkCapacity && q.userBuffer == p.userBuffer
  {
  }

  /** Realloc keeps a live block where it is exactly when it need not grow or can grow in the head chunk. */
  lemma ReallocStaysIff(p: Pool, ptr: nat, newSize: nat, answer: Option<nat>)
    requires Safe(p) && ptr in p.live && Honest(p, newSize, answer)
    ensures var o, n := Align(p.live[ptr]), Align(newSize);
            Realloc(p, ptr, p.live[ptr], newSize, answer).1 == Some(ptr)
            <==> newSize > 0
                 && (n <= o || (&& p.chunks != [] && ptr + o == p.chunks[0].base + 24 + p.chunks[0].size
                                && p.chunks[0].size + (n - o) <= p.chunks[0].capacity))
  {
    hide Safe, Honest, Roomy, HeadGrown, Align;
    MallocSafe(p, newSize, answer);
    hide Malloc;
  }

  /**
   * What Realloc takes from the pool: nothing for a block that need not grow, the difference for one that grows where
   * it is, and all of a new block for one that moves, which is where and when Malloc would put it.
   */
  lemma ReallocTakes(p: Pool, ptr: nat, newSize: nat, answer: Option<nat>)
    requires Safe(p) && ptr in p.live && Honest(p, newSize, answer)
    ensures var (q, a, copied) := Realloc(p, ptr, p.live[ptr], newSize, answer);
            var o, n := Align(p.live[ptr]), Align(newSize);
            && (newSize == 0 || n <= o ==> q.chunks == p.chunks)
            && (newSize > 0 && a == Some(ptr) ==>
                  && q.live == p.live[ptr := newSize] && !copied
                  && Capacity(q.chunks) == Capacity(p.chunks) && |q.chunks| == |p.chunks|
                  && Size(q.chunks) == Size(p.chunks) + Max(n, o) - o)
            && (newSize > 0 && a != Some(ptr) ==>
                  && a == Malloc(p, newSize, answer).1 && q.chunks == Malloc(p, newSize, answer).0.chunks
                  && (a == None ==> q == p && !copied)
                  && (a.Some? ==> q.live == p.live[a.value := newSize] - {ptr} && copied))
            && (newSize == 0 ==> a == None && q.live == p.live - {ptr} && !copied)
  {
    hide Safe, Honest, Roomy, Align;
    MallocSafe(p, newSize, answer);
    MallocPlaces(p, newSize, answer);
    hide Malloc;
  }
}
