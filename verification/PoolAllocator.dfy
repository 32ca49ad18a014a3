/** MemoryPoolAllocator of allocators.h as an object: its chunk list, and the memory Realloc copies in. */
module PoolAllocator {
  import opened PoolSpec
  import opened Wrappers

  class MemoryPoolAllocator {
    /** The list from chunkHead_ on. */
    var chunks: seq<Chunk>
    var chunkCapacity: nat
    var userBuffer: Option<nat>
    var memory: Memory
    /** The blocks handed out and still held by callers. */
    ghost var live: map<nat, nat>

    ghost function State(): (p: Pool)
      reads this
    {
      Pool(chunks, chunkCapacity, userBuffer, live)
    }

    constructor (chunkSize: nat, memory: Memory)
      ensures State() == Pool([], chunkSize, None, map[]) && Safe(State()) && this.memory == memory
    {
      chunks := [];
      chunkCapacity := chunkSize;
      userBuffer := None;
      this.memory := memory;
      live := map[];
    }

    /** The constructor for a buffer of the user's, which must hold more than a header. */
    constructor WithBuffer(buffer: nat, size: nat, chunkSize: nat, memory: Memory)
      requires buffer > 0 && size > HEADER
      ensures State() == Pool([Chunk(buffer, size - HEADER, 0)], chunkSize, Some(buffer), map[])
      ensures Safe(State()) && this.memory == memory
    {
      chunks := [Chunk(buffer, size - HEADER, 0)];
      chunkCapacity := chunkSize;
      userBuffer := Some(buffer);
      this.memory := memory;
      live := map[];
    }

    method Clear()
      requires Safe(State())
      modifies this
      ensures State() == PoolSpec.Clear(old(State())) && Safe(State())
      ensures chunks == if userBuffer == None then [] else [old(chunks[|chunks| - 1]).(size := 0)]
      ensures memory == old(memory)
    {
      StepSafe(State(), ClearCall);
      ClearedIs(chunks, userBuffer);
      while chunks != [] && Some(chunks[0].base) != userBuffer
        invariant Cleared(chunks, userBuffer) == Cleared(old(chunks), userBuffer)
        invariant userBuffer == old(userBuffer) && chunkCapacity == old(chunkCapacity) && memory == old(memory)
        decreases |chunks|
      {
        chunks := chunks[1..];
      }
      if chunks != [] && Some(chunks[0].base) == userBuffer {
        chunks := [chunks[0].(size := 0)] + chunks[1..];
      }
      live := map[];
    }

    method Capacity() returns (capacity: nat)
      ensures capacity == PoolSpec.Capacity(chunks)
    {
      capacity := 0;
      var c := chunks;
      while c != []
        invariant capacity + PoolSpec.Capacity(c) == PoolSpec.Capacity(chunks)
        decreases |c|
      {
        capacity, c := capacity + c[0].capacity, c[1..];
      }
    }

    method Size() returns (size: nat)
      ensures size == PoolSpec.Size(chunks)
    {
      size := 0;
      var c := chunks;
      while c != []
        invariant size + PoolSpec.Size(c) == PoolSpec.Size(chunks)
        decreases |c|
      {
        size, c := size + c[0].size, c[1..];
      }
    }

    /** answer is what the base allocator returns for the chunk. */
    method AddChunk(capacity: nat, answer: Option<nat>) returns (ok: bool)
      modifies this`chunks
      ensures ok == answer.Some?
      ensures chunks == if ok then [Chunk(answer.value, capacity, 0)] + old(chunks) else old(chunks)
    {
      if answer == None {
        return false;
      }
      chunks := [Chunk(answer.value, capacity, 0)] + chunks;
      return true;
    }

    method Malloc(size: nat, answer: Option<nat>) returns (buffer: Option<nat>)
      requires Safe(State()) && Fair(State(), MallocCall(size, answer))
      modifies this
      ensures (State(), buffer) == PoolSpec.Malloc(old(State()), size, answer)
      ensures Safe(State()) && memory == old(memory)
    {
      hide Safe, Fair, Align;
      StepSafe(State(), MallocCall(size, answer));
      if size == 0 {
        return None;
      }
      var aligned := Align(size);
      if chunks == [] || chunks[0].size + aligned > chunks[0].capacity {
        var ok := AddChunk(if chunkCapacity > aligned then chunkCapacity else aligned, answer);
        if !ok {
          return None;
        }
      }
      var head := chunks[0];
      buffer := Some(head.base + HEADER + head.size);
      chunks := [head.(size := head.size + aligned)] + chunks[1..];
      live := live[buffer.value := size];
    }

    /** A null originalPtr is None; any other must be a live block of that size. */
    method Realloc(originalPtr: Option<nat>, originalSize: nat, newSize: nat, answer: Option<nat>)
      returns (buffer: Option<nat>)
      requires Safe(State())
      requires match originalPtr
               case None => Fair(State(), MallocCall(newSize, answer))
               case Some(ptr) => Fair(State(), ReallocCall(ptr, originalSize, newSize, answer))
      modifies this
      ensures Safe(State())
      ensures originalPtr == None ==>
                (State(), buffer) == PoolSpec.Malloc(old(State()), newSize, answer) && memory == old(memory)
      ensures originalPtr.Some? ==>
                (State(), buffer)
                == Result(PoolSpec.Realloc(old(State()), originalPtr.value, originalSize, newSize, answer))
                && memory == ReallocMemory(old(State()), originalPtr.value, newSize, answer, old(memory))
    {
      if originalPtr == None {
        buffer := Malloc(newSize, answer);
      } else {
        buffer := ReallocBlock(originalPtr.value, originalSize, newSize, answer);
      }
    }

    /** Realloc behind its first test. */
    method ReallocBlock(ptr: nat, originalSize: nat, newSize: nat, answer: Option<nat>) returns (buffer: Option<nat>)
      requires Safe(State()) && Fair(State(), ReallocCall(ptr, originalSize, newSize, answer))
      modifies this
      ensures Safe(State())
      ensures (State(), buffer) == Result(PoolSpec.Realloc(old(State()), ptr, originalSize, newSize, answer))
      ensures memory == ReallocMemory(old(State()), ptr, newSize, answer, old(memory))
    {
      hide Safe, Honest, PoolSpec.Malloc;
      StepSafe(State(), ReallocCall(ptr, originalSize, newSize, answer));
      if newSize == 0 {
        live := live - {ptr};
        return None;
      }
      var o, n := Align(originalSize), Align(newSize);
      if o >= n {
        live := live[ptr := newSize];
        return Some(ptr);
      }
      if chunks != [] && ptr + o == chunks[0].base + HEADER + chunks[0].size {
        var increment := n - o;
        if chunks[0].size + increment <= chunks[0].capacity {
          chunks := [chunks[0].(size := chunks[0].size + increment)] + chunks[1..];
          live := live[ptr := newSize];
          return Some(ptr);
        }
      }
      buffer := Malloc(newSize, answer);
      if buffer.Some? {
        memory := Copied(memory, ptr, buffer.value, o);
        live := live - {ptr};
      }
    }
  }

  function Result(r: (Pool, Option<nat>, bool)): (s: (Pool, Option<nat>)) {
    (r.0, r.1)
  }
}
