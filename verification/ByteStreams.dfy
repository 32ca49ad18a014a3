/** The bytes and code units RapidJSON works on, and the two stream concepts of stream.h that its encodings use. */
module ByteStreams {
  type Byte = b: int | 0 <= b < 0x100
  type Unit = u: int | 0 <= u < 0x1_0000

  /** The code unit a stream shows: the terminator '\0' once everything has been taken. */
  function Peek<T>(s: seq<T>, end: T): (c: T)
  {
    if s == [] then end else s[0]
  }

  /** What is left after one Take; at the end of the stream nothing moves. */
  function Skip<T>(s: seq<T>): (r: seq<T>)
    ensures |r| == if s == [] then 0 else |s| - 1
  {
    if s == [] then [] else s[1..]
  }

  /** A stream over a memory block, as memorystream.h has it. */
  class InputStream<T> {
    const content: seq<T>
    const end: T
    var position: nat

    ghost predicate Valid()
      reads this
    {
      position <= |content|
    }

    ghost function Rest(): (r: seq<T>)
      reads this
      requires Valid()
    {
      content[position..]
    }

    constructor (content: seq<T>, end: T)
      ensures Valid() && Rest() == content && this.content == content && this.end == end
    {
      this.content := content;
      this.end := end;
      position := 0;
    }

    method Take() returns (c: T)
      requires Valid()
      modifies this
      ensures Valid()
      ensures c == Peek(old(Rest()), end) && Rest() == Skip(old(Rest()))
    {
      if position == |content| {
        c := end;
      } else {
        c := content[position];
        position := position + 1;
      }
    }
  }

  class OutputStream<T> {
    var content: seq<T>

    constructor ()
      ensures content == []
    {
      content := [];
    }

    method Put(c: T)
      modifies this
      ensures content == old(content) + [c]
    {
      content := content + [c];
    }
  }
}
