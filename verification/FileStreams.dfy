/** FileReadStream of filereadstream.h and FileWriteStream of filewritestream.h against the plain file. */
module FileStreams {
  import opened ByteStreams
  import opened JsonWriterSpec

  class FileReadStream {
    /** The file and how much of it fread has delivered. */
    const file: seq<Byte>
    var delivered: nat
    const buffer: array<Byte>
    /** bufferLast_, current_ as offsets into the buffer. */
    var bufferLast: int
    var current: nat
    var readCount: nat
    var count: nat
    var eof: bool

    ghost predicate Valid()
      reads this, buffer
    {
      && buffer.Length >= 4 && current <= bufferLast
      && count + readCount == delivered <= |file|
      && readCount <= buffer.Length && buffer[..readCount] == file[count..delivered]
      && if eof then delivered == |file| && bufferLast == readCount < buffer.Length && buffer[readCount] == 0
         else bufferLast == readCount - 1 && readCount == buffer.Length
    }

    /** What is left of the file. */
    ghost function Rest(): (s: seq<Byte>)
      reads this, buffer
      requires Valid()
    {
      file[count + current..]
    }

    constructor (file: seq<Byte>, buffer: array<Byte>)
      requires buffer.Length >= 4
      modifies buffer
      ensures Valid() && this.file == file && this.buffer == buffer && Rest() == file && Tell() == 0
    {
      this.file := file;
      this.buffer := buffer;
      delivered, bufferLast, current, readCount, count, eof := 0, -1, 0, 0, 0, false;
      new;
      Refill();
    }

    method Peek() returns (c: Byte)
      requires Valid()
      ensures c == ByteStreams.Peek(Rest(), 0)
    {
      c := buffer[current];
      if current < readCount {
        assert buffer[current] == buffer[..readCount][current] == file[count..delivered][current];
      }
    }

    /** The bytes of the file one after the other, then '\0' for ever. */
    method Take() returns (c: Byte)
      requires Valid()
      modifies this, buffer
      ensures Valid()
      ensures c == ByteStreams.Peek(old(Rest()), 0) && Rest() == Skip(old(Rest()))
    {
      c := Peek();
      Read();
    }

    /** The number of bytes taken from the file. */
    function Tell(): (n: nat)
      reads this, buffer
      requires Valid()
      ensures n <= |file| && Rest() == file[n..]
    {
      count + current
    }

    method Read()
      requires Valid()
      modifies this, buffer
      ensures Valid() && Rest() == Skip(old(Rest()))
    {
      if current < bufferLast {
        current := current + 1;
      } else if !eof {
        Refill();
      }
    }

    /** The refilling branch of Read. fread falls short of the size asked for at the end of the file only. */
    method Refill()
      requires buffer.Length >= 4 && count + readCount == delivered <= |file| && !eof
      modifies this, buffer
      ensures Valid() && current == 0 && count == old(delivered)
    {
      count := count + readCount;
      readCount := if |file| - delivered < buffer.Length then |file| - delivered else buffer.Length;
      for k := 0 to readCount
        modifies buffer
        invariant forall j :: 0 <= j < k ==> buffer[j] == file[delivered + j]
      {
        buffer[k] := file[delivered + k];
      }
      delivered := delivered + readCount;
      bufferLast := readCount - 1;
      current := 0;
      if readCount < buffer.Length {
        buffer[readCount] := 0;
        bufferLast := bufferLast + 1;
        eof := true;
      }
    }
  }

  class FileWriteStream {
    /** What fwrite has written; short writes, which the source ignores, do not happen. */
    var file: seq<Byte>
    const buffer: array<Byte>
    var current: nat

    ghost predicate Valid()
      reads this
    {
      0 < buffer.Length && current <= buffer.Length
    }

    /** Everything put so far: the file, then the pending part of the buffer. */
    ghost function Contents(): (s: seq<Byte>)
      reads this, buffer
      requires Valid()
    {
      file + buffer[..current]
    }

    constructor (buffer: array<Byte>)
      requires buffer.Length > 0
      ensures Valid() && Contents() == [] && this.buffer == buffer
    {
      this.buffer := buffer;
      file := [];
      current := 0;
    }

    method Put(c: Byte)
      requires Valid()
      modifies this, buffer
      ensures Valid() && Contents() == old(Contents()) + [c]
    {
      if current >= buffer.Length {
        Flush();
      }
      ghost var before := buffer[..current];
      buffer[current] := c;
      current := current + 1;
      assert buffer[..current] == before + [c];
    }

    /** memset of n bytes at current. */
    method Fill(c: Byte, n: nat)
      requires Valid() && current + n <= buffer.Length
      modifies this, buffer
      ensures Valid() && file == old(file) && current == old(current) + n
      ensures buffer[..current] == old(buffer[..current]) + Repeat(c, n)
    {
      for k := 0 to n
        modifies buffer
        invariant buffer[..current] == old(buffer[..current])
        invariant forall j :: current <= j < current + k ==> buffer[j] == c
      {
        buffer[current + k] := c;
      }
      current := current + n;
    }

    /** Terminates for every n, even where the buffer is full to start with. */
    method PutN(c: Byte, n: nat)
      requires Valid()
      modifies this, buffer
      ensures Valid() && Contents() == old(Contents()) + Repeat(c, n)
    {
      var left := n;
      var avail := buffer.Length - current;
      while left > avail
        invariant Valid() && avail == buffer.Length - current && 0 <= left <= n
        invariant Contents() + Repeat(c, left) == old(Contents()) + Repeat(c, n)
        decreases left, current
      {
        ghost var contents := Contents();
        Fill(c, avail);
        assert Contents() == contents + Repeat(c, avail);
        Flush();
        RepeatSplits(c, avail, left);
        left := left - avail;
        avail := buffer.Length - current;
      }
      if left > 0 {
        Fill(c, left);
      }
    }

    method Flush()
      requires Valid()
      modifies this
      ensures Valid() && Contents() == old(Contents()) && file == old(Contents()) && current == 0
    {
      if current != 0 {
        file := file + buffer[..current];
        current := 0;
      }
    }
  }

  lemma RepeatSplits(c: Byte, m: nat, n: nat)
    requires m <= n
    ensures Repeat(c, n) == Repeat(c, m) + Repeat(c, n - m)
  {
  }
}
