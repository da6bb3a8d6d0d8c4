/** reverse_line and create_reverse_file of semestr1/Task3/Task3_1/main.c. */
module ReverseFile {
  import opened Bytes

  const BUFFER_SIZE := 256

  function Reversed<T>(s: seq<T>): (r: seq<T>)
    ensures |r| == |s|
    ensures forall i :: 0 <= i < |s| ==> r[i] == s[|s| - 1 - i]
  {
    seq(|s|, i requires 0 <= i < |s| => s[|s| - 1 - i])
  }

  lemma ReversedTwice<T>(s: seq<T>)
    ensures Reversed(Reversed(s)) == s
  {
  }

  /** Swaps the first `size` elements end for end, in place; the rest of the buffer is untouched. */
  method ReverseLine<T>(line: array<T>, size: nat)
    requires size <= line.Length
    modifies line
    ensures line[..size] == Reversed(old(line[..size]))
    ensures line[size..] == old(line[size..])
  {
    var mid := size / 2;
    for i := 0 to mid
      invariant forall k :: 0 <= k < line.Length && (i <= k < size - i || size <= k) ==> line[k] == old(line[k])
      invariant forall k :: 0 <= k < size && (k < i || size - i <= k) ==> line[k] == old(line[size - 1 - k])
    {
      line[i], line[size - i - 1] := line[size - i - 1], line[i];
    }
  }

  function Min(a: nat, b: nat): nat {
    if a < b then a else b
  }

  /** `data` with `chunk` written at offset `at`; a gap before it reads as zeros. */
  function Overwritten(data: seq<byte>, at: nat, chunk: seq<byte>): seq<byte> {
    var base := if |data| < at then data + seq(at - |data|, _ => 0) else data;
    base[..at] + chunk + if at + |chunk| < |base| then base[at + |chunk|..] else []
  }

  /** Byte by byte: the chunk's where it was written, zero in the gap, the old byte elsewhere. */
  lemma OverwrittenAt(data: seq<byte>, at: nat, chunk: seq<byte>, i: nat)
    requires i < |Overwritten(data, at, chunk)|
    ensures |Overwritten(data, at, chunk)| == if |data| < at + |chunk| then at + |chunk| else |data|
    ensures Overwritten(data, at, chunk)[i] ==
            if at <= i < at + |chunk| then chunk[i - at] else if i < |data| then data[i] else 0
  {
  }

  /** A stdio stream that reads a regular file.  Reading fails beyond the first `readable` bytes. */
  class InStream {
    const data: seq<byte>
    var pos: nat
    const readable: nat

    constructor (data: seq<byte>, readable: nat)
      ensures this.data == data && pos == 0 && this.readable == readable
    {
      this.data, pos, this.readable := data, 0, readable;
    }

    /** fread; `failed` is what feof or ferror say afterwards. */
    method Read(buffer: array<byte>, n: nat) returns (got: nat, failed: bool)
      requires n <= buffer.Length && pos <= Min(|data|, readable)
      modifies this`pos, buffer
      ensures got == Min(n, Min(|data|, readable) - old(pos))
      ensures pos == old(pos) + got && (failed <==> got < n)
      ensures buffer[..got] == data[old(pos)..pos]
    {
      got := Min(n, Min(|data|, readable) - pos);
      for i := 0 to got
        invariant buffer[..i] == data[old(pos)..old(pos) + i]
        invariant pos == old(pos)
      {
        buffer[i] := data[pos + i];
      }
      pos, failed := pos + got, got < n;
    }
  }

  /** How many of `n` bytes at offset `at` a file that may not grow beyond `limit` takes. */
  function Room(at: nat, n: nat, limit: nat): nat {
    if limit <= at then 0 else Min(n, limit - at)
  }

  function Stored(data: seq<byte>, at: nat, chunk: seq<byte>, limit: nat): seq<byte> {
    var taken := Room(at, |chunk|, limit);
    if taken == 0 then data else Overwritten(data, at, chunk[..taken])
  }

  /** A stdio stream that writes a regular file.  It is fully buffered: what fwrite is given stays pending
      until the stream is positioned or closed, and only then meets the limit on the size of the file. */
  class OutStream {
    var data: seq<byte>       // what is in the file
    var pending: seq<byte>
    var pendingAt: nat
    var pos: nat
    const limit: nat

    constructor (limit: nat)
      ensures data == [] && pending == [] && pos == 0 && this.limit == limit
    {
      data, pending, pendingAt, pos, this.limit := [], [], 0, 0, limit;
    }

    method Flush() returns (ok: bool)
      modifies this`data, this`pending
      ensures data == Stored(old(data), pendingAt, old(pending), limit) && pending == []
      ensures ok <==> Room(pendingAt, |old(pending)|, limit) == |old(pending)|
    {
      var taken := Room(pendingAt, |pending|, limit);
      ok := taken == |pending|;
      data, pending := Stored(data, pendingAt, pending, limit), [];
    }

    /** fseek fails when what was pending cannot be written (section 7.21.9.2 of ISO/IEC 9899:2011). */
    method Seek(offset: nat) returns (ok: bool)
      modifies this`data, this`pending, this`pos
      ensures data == Stored(old(data), pendingAt, old(pending), limit) && pending == []
      ensures ok <==> Room(pendingAt, |old(pending)|, limit) == |old(pending)|
      ensures ok ==> pos == offset
    {
      ok := Flush();
      if ok {
        pos := offset;
      }
    }

    method Write(buffer: array<byte>, n: nat)
      requires n <= buffer.Length && pending == []
      modifies this`pending, this`pendingAt, this`pos
      ensures pending == buffer[..n] && pendingAt == old(pos)
    {
      pending, pendingAt, pos := buffer[..n], pos, pos + n;
    }
  }

  /** What the file holds when the bytes of the output from `left` on have been written: they are final,
      as far as the file may grow. */
  ghost predicate TailDone(input: seq<byte>, output: seq<byte>, left: nat, limit: nat)
    requires left <= |input|
  {
    var m := Min(limit, |input|);
    if m <= left then output == [] else |output| == m && output[left..] == Reversed(input)[left..m]
  }

  lemma ChunkWritten(input: seq<byte>, output: seq<byte>, left: nat, limit: nat, chunk: seq<byte>)
    requires |chunk| <= left <= |input| && TailDone(input, output, left, limit)
    requires chunk == Reversed(input)[left - |chunk|..left]
    ensures TailDone(input, Stored(output, left - |chunk|, chunk, limit), left - |chunk|, limit)
  {
    var at, m := left - |chunk|, Min(limit, |input|);
    var taken, output' := Room(at, |chunk|, limit), Stored(output, at, chunk, limit);
    if taken > 0 && at < m {
      forall i | at <= i < m
        ensures |output'| == m && output'[i] == Reversed(input)[i]
      {
        assert |output'| == m;
        OverwrittenAt(output, at, chunk[..taken], i);
        assert left <= i ==> output[left..][i - left] == Reversed(input)[left..m][i - left];
      }
    }
  }

  /** The chunk that is read when `left` bytes remain goes in front of the finished tail. */
  lemma ChunkReversed(input: seq<byte>, left: nat, n: nat)
    requires n <= left <= |input|
    ensures Reversed(input[|input| - left..|input| - left + n]) == Reversed(input)[left - n..left]
  {
  }

  /** The last chunk may still be pending; everything behind it is in the file. */
  ghost predicate Written(input: seq<byte>, output: OutStream, left: nat)
    reads output
  {
    var behind := left + |output.pending|;
    && behind <= |input| && TailDone(input, output.data, behind, output.limit)
    && (output.pending != [] ==> output.pendingAt == left && output.pending == Reversed(input)[left..behind])
  }

  /** Positions the output for the next chunk.  It fails exactly if the chunk before it was refused. */
  method MakeRoom(output: OutStream, left: nat, next: nat, ghost input: seq<byte>) returns (ok: bool)
    requires Written(input, output, left)
    modifies output
    ensures output.pending == [] && Written(input, output, left)
    ensures ok <==> old(output.pending) == [] || left + |old(output.pending)| <= output.limit
    ensures ok ==> output.pos == next
  {
    if output.pending != [] {
      ChunkWritten(input, output.data, left + |output.pending|, output.limit, output.pending);
    }
    ok := output.Seek(next);
  }

  /** fclose, whose result is not looked at. */
  method Close(output: OutStream, left: nat, ghost input: seq<byte>)
    requires Written(input, output, left)
    modifies output
    ensures left <= |input| && TailDone(input, output.data, left, output.limit)
  {
    if output.pending != [] {
      ChunkWritten(input, output.data, left + |output.pending|, output.limit, output.pending);
    }
    var ok := output.Flush();
  }

  /** Reads `n` bytes and reverses them in the buffer. */
  method ReadReversed(input: InStream, buffer: array<byte>, n: nat, ghost left: nat) returns (failed: bool)
    requires n <= buffer.Length && n <= left <= |input.data| && input.pos == |input.data| - left <= input.readable
    modifies input`pos, buffer
    ensures failed <==> input.readable < |input.data| - left + n
    ensures !failed ==> input.pos == |input.data| - left + n && buffer[..n] == Reversed(input.data)[left - n..left]
  {
    var bytesRead;
    bytesRead, failed := input.Read(buffer, n);
    if !failed {
      ReverseLine(buffer, bytesRead);
      ChunkReversed(input.data, left, n);
    }
  }

  /** One turn of the loop: reads a chunk, reverses it and writes it in front of the ones before.  What
      fwrite returns is compared with -1 only, but a chunk that was refused shows at the next fseek. */
  method CopyChunk(input: InStream, output: OutStream, buffer: array<byte>, bytesLeft: nat)
    returns (left: nat, ok: bool)
    requires 0 < buffer.Length && 0 < bytesLeft <= |input.data|
    requires input.pos == |input.data| - bytesLeft <= input.readable && Written(input.data, output, bytesLeft)
    modifies input`pos, output, buffer
    ensures Written(input.data, output, left) && (!ok ==> left == bytesLeft)
    ensures ok <==> && |input.data| - bytesLeft + Min(bytesLeft, buffer.Length) <= input.readable
                    && (old(output.pending) == [] || bytesLeft + |old(output.pending)| <= output.limit)
    ensures ok ==> left == bytesLeft - Min(bytesLeft, buffer.Length) && |output.pending| == bytesLeft - left
    ensures ok ==> input.pos == |input.data| - left <= input.readable
  {
    var n := Min(bytesLeft, buffer.Length);
    var failed := ReadReversed(input, buffer, n, bytesLeft);
    if failed {
      return bytesLeft, false;
    }
    ok := MakeRoom(output, bytesLeft, bytesLeft - n, input.data);
    if !ok {
      return bytesLeft, false;
    }
    left := bytesLeft - n;
    output.Write(buffer, n);
  }

  /** The state of the loop.  Once a second chunk has been written the file has taken the first, which
      reaches to its very end. */
  ghost predicate Copying(input: InStream, output: OutStream, left: nat, bufferSize: nat)
    reads input, output
  {
    var n, p := |input.data|, |output.pending|;
    && left <= n && input.pos == n - left <= input.readable && Written(input.data, output, left)
    && p <= bufferSize && (p == 0 <==> left == n) && (left + p < n ==> n <= output.limit)
    && (0 < left < n ==> bufferSize < n)
  }

  /** Reads the input forwards in chunks, reverses each and writes them back to front.  It succeeds
      exactly when both files open, the input can be read, and the file may grow to the whole output or
      the output is a single chunk; a single chunk is refused unnoticed, at fclose.  A null stream is a
      failed fopen. */
  method CreateReverseFile(input: InStream?, output: OutStream?, bufferSize: nat) returns (ok: bool)
    requires 0 < bufferSize
    requires input != null ==> input.pos == 0
    requires output != null ==> output.data == [] && output.pending == [] && output.pos == 0
    modifies input, output
    ensures ok <==> && input != null && output != null && |input.data| <= input.readable
                    && (|input.data| <= output.limit || |input.data| <= bufferSize)
    ensures ok ==> output.data == Reversed(input.data)[..Min(output.limit, |input.data|)]
    ensures ok ==> (output.data == Reversed(input.data) <==> |input.data| <= output.limit)
    ensures input != null && output != null ==>
              exists left :: 0 <= left <= |input.data| && TailDone(input.data, output.data, left, output.limit)
  {
    if input == null || output == null {
      return false;
    }
    var buffer := new byte[bufferSize];
    var bytesLeft: nat := |input.data|;
    ok := true;
    while bytesLeft > 0 && ok
      invariant Written(input.data, output, bytesLeft)
      invariant ok ==> Copying(input, output, bytesLeft, bufferSize)
      invariant !ok ==> input.readable < |input.data| || (output.limit < |input.data| && bufferSize < |input.data|)
      decreases bytesLeft, ok
    {
      bytesLeft, ok := CopyChunk(input, output, buffer, bytesLeft);
    }
    Close(output, bytesLeft, input.data);
  }
}
