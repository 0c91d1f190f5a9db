/** The reads the pipeline makes of a file: a buffered section reader that always delivers what the file still has. */
module Readers {
  import opened Types

  /** How a reader's job ends. */
  datatype Outcome = Success | Failure

  /** What io.NewSectionReader(file, offset, limit) exposes. */
  function Section(file: seq<byte>, offset: nat, limit: nat): (part: seq<byte>)
    ensures |part| == if offset >= |file| then 0 else Min(limit, |file| - offset)
    ensures forall i :: 0 <= i < |part| ==> part[i] == file[offset + i]
    ensures offset == 0 && |file| <= limit ==> part == file
  {
    if offset >= |file| then [] else file[offset..Min(offset + limit, |file|)]
  }

  class Reader {
    var rest: seq<byte>

    constructor (content: seq<byte>)
      ensures rest == content
    {
      rest := content;
    }

    /** io.CopyN: up to n bytes; fewer only at the end of the file. */
    method CopyN(n: nat) returns (chunk: seq<byte>)
      modifies this
      ensures chunk + rest == old(rest)
      ensures |chunk| == Min(n, |old(rest)|)
    {
      var k := Min(n, |rest|);
      chunk := rest[..k];
      rest := rest[k..];
    }

    /** io.ReadFull into the first `len` cells of `buffer`; cells past what was read keep their contents. */
    method ReadFull(buffer: array<byte>, len: nat) returns (n: nat)
      requires len <= buffer.Length
      modifies this, buffer
      ensures n == Min(len, |old(rest)|)
      ensures rest == old(rest)[n..]
      ensures buffer[..] == old(rest)[..n] + old(buffer[n..])
    {
      n := Min(len, |rest|);
      forall i | 0 <= i < n {
        buffer[i] := rest[i];
      }
      rest := rest[n..];
    }
  }
}
