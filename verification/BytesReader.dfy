/** The whole-file sender of workers/readers.go. */
module BytesReaders {
  import opened Types
  import opened Readers
  import opened Wire
  import opened Interpreter
  import opened Descriptors
  import BlockHash

  /** The blocks of a file, the last one possibly short. */
  function Chunks(file: seq<byte>, bs: nat): seq<seq<byte>>
    requires bs > 0
    decreases |file|
  {
    if file == [] then []
    else var n := Min(bs, |file|); [file[..n]] + Chunks(file[n..], bs)
  }

  lemma {:induction false} ChunksFlatten(file: seq<byte>, bs: nat)
    requires bs > 0
    ensures Flatten(Chunks(file, bs)) == file
    decreases |file|
  {
    if file != [] {
      ChunksFlatten(file[Min(bs, |file|)..], bs);
    }
  }

  lemma {:induction false} ChunkCount(file: seq<byte>, bs: nat)
    requires bs > 0
    ensures |Chunks(file, bs)| == BlockHash.Blocks(|file|, bs)
    decreases |file|
  {
    hide BlockHash.Blocks;
    var n := Min(bs, |file|);
    if file != [] {
      ChunkCount(file[n..], bs);
      if n == bs {
        OneBlockMore(|file| - bs, bs);
      } else {
        OneBlock(|file|, bs);
      }
    } else {
      assert BlockHash.Blocks(0, bs) == 0;
    }
  }

  /** Every piece but the last is a whole block, and none is empty. */
  ghost predicate AreBlocks(chunks: seq<seq<byte>>, bs: nat) {
    && (forall i :: 0 <= i < |chunks| ==> 0 < |chunks[i]| <= bs)
    && (forall i :: 0 <= i < |chunks| - 1 ==> |chunks[i]| == bs)
  }

  lemma {:induction false} ChunkSizes(file: seq<byte>, bs: nat)
    requires bs > 0
    ensures AreBlocks(Chunks(file, bs), bs)
    decreases |file|
  {
    if file != [] {
      var n := Min(bs, |file|);
      var others := Chunks(file[n..], bs);
      ChunkSizes(file[n..], bs);
      OneBlockInFront(file[..n], others, bs);
    }
  }

  lemma OneBlockInFront(chunk: seq<byte>, others: seq<seq<byte>>, bs: nat)
    requires AreBlocks(others, bs) && 0 < |chunk| <= bs && (others != [] ==> |chunk| == bs)
    ensures AreBlocks([chunk] + others, bs)
  {
  }

  lemma OneBlockMore(size: nat, bs: nat)
    requires bs > 0
    ensures BlockHash.Blocks(size + bs, bs) == BlockHash.Blocks(size, bs) + 1
  {
    var b := BlockHash.Blocks(size, bs);
    assert (b + 1) * bs == b * bs + bs && (b - 1) * bs == b * bs - bs;
    BlockHash.Exactly(size + bs, bs, b + 1);
  }

  lemma OneBlock(size: nat, bs: nat)
    requires 0 < size < bs
    ensures BlockHash.Blocks(size, bs) == 1
  {
    assert size / bs == 0 && size % bs == size;
  }

  /** The instructions of the messages: every chunk as literals, and an empty last message. */
  function ChunkOps(chunks: seq<seq<byte>>): (parts: seq<seq<Op>>)
    ensures |parts| == |chunks| + 1
  {
    if chunks == [] then [[]] else [Lits(chunks[0])] + ChunkOps(chunks[1..])
  }

  lemma {:induction false} ChunkOpsAt(chunks: seq<seq<byte>>, i: nat)
    requires i <= |chunks|
    ensures ChunkOps(chunks)[i] == if i < |chunks| then Lits(chunks[i]) else []
  {
    if i > 0 {
      ChunkOpsAt(chunks[1..], i - 1);
    }
  }

  lemma {:induction false} ChunkOpsFlatten(chunks: seq<seq<byte>>)
    ensures Flatten(ChunkOps(chunks)) == Lits(Flatten(chunks))
  {
    var parts := ChunkOps(chunks);
    if chunks == [] {
      assert parts[1..] == [];
    } else {
      ChunkOpsFlatten(chunks[1..]);
      assert parts[1..] == ChunkOps(chunks[1..]);
      var first, others := chunks[0], Flatten(chunks[1..]);
      assert Lits(first + others) == Lits(first) + Lits(others);
    }
  }

  lemma AddLit(bytes: seq<byte>, b: byte)
    ensures AddOp(if bytes == [] then [] else [DataFrame(bytes)], Lit(b)) == [DataFrame(bytes + [b])]
  {
    assert [] + [b] == [b] && [DataFrame(bytes)][..0] == [];
  }

  lemma LitsPush(bytes: seq<byte>, b: byte)
    ensures Lits(bytes + [b]) == Lits(bytes) + [Lit(b)]
  {
  }

  /** A chunk's literals group into the one frame that Write emits. */
  lemma {:induction false} GroupLits(bytes: seq<byte>)
    ensures Group(Lits(bytes)) == if bytes == [] then [] else [DataFrame(bytes)]
  {
    if bytes != [] {
      var most, last := bytes[..|bytes| - 1], bytes[|bytes| - 1];
      GroupLits(most);
      assert bytes == most + [last];
      LitsPush(most, last);
      hide Group, Lits, AddOp;
      GroupPush(Lits(most), Lit(last));
      AddLit(most, last);
    }
  }

  /** What the loop has sent so far: one message per chunk. */
  ghost predicate ChunksSent(sent: seq<DataDesc>, fileIndex: int, offset: int, streams: int, chunks: seq<seq<byte>>)
    reads sent
  {
    && |sent| == |chunks|
    && (forall i, j :: 0 <= i < j < |sent| ==> sent[i] != sent[j])
    && forall i :: 0 <= i < |sent| ==>
         Carries(sent[i], fileIndex, offset, i, streams, Lits(chunks[i]), false)
  }

  class BytesReader {
    constructor () {
    }

    /** One chunk in a fresh descriptor. */
    method Pack(chunk: seq<byte>, fileIndex: int, offset: int, i: int, streams: int) returns (dd: DataDesc)
      requires streams != 0 && chunk != []
      ensures fresh(dd) && Carries(dd, fileIndex, offset, i, streams, Lits(chunk), false)
    {
      dd := new DataDesc(fileIndex, offset, i, streams);
      dd.Write(chunk);
      GroupLits(chunk);
      assert dd.flushed + dd.Pending() == [DataFrame(chunk)];
    }

    method Last(fileIndex: int, offset: int, i: int, streams: int) returns (dd: DataDesc)
      requires streams != 0
      ensures fresh(dd) && Carries(dd, fileIndex, offset, i, streams, [], true)
    {
      dd := new DataDesc(fileIndex, offset, i, streams);
      dd.MarkAsLast();
      assert dd.flushed + dd.Pending() == [EndFrame];
      assert Group([]) + [EndFrame] + [] == [EndFrame];
    }

    /** The RSQ branch of BytesReader.Start. */
    method SendFile(file: seq<byte>, fd: BlockHash.FileDesc, offset: nat, limit: nat, streams: int)
      returns (outcome: Outcome, sent: seq<DataDesc>)
      requires fd.blockSize >= 0 && streams != 0
      ensures fresh(sent)
      ensures fd.blockSize == 0 ==> outcome == Failure && sent == []
      ensures fd.blockSize > 0 ==>
                && outcome == Success
                && AllCarry(sent, fd.idx, offset, streams, ChunkOps(Chunks(Section(file, offset, limit), fd.blockSize)))
    {
      sent := [];
      if fd.blockSize == 0 {
        // ReadFull into an empty buffer reads nothing and is no error
        return Failure, sent;
      }
      var br := new Reader(Section(file, offset, limit));
      outcome := Success;
      sent := SendChunks(br, fd.blockSize, fd.idx, offset, streams);
    }

    /** The read loop: one buffer, cut to what the last read delivered. */
    method SendChunks(br: Reader, bs: nat, fileIndex: int, offset: int, streams: int) returns (sent: seq<DataDesc>)
      requires bs > 0 && streams != 0
      modifies br
      ensures fresh(sent)
      ensures AllCarry(sent, fileIndex, offset, streams, ChunkOps(Chunks(old(br.rest), bs)))
    {
      hide DataDesc.Valid, DataDesc.Pending, Carries, Chunks, AllCarry, ChunksSent;
      var buf := new byte[bs](_ => 0);
      var len := bs;
      sent := [];
      ghost var chunks := [];
      NothingSent(fileIndex, offset, streams);
      assert [] + Chunks(br.rest, bs) == Chunks(br.rest, bs);
      while true
        invariant 0 < len <= bs && (len == bs || br.rest == [])
        invariant chunks + Chunks(br.rest, bs) == Chunks(old(br.rest), bs)
        invariant fresh(sent) && |sent| == |chunks| && ChunksSent(sent, fileIndex, offset, streams, chunks)
        decreases |br.rest|
      {
        ghost var rest := br.rest;
        ChunkStep(rest, bs);
        var n := br.ReadFull(buf, len);
        if n == 0 {
          break;
        }
        len := n;
        assert buf[..len] == rest[..n];
        Assoc(chunks, [rest[..n]], Chunks(br.rest, bs));
        var dd := Pack(buf[..len], fileIndex, offset, |sent|, streams);
        OneMoreSent(sent, dd, fileIndex, offset, streams, chunks, rest[..n]);
        sent := sent + [dd];
        chunks := chunks + [rest[..n]];
      }
      var dd := Last(fileIndex, offset, |sent|, streams);
      assert chunks + [] == chunks;
      AllSent(sent, dd, fileIndex, offset, streams, chunks);
      sent := sent + [dd];
    }
  }

  lemma ChunkStep(rest: seq<byte>, bs: nat)
    requires bs > 0
    ensures var n := Min(bs, |rest|);
            Chunks(rest, bs) == if rest == [] then [] else [rest[..n]] + Chunks(rest[n..], bs)
  {
  }

  lemma NothingSent(fileIndex: int, offset: int, streams: int)
    ensures ChunksSent([], fileIndex, offset, streams, [])
  {
  }

  lemma OneMoreSent(sent: seq<DataDesc>, dd: DataDesc, fileIndex: int, offset: int, streams: int,
                    chunks: seq<seq<byte>>, chunk: seq<byte>)
    requires ChunksSent(sent, fileIndex, offset, streams, chunks) && dd !in sent
    requires Carries(dd, fileIndex, offset, |sent|, streams, Lits(chunk), false)
    ensures ChunksSent(sent + [dd], fileIndex, offset, streams, chunks + [chunk])
  {
  }

  lemma AllSent(sent: seq<DataDesc>, last: DataDesc, fileIndex: int, offset: int, streams: int,
                chunks: seq<seq<byte>>)
    requires ChunksSent(sent, fileIndex, offset, streams, chunks) && last !in sent
    requires Carries(last, fileIndex, offset, |chunks|, streams, [], true)
    ensures AllCarry(sent + [last], fileIndex, offset, streams, ChunkOps(chunks))
  {
    hide Carries, ChunkOps;
    var all := sent + [last];
    forall i | 0 <= i < |all|
      ensures Carries(all[i], fileIndex, offset, i, streams, ChunkOps(chunks)[i], i == |all| - 1)
    {
      ChunkOpsAt(chunks, i);
    }
  }
}
