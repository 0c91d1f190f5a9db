/** The whole pipeline for one file: block sums, delta encoder, wire, arrival in any order, writer. */
module EndToEnd {
  import opened Types
  import opened Wire
  import opened GreedyScan
  import opened MessageCuts
  import opened Interpreter
  import opened WriterMachine
  import opened Transfer
  import opened BlockHash
  import Adler32
  import BytesReaders

  // ---- sizes ----

  lemma {:induction false} PartWithin<T>(parts: seq<seq<T>>, i: nat)
    requires i < |parts|
    ensures |parts[i]| <= |Flatten(parts)|
    ensures forall k :: 0 <= k < |parts[i]| ==> parts[i][k] in Flatten(parts)
  {
    if i > 0 {
      PartWithin(parts[1..], i - 1);
    }
  }

  predicate IndexesBelow(ops: seq<Op>, limit: int) {
    forall op :: op in ops && op.Ref? ==> 0 <= op.index < limit
  }

  /** The instructions of a scan are at most as many as the source has bytes, and index the table. */
  lemma {:induction false} ScanFits(src: seq<byte>, weak: seq<nat>, bs: nat)
    requires 0 < bs <= |src|
    ensures |Scan(src, TableOf(weak), bs)| <= |src|
    ensures IndexesBelow(Scan(src, TableOf(weak), bs), |weak|)
    decreases |src|
  {
    hide TableOf;
    var table := TableOf(weak);
    TableLookup(weak, Adler32.Sum(src[..bs]));
    if Hit(src, table, bs) {
      if |src| - bs > bs {
        ScanFits(src[bs..], weak, bs);
      }
    } else if |src| > bs {
      ScanFits(src[1..], weak, bs);
    }
  }

  function DeltaOf(src: seq<byte>, weak: seq<nat>, bs: nat): Sent
    requires 0 < bs <= |src|
  {
    map[0 := Cuts(src, TableOf(weak), bs, [])]
  }

  lemma DeltaFits(src: seq<byte>, weak: seq<nat>, bs: nat)
    requires 0 < bs <= |src| < INT64_LIMIT && |weak| < INT64_LIMIT
    ensures Fits(DeltaOf(src, weak, bs))
  {
    hide Cuts, Scan, TableOf;
    var table := TableOf(weak);
    var parts, ops := Cuts(src, table, bs, []), Scan(src, table, bs);
    MessageCount(src, table, bs);
    assert |src| / (bs + 1) <= |src| / 2;
    CutsFlatten(src, table, bs, []);
    assert [] + ops == ops;
    ScanFits(src, weak, bs);
    forall i | 0 <= i < |parts| ensures OpsFit(parts[i]) {
      PartWithin(parts, i);
    }
  }

  /** What the messages of a delta rebuild to. */
  lemma DeltaParts(section: seq<byte>, weak: seq<nat>, reference: Option<seq<byte>>, bs: nat)
    requires 0 < bs <= |section| < INT64_LIMIT && |weak| < INT64_LIMIT
    ensures var parts := Cuts(section, TableOf(weak), bs, []);
            && parts != [] && PartsFit(parts)
            && Flatten(parts) == Scan(section, TableOf(weak), bs)
            && (Rebuilt(parts, reference, bs).Some? <==> HitsAreFull(section, TableOf(weak), reference, bs))
            && (Rebuilt(parts, reference, bs).Some? ==> |Rebuilt(parts, reference, bs).value| == |section|)
            && (Rebuilt(parts, reference, bs) == Some(section)
                <==> NoFalseHit(section, TableOf(weak), reference, bs))
  {
    hide Cuts, Scan, TableOf, Apply, HitsAreFull, NoFalseHit, PartsFit;
    DeltaFits(section, weak, bs);
    var table := TableOf(weak);
    assert DeltaOf(section, weak, bs)[0] == Cuts(section, table, bs, []);
    CutsFlatten(section, table, bs, []);
    assert [] + Scan(section, table, bs) == Scan(section, table, bs);
    RebuildSucceeds(section, table, reference, bs);
    RebuildIsSource(section, table, reference, bs);
  }

  // ---- Diff: the delta of a file against a reference file ----

  /** For an arbitrary weak list, every arrival order and every reference file: the writer rebuilds the source exactly
      if the scan meets no false hit; it rebuilds a file of the source's length exactly if every hit names a full
      block; otherwise it fails. */
  lemma DiffSync(src: seq<byte>, weak: seq<nat>, reference: Option<seq<byte>>, bs: nat, fileIndex: int,
                 order: seq<Id>)
    requires 0 < bs <= |src| < INT64_LIMIT && |weak| < INT64_LIMIT && IsInt64(fileIndex)
    requires EachOnce(order, DeltaOf(src, weak, bs))
    ensures var table := TableOf(weak);
            var r := Run(Writer(1, map[]), Arrivals(order, DeltaOf(src, weak, bs), fileIndex), reference, bs);
            && (r == Complete(map[0 := src]) <==> NoFalseHit(src, table, reference, bs))
            && (if HitsAreFull(src, table, reference, bs)
                then r.Complete? && r.files.Keys == {0} && |r.files[0]| == |src|
                     && Apply(Scan(src, table, bs), reference, bs) == Some(r.files[0])
                else r == Crashed)
  {
    hide Cuts, Scan, TableOf, Arrivals, Run, Apply, NoFalseHit, HitsAreFull, Fits;
    var table, sent := TableOf(weak), DeltaOf(src, weak, bs);
    var parts, ops := Cuts(src, table, bs, []), Scan(src, table, bs);
    assert |sent| == 1;
    DeltaFits(src, weak, bs);
    SingleStreamOrder(order, sent);
    EveryOrder(order, sent, fileIndex, reference, bs);
    CutsFlatten(src, table, bs, []);
    assert [] + ops == ops;
    RebuildSucceeds(src, table, reference, bs);
    RebuildIsSource(src, table, reference, bs);
    SingleStreamVerdict(sent, parts, reference, bs);
  }

  lemma SingleStreamOrder(order: seq<Id>, sent: Sent)
    requires EachOnce(order, sent) && sent.Keys == {0} && sent[0] != []
    ensures order != [] && OrderIsSafe(order, sent)
  {
    assert InRange(Id(0, 0), sent);
    assert forall k :: 0 <= k < |order| ==> InRange(order[k], sent);
  }

  lemma SingleStreamVerdict(sent: Sent, parts: seq<seq<Op>>, reference: Option<seq<byte>>, bs: nat)
    requires sent == map[0 := parts]
    ensures AllRebuild(sent, reference, bs) <==> Rebuilt(parts, reference, bs).Some?
    ensures AllRebuild(sent, reference, bs) ==>
              RebuiltFiles(sent, reference, bs) == map[0 := Rebuilt(parts, reference, bs).value]
  {
    hide Rebuilt;
    assert 0 in sent;
  }

  // ---- what the weak list of a real reference file adds ----

  /** Of the entries of a file's own weak list, only the last one of a file that is not a whole number of blocks names
      no full block. */
  lemma OnlyShortBlockFails(weak: seq<nat>, file: seq<byte>, bs: nat, k: nat)
    requires 0 < bs && |file| < INT64_LIMIT && IsWeakList(weak, file, bs) && k < |weak|
    ensures Block(Some(file), k, bs).None? <==> Start(k, bs) + bs > |file|
    ensures Block(Some(file), k, bs).None? ==> k == |weak| - 1
    ensures Block(Some(file), k, bs).Some? ==>
              Adler32.Sum(Block(Some(file), k, bs).value) == weak[k]
  {
    hide IsWeakList;
    BlockStarts(|file|, bs, k);
    BlockStarts(|file|, bs, k + 1);
    StartIsProduct(k, bs);
    WeakLength(weak, file, bs);
    if Start(k, bs) + bs <= |file| {
      FullBlockEntry(weak, file, bs, k);
    }
  }

  lemma WeakLength(weak: seq<nat>, file: seq<byte>, bs: nat)
    requires 0 < bs && IsWeakList(weak, file, bs)
    ensures |weak| == Blocks(|file|, bs)
  {
  }

  /** With no assumption on collisions: wherever the writer put a block, its sum is that of the source's window. */
  lemma MatchedWindowsHaveEqualSums(src: seq<byte>, out: seq<byte>, file: seq<byte>, weak: seq<nat>, bs: nat, op: Op,
                                    p: nat)
    requires 0 < bs && |file| < INT64_LIMIT && IsWeakList(weak, file, bs)
    requires Placed(op, src, out, p, TableOf(weak), Some(file), bs) && op.Ref?
    ensures Adler32.Sum(out[p..p + bs]) == Adler32.Sum(src[p..p + bs])
  {
    hide IsWeakList, Block, TableOf;
    var s := Adler32.Sum(src[p..][..bs]);
    TableLookup(weak, s);
    assert src[p..][..bs] == src[p..p + bs];
    OnlyShortBlockFails(weak, file, bs, op.index);
  }

  /** Where `op` stands in the instructions, `out` has the source's byte, or a block with the sum of the source's
      window. */
  ghost predicate AgreesAt(op: Op, src: seq<byte>, out: seq<byte>, p: nat, bs: nat) {
    match op
    case Lit(_) => p < |src| && p < |out| && out[p] == src[p]
    case Ref(_) => p + bs <= |src| && p + bs <= |out| && Adler32.Sum(out[p..p + bs]) == Adler32.Sum(src[p..p + bs])
  }

  /** `out` has the source's length and agrees with it at every instruction; these span the whole source. */
  ghost predicate Resembles(out: seq<byte>, src: seq<byte>, ops: seq<Op>, bs: nat) {
    && |out| == |src| == Span(ops, bs)
    && forall i :: 0 <= i < |ops| ==> AgreesAt(ops[i], src, out, Span(ops[..i], bs), bs)
  }

  /** Without any assumption on collisions: whatever the writer rebuilds from a delta has the source's length, all its
      literal bytes, and blocks with the sums of all matched windows. */
  lemma RebuiltResembles(src: seq<byte>, file: seq<byte>, weak: seq<nat>, bs: nat, out: seq<byte>)
    requires 0 < bs <= |src| && |file| < INT64_LIMIT && IsWeakList(weak, file, bs)
    requires Apply(Scan(src, TableOf(weak), bs), Some(file), bs) == Some(out)
    ensures Resembles(out, src, Scan(src, TableOf(weak), bs), bs)
  {
    hide Scan, Apply, TableOf, IsWeakList, Placed, Describes, Span;
    var table, ops := TableOf(weak), Scan(src, TableOf(weak), bs);
    ScanDescribes(src, table, bs);
    Conservation(ops, src, table, bs);
    ApplyLength(ops, src, out, table, Some(file), bs);
    forall i | 0 <= i < |ops| ensures AgreesAt(ops[i], src, out, Span(ops[..i], bs), bs) {
      RebuiltAt(ops, src, out, table, Some(file), bs, i);
      PlacedAgrees(src, out, file, weak, bs, ops[i], Span(ops[..i], bs));
    }
  }

  lemma PlacedAgrees(src: seq<byte>, out: seq<byte>, file: seq<byte>, weak: seq<nat>, bs: nat, op: Op, p: nat)
    requires 0 < bs && |file| < INT64_LIMIT && IsWeakList(weak, file, bs)
    requires Placed(op, src, out, p, TableOf(weak), Some(file), bs)
    ensures AgreesAt(op, src, out, p, bs)
  {
    hide TableOf, IsWeakList, Block;
    if op.Ref? {
      MatchedWindowsHaveEqualSums(src, out, file, weak, bs, op, p);
    }
  }

  /** A reference file of whole blocks never makes the writer fail. */
  lemma {:induction false} WholeBlocksNeverFail(src: seq<byte>, weak: seq<nat>, file: seq<byte>, bs: nat)
    requires 0 < bs <= |src| && |file| < INT64_LIMIT && IsWeakList(weak, file, bs)
    requires |file| == |weak| * bs
    ensures HitsAreFull(src, TableOf(weak), Some(file), bs)
    decreases |src|
  {
    hide IsWeakList, Block, TableOf;
    StartIsProduct(|weak|, bs);
    TableLookup(weak, Adler32.Sum(src[..bs]));
    if Hit(src, TableOf(weak), bs) {
      var k := BlockHit(src, TableOf(weak), bs);
      OnlyShortBlockFails(weak, file, bs, k);
      assert Start(k + 1, bs) == Start(k, bs) + bs;
      if |src| - bs > bs {
        WholeBlocksNeverFail(src[bs..], weak, file, bs);
      }
    } else if |src| > bs {
      WholeBlocksNeverFail(src[1..], weak, file, bs);
    }
  }

  /** A condition on the data alone that rules out false hits: no window of the source has the sum of a table entry
      without being that full block. */
  ghost predicate Collides(src: seq<byte>, weak: seq<nat>, reference: Option<seq<byte>>, bs: nat, p: nat) {
    && p + bs <= |src|
    && Hit(src[p..], TableOf(weak), bs)
    && Block(reference, BlockHit(src[p..], TableOf(weak), bs), bs) != Some(src[p..][..bs])
  }

  lemma {:induction false} NoCollisionNoFalseHit(src: seq<byte>, weak: seq<nat>, reference: Option<seq<byte>>, bs: nat)
    requires 0 < bs <= |src|
    requires forall p: nat :: !Collides(src, weak, reference, bs, p)
    ensures NoFalseHit(src, TableOf(weak), reference, bs)
    decreases |src|
  {
    hide Block, TableOf;
    assert !Collides(src, weak, reference, bs, 0) && src[0..] == src;
    var n := if Hit(src, TableOf(weak), bs) then bs else 1;
    if n < |src| && |src| - n >= bs {
      forall p: nat ensures !Collides(src[n..], weak, reference, bs, p) {
        assert !Collides(src, weak, reference, bs, n + p);
        if n + p <= |src| {
          assert src[n..][p..] == src[n + p..];
        }
      }
      NoCollisionNoFalseHit(src[n..], weak, reference, bs);
    }
  }

  // ---- Missing: the whole file ----

  function WholeOf(file: seq<byte>, bs: nat): Sent
    requires bs > 0
  {
    map[0 := BytesReaders.ChunkOps(BytesReaders.Chunks(file, bs))]
  }

  /** Whatever the file and the block size, whatever the arrival order, and with or without a reference file: the
      writer ends with exactly the file. */
  lemma MissingSync(file: seq<byte>, reference: Option<seq<byte>>, bs: nat, fileIndex: int, order: seq<Id>)
    requires 0 < bs && |file| < INT64_LIMIT - 1 && IsInt64(fileIndex)
    requires EachOnce(order, WholeOf(file, bs))
    ensures Run(Writer(1, map[]), Arrivals(order, WholeOf(file, bs), fileIndex), reference, bs)
         == Complete(map[0 := file])
    ensures |WholeOf(file, bs)[0]| == Blocks(|file|, bs) + 1
  {
    hide Arrivals, Run, Apply, Fits, BytesReaders.Chunks, BytesReaders.ChunkOps, Blocks;
    var sent := WholeOf(file, bs);
    var chunks := BytesReaders.Chunks(file, bs);
    var parts := BytesReaders.ChunkOps(chunks);
    assert |sent| == 1;
    BytesReaders.ChunkCount(file, bs);
    BytesReaders.ChunksFlatten(file, bs);
    BytesReaders.ChunkOpsFlatten(chunks);
    WholeFits(file, bs);
    SingleStreamOrder(order, sent);
    EveryOrder(order, sent, fileIndex, reference, bs);
    ApplyLits(file, reference, bs);
    SingleStreamVerdict(sent, parts, reference, bs);
  }

  lemma WholeFits(file: seq<byte>, bs: nat)
    requires 0 < bs && |file| < INT64_LIMIT - 1
    ensures Fits(WholeOf(file, bs))
  {
    hide BytesReaders.Chunks, BytesReaders.ChunkOps, Blocks;
    var chunks := BytesReaders.Chunks(file, bs);
    var parts := BytesReaders.ChunkOps(chunks);
    BytesReaders.ChunkCount(file, bs);
    BytesReaders.ChunksFlatten(file, bs);
    MulMonotone(1, bs, |file|);
    AtMost(|file|, bs, |file|);
    forall i | 0 <= i < |parts| ensures OpsFit(parts[i]) {
      BytesReaders.ChunkOpsAt(chunks, i);
      if i < |chunks| {
        PartWithin(chunks, i);
      }
    }
  }

  lemma WholeParts(section: seq<byte>, reference: Option<seq<byte>>, bs: nat)
    requires 0 < bs && |section| < INT64_LIMIT - 1
    ensures var parts := BytesReaders.ChunkOps(BytesReaders.Chunks(section, bs));
            parts != [] && PartsFit(parts) && Rebuilt(parts, reference, bs) == Some(section)
  {
    hide Apply, PartsFit, BytesReaders.ChunkOps, BytesReaders.Chunks;
    WholeFits(section, bs);
    assert WholeOf(section, bs)[0] == BytesReaders.ChunkOps(BytesReaders.Chunks(section, bs));
    BytesReaders.ChunkOpsFlatten(BytesReaders.Chunks(section, bs));
    BytesReaders.ChunksFlatten(section, bs);
    ApplyLits(section, reference, bs);
  }
}
