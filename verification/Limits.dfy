/** Inputs on which a transfer does not give the source back, and the settings in which the encoder starts at all. */
module Limits {
  import opened Types
  import opened Adler32
  import opened BlockHash
  import opened Wire
  import opened GreedyScan
  import opened MessageCuts
  import opened WriterMachine
  import opened Transfer
  import opened EndToEnd
  import opened LocalSync
  import opened LocalSyncProgress
  import opened LocalSyncTheorems
  import opened LocalFiles

  /** For every reference file with a short last block there is a source that makes the writer fail: the contents of
      the read buffer when that block was hashed, followed by any byte. */
  lemma ShortBlockCanFail(file: seq<byte>, weak: seq<nat>, bs: nat, x: byte)
    requires 0 < bs && |file| < INT64_LIMIT && IsWeakList(weak, file, bs)
    requires file != [] && |file| < Start(|weak|, bs)
    ensures |weak| > 0
    ensures var start := Start(|weak| - 1, bs);
            && start < |file| && (start == 0 || bs <= start)
            && !HitsAreFull(Buffer(file, bs, start) + [x], TableOf(weak), Some(file), bs)
  {
    hide Block, Buffer, Blocks, TableOf;
    BlockStarts(|file|, bs, 0);
    var k := |weak| - 1;
    assert IsEntry(weak[k], file, bs, k);
    var held := Buffer(file, bs, Start(k, bs));
    var src := held + [x];
    assert src[..bs] == held;
    TableLookup(weak, weak[k]);
    OnlyShortBlockFails(weak, file, bs, k);
  }

  /** A source that is one matching window and one more byte. */
  lemma OnlyHit(src: seq<byte>, table: Table, reference: Option<seq<byte>>, bs: nat, block: seq<byte>)
    requires 0 < bs && |src| == bs + 1 && Hit(src, table, bs)
    requires Block(reference, BlockHit(src, table, bs), bs) == Some(block)
    ensures Apply(Scan(src, table, bs), reference, bs) == Some(block + src[bs..])
  {
    hide Block;
    var op := Ref(BlockHit(src, table, bs));
    assert |src| - bs <= bs;
    ApplyLits(src[bs..], reference, bs);
    assert ([op] + Lits(src[bs..]))[1..] == Lits(src[bs..]);
  }

  /** Adler-32 is the only block sum. Take any full block of a reference file, change three neighbouring bytes of it by
      one, minus two and one, and append any byte: if the block is the last one with its sum, the writer rebuilds the
      old block, in every arrival order and without an error. */
  lemma CollisionCorrupts(file: seq<byte>, weak: seq<nat>, bs: nat, k: nat, j: nat, x: byte, fileIndex: int,
                          order: seq<Id>)
    requires 0 < bs && |file| < INT64_LIMIT && bs + 1 < INT64_LIMIT && IsWeakList(weak, file, bs) && IsInt64(fileIndex)
    requires Start(k, bs) + bs <= |file| && CanCollide(file[Start(k, bs)..Start(k, bs) + bs], j)
    requires k < |weak| < INT64_LIMIT && forall i :: k < i < |weak| ==> weak[i] != weak[k]
    requires var src := Colliding(file[Start(k, bs)..Start(k, bs) + bs], j) + [x];
             EachOnce(order, DeltaOf(src, weak, bs))
    ensures var block := file[Start(k, bs)..Start(k, bs) + bs];
            var src := Colliding(block, j) + [x];
            && block + [x] != src
            && Run(Writer(1, map[]), Arrivals(order, DeltaOf(src, weak, bs), fileIndex), Some(file), bs)
               == Complete(map[0 := block + [x]])
            && !NoFalseHit(src, TableOf(weak), Some(file), bs)
  {
    hide Adler32.Sum, Scan, Apply, Block, TableOf, IsWeakList, NoFalseHit, HitsAreFull, Colliding, CanCollide;
    hide EachOnce, Run, Arrivals, Cuts;
    var start := Start(k, bs);
    var block := file[start..start + bs];
    var src := Colliding(block, j) + [x];
    assert src[..bs] == Colliding(block, j) && src[bs..] == [x];
    CollidingSum(block, j);
    FullBlockEntry(weak, file, bs, k);
    TableLookup(weak, weak[k]);
    StartIsProduct(k, bs);
    BlockAt(file, k, bs);
    OnlyHit(src, TableOf(weak), Some(file), bs, block);
    assert (block + [x])[..bs] == block;
    RebuildIsSource(src, TableOf(weak), Some(file), bs);
    RebuildSucceeds(src, TableOf(weak), Some(file), bs);
    DiffSync(src, weak, Some(file), bs, fileIndex, order);
  }

  lemma BlockAt(file: seq<byte>, k: nat, bs: nat)
    requires Start(k, bs) + bs <= |file| < INT64_LIMIT
    ensures Block(Some(file), k, bs) == Some(file[Start(k, bs)..Start(k, bs) + bs])
  {
    StartIsProduct(k, bs);
  }

  /** Such a reference file and source with their real block size: 1400 old bytes, 701 new ones. */
  lemma RealCollision(file: seq<byte>, weak: seq<nat>, x: byte, fileIndex: int, order: seq<Id>)
    requires |file| == 1400 && IsWeakList(weak, file, 700) && CanCollide(file[700..1400], 0) && IsInt64(fileIndex)
    requires EachOnce(order, DeltaOf(Colliding(file[700..1400], 0) + [x], weak, 700))
    ensures var src := Colliding(file[700..1400], 0) + [x];
            && ChosenBlockSize(|src|, DEFAULT_BLOCK_SIZE) == 700 < |file| != |src|
            && Run(Writer(1, map[]), Arrivals(order, DeltaOf(src, weak, 700), fileIndex), Some(file), 700)
               == Complete(map[0 := file[700..1400] + [x]])
            && file[700..1400] + [x] != src
  {
    hide IsWeakList, EachOnce, Run, Arrivals, Cuts, CanCollide, Colliding, Adler32.Sum, NoFalseHit;
    StartIsProduct(1, 700);
    WeakLength(weak, file, 700);
    CollisionCorrupts(file, weak, 700, 1, 0, x, fileIndex, order);
  }

  // ---- arrival orders the writer does not cope with ----

  function TwoMessages(a: byte, b: byte): seq<seq<Op>> {
    [Lits([a]), Lits([b])]
  }

  lemma TwoMessagesRebuild(a: byte, b: byte, reference: Option<seq<byte>>, bs: nat)
    ensures Rebuilt(TwoMessages(a, b), reference, bs) == Some([a, b]) && PartsFit(TwoMessages(a, b))
  {
    var parts := TwoMessages(a, b);
    assert parts[1..] == [Lits([b])] && parts[1..][1..] == [];
    assert Flatten(parts[1..]) == Lits([b]) + [];
    assert Flatten(parts) == Lits([a, b]);
    ApplyLits([a, b], reference, bs);
  }

  /** Two streams of two messages, all of which can be carried out: the End of the first stream arrives before its other
      message, the second stream finishes last, and the writer fails. */
  lemma OvertakenEndFails(a: byte, b: byte, fileIndex: int, reference: Option<seq<byte>>, bs: nat)
    requires IsInt64(fileIndex)
    ensures var sent := map[0 := TwoMessages(a, b), 1 := TwoMessages(a, b)];
            var order := [Id(0, 1), Id(0, 0), Id(1, 0), Id(1, 1)];
            && EachOnce(order, sent) && AllRebuild(sent, reference, bs) && !OrderIsSafe(order, sent)
            && Run(Writer(2, map[]), Arrivals(order, sent, fileIndex), reference, bs) == Crashed
  {
    hide Arrivals, Run, Rebuilt, PartsFit;
    var sent: Sent := map[0 := TwoMessages(a, b), 1 := TwoMessages(a, b)];
    var order := [Id(0, 1), Id(0, 0), Id(1, 0), Id(1, 1)];
    forall id | InRange(id, sent) ensures id in order {
      assert id == order[0] || id == order[1] || id == order[2] || id == order[3];
    }
    assert sent.Keys == {0, 1} && |sent| == |sent.Keys|;
    assert !OrderIsSafe(order, sent) by {
      assert order[0].offset == order[1].offset != order[3].offset;
    }
    TwoMessagesRebuild(a, b, reference, bs);
    assert EachOnce(order, sent);
    EveryOrder(order, sent, fileIndex, reference, bs);
  }

  // ---- which files the delta path accepts ----

  /** For every positive configured block size, rollV3 gets past its first two reads exactly for files of at least 700
      bytes that are longer than the configured size. */
  lemma DeltaStarts(size: nat, configured: int)
    requires configured > 0
    ensures ChosenBlockSize(size, configured) < size <==> size >= DEFAULT_BLOCK_SIZE && configured < size
  {
    if size > LARGE_FILE {
      SquareRootIsSmaller(size);
    }
  }

  lemma SquareRootIsSmaller(n: nat)
    requires n > 4
    ensures RoundedSqrt(n) < n
  {
    var r := RoundedSqrt(n);
    if r > 4 {
      MulMonotone(4, r - 1, r);
    }
  }

  // ---- inputs on which a local sync never returns ----

  /** A diff file of fewer than 700 bytes, whatever the configuration and whatever else is synchronised. */
  lemma SmallSourceHangs(sync: Sync, j: nat, configured: int)
    requires sync.Valid() && j < sync.diff && |sync.tasks[j].section| < DEFAULT_BLOCK_SIZE
    requires sync.TaskValid(sync.tasks[j])
    requires sync.TargetOf(j).bs == ChosenBlockSize(|sync.tasks[j].section|, configured)
    ensures ConfigOf(sync).Valid() && !CanReturn(ConfigOf(sync))
  {
    hide ConfigOf, CanReturn, HitsAreFull, TableOf;
    SyncReturnsIff(sync);
    assert !sync.CanCarryOut(j);
  }

  /** More small diff files than readers, whatever the configuration: not even the sender returns, as all its roll
      readers fail before it has sent everything. */
  lemma SmallFilesBlockSender(sync: Sync, configured: int, actions: seq<Action>)
    requires sync.Valid() && sync.diff > sync.ccIo
    requires forall j :: 0 <= j < sync.diff ==>
               && |sync.tasks[j].section| < DEFAULT_BLOCK_SIZE && sync.TaskValid(sync.tasks[j])
               && sync.TargetOf(j).bs == ChosenBlockSize(|sync.tasks[j].section|, configured)
    requires ConfigOf(sync).Valid() && Exec(ConfigOf(sync), Init(ConfigOf(sync)), actions).Some?
    ensures var s := Exec(ConfigOf(sync), Init(ConfigOf(sync)), actions).value;
            !s.link.finSent && !s.aborted && s.phase != Returned
  {
    var c := ConfigOf(sync);
    forall j | 0 <= j < sync.diff ensures c.msgs[j] == 0 {
      assert sync.Messages(j) == [];
    }
    hide ConfigOf, Exec, ChosenBlockSize;
    var lost := set j | 0 <= j < c.diff - 1 && j < |c.msgs| && c.msgs[j] == 0;
    FirstNumbers(lost, c.diff - 1);
    ManyLossesHang(c, actions);
  }

  lemma {:induction false} FirstNumbers(xs: set<nat>, n: nat)
    requires forall i: nat :: i < n ==> i in xs
    ensures |xs| >= n
  {
    if n > 0 {
      FirstNumbers(xs - {n - 1}, n - 1);
    }
  }

  /** One file in state Diff, read as one section. */
  function OneFile(src: seq<byte>, present: seq<byte>, weak: seq<nat>, bs: nat, ccIo: nat): Sync {
    Sync([Task(0, 0, src)], [Target(Diff, present, weak, bs)], 1, ccIo)
  }

  /** 600 new bytes for 800 old ones: the file is in state Diff, and the sync never returns. */
  lemma SixHundredBytesHang(src: seq<byte>, former: seq<byte>, weak: seq<nat>, ccIo: nat)
    requires |src| == 600 && |former| == 800 && IsWeakList(weak, former, 600) && ccIo > 0
    ensures ChosenBlockSize(|src|, DEFAULT_BLOCK_SIZE) == 600 < |former| != |src|
    ensures var sync := OneFile(src, former, weak, 600, ccIo);
            sync.Valid() && ConfigOf(sync).Valid() && !CanReturn(ConfigOf(sync))
  {
    hide ConfigOf, CanReturn, IsWeakList;
    WeakLength(weak, former, 600);
    SmallSourceHangs(OneFile(src, former, weak, 600, ccIo), 0, DEFAULT_BLOCK_SIZE);
  }

  /** A source whose scan hits something that is not a full block. */
  lemma FailingFileHangs(src: seq<byte>, former: seq<byte>, weak: seq<nat>, bs: nat, ccIo: nat)
    requires 0 < bs < |src| < INT64_LIMIT - 1 && |weak| < INT64_LIMIT && ccIo > 0
    requires !HitsAreFull(src, TableOf(weak), Some(former), bs)
    ensures var sync := OneFile(src, former, weak, bs, ccIo);
            sync.Valid() && ConfigOf(sync).Valid() && !CanReturn(ConfigOf(sync))
  {
    hide ConfigOf, CanReturn, HitsAreFull, TableOf;
    var sync := OneFile(src, former, weak, bs, ccIo);
    assert sync.TaskValid(sync.tasks[0]);
    SyncReturnsIff(sync);
    assert !sync.CanCarryOut(0);
  }

  /** For every reference file with a short last block there is a source on which the sync never returns. */
  lemma ShortBlockHangs(former: seq<byte>, weak: seq<nat>, bs: nat, x: byte, ccIo: nat)
    requires 0 < bs < INT64_LIMIT - 2 && |former| < INT64_LIMIT && |weak| < INT64_LIMIT && IsWeakList(weak, former, bs)
    requires former != [] && |former| < Start(|weak|, bs) && ccIo > 0
    ensures |weak| > 0
    ensures var start := Start(|weak| - 1, bs);
            && start < |former| && (start == 0 || bs <= start)
            && var sync := OneFile(Buffer(former, bs, start) + [x], former, weak, bs, ccIo);
               sync.Valid() && ConfigOf(sync).Valid() && !CanReturn(ConfigOf(sync))
  {
    hide ConfigOf, CanReturn, IsWeakList, HitsAreFull, Buffer, TableOf, Blocks, OneFile, Sync.Valid;
    ShortBlockCanFail(former, weak, bs, x);
    FailingFileHangs(Buffer(former, bs, Start(|weak| - 1, bs)) + [x], former, weak, bs, ccIo);
  }

  /** Such files with their real block size: 1000 old bytes, 701 new ones. */
  lemma RealShortBlockHangs(former: seq<byte>, weak: seq<nat>, x: byte, ccIo: nat)
    requires |former| == 1000 && IsWeakList(weak, former, 700) && ccIo > 0
    ensures var src := Buffer(former, 700, 700) + [x];
            && ChosenBlockSize(|src|, DEFAULT_BLOCK_SIZE) == 700 < |former| != |src|
            && var sync := OneFile(src, former, weak, 700, ccIo);
               sync.Valid() && ConfigOf(sync).Valid() && !CanReturn(ConfigOf(sync))
  {
    hide ConfigOf, CanReturn, IsWeakList, Buffer;
    WeakLength(weak, former, 700);
    StartIsProduct(1, 700);
    StartIsProduct(2, 700);
    ShortBlockHangs(former, weak, 700, x, ccIo);
  }

  /** A file in state Meta has a writer without a reference file: the sync never returns if its first block is known. */
  lemma MetaHitHangs(sync: Sync, j: nat)
    requires sync.Valid() && j < sync.diff && sync.TaskValid(sync.tasks[j]) && sync.TargetOf(j).state == Meta
    requires sync.TargetOf(j).bs <= |sync.tasks[j].section|
    requires Hit(sync.tasks[j].section, TableOf(sync.TargetOf(j).weak), sync.TargetOf(j).bs)
    ensures ConfigOf(sync).Valid() && !CanReturn(ConfigOf(sync))
  {
    hide ConfigOf, CanReturn, TableOf;
    SyncReturnsIff(sync);
    assert !sync.CanCarryOut(j);
  }
}
