/** The weak-sum table of core/block_hash.go, with the block-size choice of lfs/lfs.go. */
module BlockHash {
  import opened Types
  import opened Readers
  import Adler32

  datatype FileState = Missing | Diff | Meta | Skip

  const DEFAULT_BLOCK_SIZE: int := 700
  const LARGE_FILE: int := 490000
  const MAX_BLOCK_SIZE: int := 131072

  /** The descriptor fields the transfer uses. */
  class FileDesc {
    var state: FileState
    var idx: int
    var blockSize: int
    var fileSize: nat
    var weak: seq<nat>

    constructor (idx: int, state: FileState, fileSize: nat, blockSize: int)
      ensures this.idx == idx && this.state == state && this.fileSize == fileSize && this.blockSize == blockSize
      ensures weak == []
    {
      this.idx, this.state, this.fileSize, this.blockSize := idx, state, fileSize, blockSize;
      weak := [];
    }

    /** FileDesc.SetBlockSize, with the configured value as a parameter. */
    method SetBlockSize(configured: int)
      modifies this`blockSize
      ensures blockSize == ChosenBlockSize(fileSize, configured)
      ensures IsBlockSize(blockSize, fileSize, configured)
    {
      BlockSizeIsRight(fileSize, configured);
      blockSize := configured;
      if fileSize > LARGE_FILE && blockSize == DEFAULT_BLOCK_SIZE {
        blockSize := RoundedSqrt(fileSize);
        if blockSize > MAX_BLOCK_SIZE {
          blockSize := MAX_BLOCK_SIZE;
        }
      }
      if fileSize < DEFAULT_BLOCK_SIZE {
        blockSize := fileSize;
      }
      if blockSize == 0 {
        blockSize := DEFAULT_BLOCK_SIZE;
      }
    }
  }

  /** The integer nearest to the square root of n: no integer square root is a half, so there are no ties. */
  function RoundedSqrt(n: nat): (r: nat)
    ensures r * r - r < n <= r * r + r || r == n == 0
  {
    if n == 0 then 0
    else
      var r := RoundedSqrt(n - 1);
      if n <= r * r + r then r else r + 1
  }

  /** math.Round of a number that is not negative. */
  function Rounded(s: real): int {
    (s + 0.5).Floor
  }

  const EPSILON: real := 1.0 / 1125899906842624.0

  /** A floating-point root of n: its square is n up to a relative error of 2^-50, several times what the conversion of
      n and a correctly rounded root in 64 bits can be off. */
  ghost predicate IsRoot(s: real, n: nat) {
    s >= 0.0 && (n as real) - (n as real) * EPSILON <= s * s <= (n as real) + (n as real) * EPSILON
  }

  /** Up to the cap, rounding a floating-point root gives the nearest integer of the exact root, for every size. */
  lemma FloatRootRounds(n: nat, s: real)
    requires IsRoot(s, n)
    ensures Min(Rounded(s), MAX_BLOCK_SIZE) == Min(RoundedSqrt(n), MAX_BLOCK_SIZE)
  {
    var r := RoundedSqrt(n);
    if r <= MAX_BLOCK_SIZE {
      MulMonotone(r, MAX_BLOCK_SIZE, r);
      MulMonotone(r, MAX_BLOCK_SIZE, MAX_BLOCK_SIZE);
      assert (n as real) * EPSILON <= 0.1;
      NearRoot(r, n, s);
    } else {
      LargeSquare(r);
      assert (n as real) - (n as real) * EPSILON > 131071.5 * 131071.5;
      RootAbove(131071.5, s);
    }
  }

  lemma LargeSquare(r: nat)
    requires r > MAX_BLOCK_SIZE
    ensures r * r - r >= (MAX_BLOCK_SIZE + 1) * MAX_BLOCK_SIZE
  {
    MulMonotone(MAX_BLOCK_SIZE, r - 1, r);
    assert r * r - r == (r - 1) * r;
  }

  lemma RootAbove(t: real, s: real)
    requires 0.0 <= t && 0.0 <= s && t * t < s * s
    ensures t < s
  {
  }

  lemma NearRoot(r: nat, n: nat, s: real)
    requires s >= 0.0 && (n as real) - 0.1 <= s * s <= (n as real) + 0.1
    requires r * r - r < n <= r * r + r || r == n == 0
    ensures Rounded(s) == r
  {
    var q := r as real;
    assert (r * r) as real == q * q;
    assert (q + 0.5) * (q + 0.5) == q * q + q + 0.25;
    RootAbove(s, q + 0.5);
    if r > 0 {
      assert (q - 0.5) * (q - 0.5) == q * q - q + 0.25;
      RootAbove(q - 0.5, s);
    }
  }

  function ChosenBlockSize(size: nat, configured: int): int {
    var scaled :=
      if size > LARGE_FILE && configured == DEFAULT_BLOCK_SIZE then Min(RoundedSqrt(size), MAX_BLOCK_SIZE)
      else configured;
    var capped := if size < DEFAULT_BLOCK_SIZE then size else scaled;
    if capped == 0 then DEFAULT_BLOCK_SIZE else capped
  }

  /** How many blocks, the last one possibly short, a file of `size` bytes has. */
  function Blocks(size: nat, bs: nat): (count: nat)
    requires bs > 0
    ensures (count - 1) * bs < size <= count * bs || size == count == 0
  {
    size / bs + (if size % bs != 0 then 1 else 0)
  }

  /** What the block size of a file of `size` bytes has to be. */
  ghost predicate IsBlockSize(bs: int, size: nat, configured: int) {
    && (size == 0 ==> bs == 700)
    && (0 < size < 700 ==> bs == size)
    && (size > 490000 && configured == 700 ==>
          && 0 < bs <= 131072
          && bs * bs - bs < size && (bs < 131072 ==> size <= bs * bs + bs))
    && (size >= 700 && (size <= 490000 || configured != 700) ==> bs == if configured == 0 then 700 else configured)
  }

  /** An empty file gets 700, a file of fewer than 700 bytes its size; with the default setting one of more than 490000
      bytes gets the integer nearest to the square root of its size, at most 131072; every other one the configured
      value, or 700 if that is 0. */
  lemma BlockSizeIsRight(size: nat, configured: int)
    ensures IsBlockSize(ChosenBlockSize(size, configured), size, configured)
  {
    var r := RoundedSqrt(size);
    if size > LARGE_FILE && r > 131072 {
      MulMonotone(131072, r - 1, 131072);
      MulMonotone(131072, r, r - 1);
    }
  }

  /** There is no other such size. */
  lemma BlockSizeUnique(a: int, b: int, size: nat, configured: int)
    requires IsBlockSize(a, size, configured) && IsBlockSize(b, size, configured)
    ensures a == b
  {
    if size > 490000 && configured == 700 {
      Apart(a, b);
      Apart(b, a);
    }
  }

  lemma Apart(a: int, b: int)
    ensures 0 < a < b ==> a * a + a <= b * b - b
  {
    if 0 < a < b {
      MulMonotone(a + 1, b, b - 1);
      MulMonotone(a, b - 1, a + 1);
      assert a * (a + 1) == a * a + a && b * (b - 1) == b * b - b;
    }
  }

  /** For a large file with the default setting it is the rounded floating-point root, up to the cap. */
  lemma BlockSizeIsRoot(size: nat, s: real)
    requires size > 490000 && IsRoot(s, size)
    ensures ChosenBlockSize(size, 700) == if Rounded(s) > 131072 then 131072 else Rounded(s)
  {
    FloatRootRounds(size, s);
  }

  /** With the default configuration the block size is usable, and unless the cap cuts it a file has at most one
      block more than its block size. */
  lemma DefaultBlockSize(size: nat)
    ensures var bs := ChosenBlockSize(size, DEFAULT_BLOCK_SIZE);
            && 0 < bs <= MAX_BLOCK_SIZE
            && (size <= LARGE_FILE || RoundedSqrt(size) <= MAX_BLOCK_SIZE ==> Blocks(size, bs) <= bs + 1)
  {
    var bs := ChosenBlockSize(size, DEFAULT_BLOCK_SIZE);
    var r := RoundedSqrt(size);
    if size > LARGE_FILE {
      if r <= MAX_BLOCK_SIZE {
        AtMost(size, r, r + 1);
      }
    } else if size != 0 {
      AtMost(size, bs, bs + 1);
    }
  }

  /** A block size is never zero, and positive for every positive configured value. */
  lemma NeverZero(size: nat, configured: int)
    ensures ChosenBlockSize(size, configured) != 0
    ensures configured >= 0 ==> ChosenBlockSize(size, configured) > 0
  {
  }

  lemma AtMost(size: nat, bs: nat, count: nat)
    requires bs > 0 && size <= count * bs
    ensures Blocks(size, bs) <= count
  {
    var b := Blocks(size, bs);
    if b > count {
      MulMonotone(count, b - 1, bs);
      assert false;
    }
  }

  /** The table length is the only count whose blocks just cover the file. */
  lemma Exactly(size: nat, bs: nat, count: nat)
    requires bs > 0 && (count - 1) * bs < size <= count * bs
    ensures Blocks(size, bs) == count
  {
    var b := Blocks(size, bs);
    AtMost(size, bs, count);
    if b < count {
      MulMonotone(b, count - 1, bs);
      assert false;
    }
  }

  /** Where block i starts: the product i * bs, computed without multiplying. */
  function Start(i: nat, bs: nat): nat {
    if i == 0 then 0 else Start(i - 1, bs) + bs
  }

  lemma {:induction false} StartIsProduct(i: nat, bs: nat)
    ensures Start(i, bs) == i * bs
  {
    if i != 0 {
      StartIsProduct(i - 1, bs);
    }
  }

  /** Indexes below the table length are exactly those of blocks that start inside the file. */
  lemma BlockStarts(size: nat, bs: nat, i: nat)
    requires bs > 0
    ensures i < Blocks(size, bs) <==> Start(i, bs) < size
  {
    StartIsProduct(i, bs);
    var b := Blocks(size, bs);
    if i < b {
      MulMonotone(i, b - 1, bs);
    } else {
      MulMonotone(b, i, bs);
    }
  }

  /** The contents of the reused read buffer when the block at `start` is hashed. A short last block is followed by
      what the buffer still holds: the suffix of the block before it, or zeros when there is none. */
  function Buffer(file: seq<byte>, bs: nat, start: nat): (buffer: seq<byte>)
    requires start < |file| && (start == 0 || bs <= start)
    ensures |buffer| == bs
  {
    if start + bs <= |file| then file[start..start + bs]
    else
      var tail := |file| - start;
      file[start..] + (if start == 0 then seq(bs - tail, _ => 0) else file[start - bs + tail..start])
  }

  ghost predicate IsEntry(sum: nat, file: seq<byte>, bs: nat, i: nat) {
    var start := Start(i, bs);
    start < |file| && (start == 0 || bs <= start) && sum == Adler32.Sum(Buffer(file, bs, start))
  }

  /** `weak` is the table the sender gets for `file`. */
  ghost predicate IsWeakList(weak: seq<nat>, file: seq<byte>, bs: nat)
    requires bs > 0
  {
    && |weak| == Blocks(|file|, bs)
    && forall i :: 0 <= i < |weak| ==> IsEntry(weak[i], file, bs, i)
  }

  /** Every full block has an entry, the block's own Adler-32; every entry but a last short one is such. */
  lemma FullBlockEntry(weak: seq<nat>, file: seq<byte>, bs: nat, i: nat)
    requires bs > 0 && IsWeakList(weak, file, bs) && Start(i, bs) + bs <= |file|
    ensures i < |weak| && weak[i] == Adler32.Sum(file[Start(i, bs)..Start(i, bs) + bs])
  {
    BlockStarts(|file|, bs, i);
    assert IsEntry(weak[i], file, bs, i);
  }

  /** What the reused buffer holds before the block at `start` is read. */
  function Before(file: seq<byte>, bs: nat, start: nat): seq<byte>
    requires start <= |file| && (start == 0 || bs <= start)
  {
    if start == 0 then seq(bs, _ => 0) else file[start - bs..start]
  }

  /** Reading over the old contents leaves exactly the specified buffer. */
  lemma Refill(file: seq<byte>, bs: nat, start: nat)
    requires bs > 0 && start < |file| && (start == 0 || bs <= start)
    ensures var n := Min(bs, |file| - start);
            && file[start..][..n] + Before(file, bs, start)[n..] == Buffer(file, bs, start)
            && (start + bs <= |file| ==> Buffer(file, bs, start) == Before(file, bs, start + bs))
  {
  }

  /** The loop stands before block number `count`, or at the end of the file. */
  ghost predicate Position(size: nat, bs: nat, start: nat, count: nat)
    requires bs > 0
  {
    && start <= size && count <= Blocks(size, bs)
    && (if start == size then count == Blocks(size, bs) else start == Start(count, bs) && (start == 0 || bs <= start))
  }

  lemma PositionStep(size: nat, bs: nat, start: nat, count: nat, n: nat)
    requires bs > 0 && Position(size, bs, start, count) && n == Min(bs, size - start) > 0
    ensures count < Blocks(size, bs) && Position(size, bs, start + n, count + 1)
  {
    hide Blocks;
    BlockStarts(size, bs, count);
    BlockStarts(size, bs, count + 1);
    assert Start(count + 1, bs) == Start(count, bs) + bs;
  }

  /** The state of the block loop: what is unread, what the reused buffer holds, and the sums stored so far. */
  ghost predicate LoopState(file: seq<byte>, bs: nat, start: nat, rest: seq<byte>, held: seq<byte>, sums: seq<nat>) {
    && |held| == bs > 0 && Position(|file|, bs, start, |sums|) && rest == file[start..]
    && (start < |file| ==> held == Before(file, bs, start)) && AreEntries(sums, file, bs)
  }

  ghost predicate AreEntries(sums: seq<nat>, file: seq<byte>, bs: nat) {
    forall k :: 0 <= k < |sums| ==> IsEntry(sums[k], file, bs, k)
  }

  lemma OneEntryMore(sums: seq<nat>, sum: nat, file: seq<byte>, bs: nat)
    requires AreEntries(sums, file, bs) && IsEntry(sum, file, bs, |sums|)
    ensures AreEntries(sums + [sum], file, bs)
  {
    hide IsEntry;
  }

  /** What reading the next block leaves: the buffer to be hashed, which is the one before the block after it. */
  lemma NextBuffer(file: seq<byte>, bs: nat, start: nat, rest: seq<byte>, held: seq<byte>, n: nat)
    requires bs > 0 && start < |file| && (start == 0 || bs <= start)
    requires rest == file[start..] && held == Before(file, bs, start) && n == Min(bs, |rest|)
    ensures rest[..n] + held[n..] == Buffer(file, bs, start) && rest[n..] == file[start + n..]
    ensures start + n < |file| ==> n == bs && Buffer(file, bs, start) == Before(file, bs, start + n)
  {
    hide Buffer, Before;
    Refill(file, bs, start);
    DropTwice(file, start, n);
  }

  lemma LoopStep(file: seq<byte>, bs: nat, start: nat, rest: seq<byte>, held: seq<byte>, sums: seq<nat>, n: nat)
    requires LoopState(file, bs, start, rest, held, sums)
    requires n == Min(bs, |rest|) > 0
    ensures |sums| < Blocks(|file|, bs)
    ensures var held' := rest[..n] + held[n..];
            LoopState(file, bs, start + n, rest[n..], held', sums + [Adler32.Sum(held')])
  {
    PositionStep(|file|, bs, start, |sums|, n);
    NextBuffer(file, bs, start, rest, held, n);
    var buffer := Buffer(file, bs, start);
    assert IsEntry(Adler32.Sum(buffer), file, bs, |sums|);
    hide IsEntry, AreEntries, Buffer, Before, Blocks, Adler32.Sum, Position;
    OneEntryMore(sums, Adler32.Sum(buffer), file, bs);
  }

  lemma LoopInit(file: seq<byte>, bs: nat)
    requires bs > 0
    ensures LoopState(file, bs, 0, file, seq(bs, _ => 0), [])
  {
  }

  lemma LoopDone(file: seq<byte>, bs: nat, start: nat, held: seq<byte>, sums: seq<nat>)
    requires LoopState(file, bs, start, [], held, sums)
    ensures IsWeakList(sums, file, bs) && |sums| == Blocks(|file|, bs)
  {
    assert |file[start..]| == 0;
  }

  /** Reads the next block into the reused buffer and hashes the whole buffer. */
  method HashNext(r: Reader, buffer: array<byte>, ghost file: seq<byte>, bs: nat, ghost start: nat,
                  ghost sums: seq<nat>)
    returns (n: nat, sum: nat)
    requires buffer.Length == bs && LoopState(file, bs, start, r.rest, buffer[..], sums)
    modifies r, buffer
    ensures n == 0 ==> IsWeakList(sums, file, bs) && |sums| == Blocks(|file|, bs)
    ensures n > 0 ==>
              && |sums| < Blocks(|file|, bs) && |r.rest| < |old(r.rest)|
              && LoopState(file, bs, start + n, r.rest, buffer[..], sums + [sum])
  {
    ghost var rest, held := r.rest, buffer[..];
    assert |held| == bs > 0;
    hide LoopState, Blocks, IsWeakList, Adler32.Sum;
    n := r.ReadFull(buffer, bs);
    sum := Adler32.Sum(buffer[..]);
    if n == 0 {
      assert rest == [];
      LoopDone(file, bs, start, held, sums);
    } else {
      LoopStep(file, bs, start, rest, held, sums, n);
    }
  }

  /** AddChecksums: one read buffer, reused for every block. */
  method AddChecksums(fd: FileDesc, file: seq<byte>)
    requires fd.blockSize > 0
    modifies fd`weak
    ensures IsWeakList(fd.weak, file, fd.blockSize)
  {
    var bs := fd.blockSize;
    var buffer := new byte[bs](_ => 0);
    var r := new Reader(file);
    assert buffer[..] == seq(bs, _ => 0);
    LoopInit(file, bs);
    hide LoopState, Blocks, IsWeakList;
    var hashListLen := Blocks(|file|, bs);
    var hashList := new nat[hashListLen](_ => 0);
    var i := 0;
    ghost var start, sums: seq<nat> := 0, [];
    while true
      invariant 0 <= i <= hashListLen == Blocks(|file|, bs)
      invariant LoopState(file, bs, start, r.rest, buffer[..], sums)
      invariant hashList[..i] == sums
      decreases |r.rest|
    {
      var n, sum := HashNext(r, buffer, file, bs, start, sums);
      if n == 0 {
        assert hashList[..] == sums;
        break;
      }
      hashList[i] := sum;
      start, sums := start + n, sums + [sum];
      i := i + 1;
    }
    fd.weak := hashList[..];
  }
}
