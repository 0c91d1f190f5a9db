/** The wire format of lfs/lfs.go: 42-byte big-endian headers in front of data bytes and index arrays. */
module Wire {
  import opened Types

  const HEADER_SIZE: int := 42
  const TWO64: int := 0x1_0000_0000_0000_0000

  const DATA: int := 0
  const INDEX: int := 1
  const END: int := 2

  // ---- fixed-width integers ----

  /** The n low-order bytes of v, most significant first. */
  function BigEndian(v: nat, n: nat): (bytes: seq<byte>)
    ensures |bytes| == n
  {
    if n == 0 then [] else BigEndian(v / 256, n - 1) + [v % 256]
  }

  function FromBigEndian(bytes: seq<byte>): nat {
    if bytes == [] then 0 else FromBigEndian(bytes[..|bytes| - 1]) * 256 + bytes[|bytes| - 1]
  }

  function Pow256(n: nat): nat {
    if n == 0 then 1 else 256 * Pow256(n - 1)
  }

  lemma {:induction false} BigEndianRoundTrip(v: nat, n: nat)
    requires v < Pow256(n)
    ensures FromBigEndian(BigEndian(v, n)) == v
  {
    if n != 0 {
      BigEndianRoundTrip(v / 256, n - 1);
      assert BigEndian(v, n)[..n - 1] == BigEndian(v / 256, n - 1);
    }
  }

  lemma WordSizes()
    ensures Pow256(2) == 0x1_0000 && Pow256(8) == TWO64
  {
    assert Pow256(2) == 256 * Pow256(1);
    assert Pow256(4) == 256 * Pow256(3) && Pow256(3) == 256 * Pow256(2);
    assert Pow256(6) == 256 * Pow256(5) && Pow256(5) == 256 * Pow256(4);
    assert Pow256(8) == 256 * Pow256(7) && Pow256(7) == 256 * Pow256(6);
  }

  function Int64Bytes(x: int): (bytes: seq<byte>)
    ensures |bytes| == 8
  {
    BigEndian(x % TWO64, 8)
  }

  function Int64Value(bytes: seq<byte>): int {
    var u := FromBigEndian(bytes);
    if u < INT64_LIMIT then u else u - TWO64
  }

  predicate IsInt64(x: int) {
    -INT64_LIMIT <= x < INT64_LIMIT
  }

  lemma WrapAround(x: int)
    ensures var u := x % TWO64; Wrap64(x) == if u < INT64_LIMIT then u else u - TWO64
  {
    var q, u := x / TWO64, x % TWO64;
    assert x == q * TWO64 + u;
  }

  /** Every integer comes back as the int64 it wraps to. */
  lemma Int64RoundTrip(x: int)
    ensures Int64Value(Int64Bytes(x)) == Wrap64(x)
  {
    WordSizes();
    BigEndianRoundTrip(x % TWO64, 8);
    hide BigEndian, FromBigEndian, Pow256;
    WrapAround(x);
  }

  function Int16Bytes(x: int): (bytes: seq<byte>)
    ensures |bytes| == 2
  {
    BigEndian(x % 0x1_0000, 2)
  }

  function Int16Value(bytes: seq<byte>): int {
    var u := FromBigEndian(bytes);
    if u < 0x8000 then u else u - 0x1_0000
  }

  lemma Int16RoundTrip(x: int)
    requires -0x8000 <= x < 0x8000
    ensures Int16Value(Int16Bytes(x)) == x
  {
    WordSizes();
    BigEndianRoundTrip(x % 0x1_0000, 2);
  }

  // ---- headers ----

  datatype Header = Header(flag: int, fileIndex: int, offset: int, seqNo: int, streams: int, len: int)

  function PrintHeader(h: Header): (p: seq<byte>)
    ensures |p| == HEADER_SIZE
  {
    Int16Bytes(h.flag) + Int64Bytes(h.fileIndex) + Int64Bytes(h.offset) + Int64Bytes(h.seqNo) +
    Int64Bytes(h.streams) + Int64Bytes(h.len)
  }

  function ParseHeader(p: seq<byte>): Header
    requires |p| >= HEADER_SIZE
  {
    Header(Int16Value(p[0..2]), Int64Value(p[2..10]), Int64Value(p[10..18]), Int64Value(p[18..26]),
           Int64Value(p[26..34]), Int64Value(p[34..42]))
  }

  function Wrapped(h: Header): Header {
    Header(h.flag, Wrap64(h.fileIndex), Wrap64(h.offset), Wrap64(h.seqNo), Wrap64(h.streams), Wrap64(h.len))
  }

  /** Printing a header and reading it back is the identity up to the width of the fields. */
  lemma HeaderRoundTrip(h: Header, rest: seq<byte>)
    requires -0x8000 <= h.flag < 0x8000
    ensures ParseHeader(PrintHeader(h) + rest) == Wrapped(h)
    ensures (PrintHeader(h) + rest)[HEADER_SIZE..] == rest
  {
    hide Int64Bytes, Int64Value, Int16Bytes, Int16Value, Wrap64;
    Int16RoundTrip(h.flag);
    Int64RoundTrip(h.fileIndex);
    Int64RoundTrip(h.offset);
    Int64RoundTrip(h.seqNo);
    Int64RoundTrip(h.streams);
    Int64RoundTrip(h.len);
    HeaderParts(Int16Bytes(h.flag), Int64Bytes(h.fileIndex), Int64Bytes(h.offset), Int64Bytes(h.seqNo),
                Int64Bytes(h.streams), Int64Bytes(h.len), rest);
  }

  lemma HeaderParts(a: seq<byte>, b: seq<byte>, c: seq<byte>, d: seq<byte>, e: seq<byte>, f: seq<byte>,
                    rest: seq<byte>)
    requires |a| == 2 && |b| == |c| == |d| == |e| == |f| == 8
    ensures var p := a + b + c + d + e + f + rest;
            && |p| >= HEADER_SIZE && p[0..2] == a && p[2..10] == b && p[10..18] == c && p[18..26] == d
            && p[26..34] == e && p[34..42] == f && p[42..] == rest
  {
  }

  // ---- index arrays ----

  function PrintIndexes(indexes: seq<int>): (p: seq<byte>)
    ensures |p| == 8 * |indexes|
  {
    if indexes == [] then [] else Int64Bytes(indexes[0]) + PrintIndexes(indexes[1..])
  }

  function ParseIndexes(p: seq<byte>, n: nat): (indexes: seq<int>)
    requires |p| >= 8 * n
    ensures |indexes| == n
  {
    if n == 0 then [] else [Int64Value(p[..8])] + ParseIndexes(p[8..], n - 1)
  }

  lemma {:induction false} IndexesRoundTrip(indexes: seq<int>, rest: seq<byte>)
    requires forall i :: 0 <= i < |indexes| ==> IsInt64(indexes[i])
    ensures ParseIndexes(PrintIndexes(indexes) + rest, |indexes|) == indexes
    ensures (PrintIndexes(indexes) + rest)[8 * |indexes|..] == rest
  {
    hide Int64Bytes, Int64Value;
    if indexes == [] {
      SplitAt([], rest);
    } else {
      var first, others := Int64Bytes(indexes[0]), PrintIndexes(indexes[1..]);
      var p := first + others + rest;
      Int64RoundTrip(indexes[0]);
      IndexesRoundTrip(indexes[1..], rest);
      Assoc(first, others, rest);
      SplitAt(first, others + rest);
      DropTwice(p, 8, 8 * |indexes[1..]|);
    }
  }

  // ---- frames ----

  datatype Frame = DataFrame(bytes: seq<byte>) | IndexFrame(indexes: seq<int>) | EndFrame

  function FrameHeader(flag: int, len: int): Header {
    Header(flag, 0, 0, 0, 0, len)
  }

  function PrintFrame(f: Frame): seq<byte> {
    match f
    case DataFrame(bytes) => PrintHeader(FrameHeader(DATA, |bytes|)) + bytes
    case IndexFrame(indexes) => PrintHeader(FrameHeader(INDEX, |indexes|)) + PrintIndexes(indexes)
    case EndFrame => PrintHeader(FrameHeader(END, 0))
  }

  function PrintFrames(frames: seq<Frame>): seq<byte> {
    if frames == [] then [] else PrintFrame(frames[0]) + PrintFrames(frames[1..])
  }

  lemma {:induction false} PrintFramesConcat(xs: seq<Frame>, ys: seq<Frame>)
    ensures PrintFrames(xs + ys) == PrintFrames(xs) + PrintFrames(ys)
  {
    hide PrintFrame;
    if xs == [] {
      assert xs + ys == ys;
    } else {
      PrintFramesConcat(xs[1..], ys);
      assert (xs + ys)[1..] == xs[1..] + ys;
      Assoc(PrintFrame(xs[0]), PrintFrames(xs[1..]), PrintFrames(ys));
    }
  }

  lemma PrintFramesPush(xs: seq<Frame>, f: Frame)
    ensures PrintFrames(xs + [f]) == PrintFrames(xs) + PrintFrame(f)
  {
    PrintFramesConcat(xs, [f]);
    assert [f][1..] == [];
    assert PrintFrames([f]) == PrintFrame(f) + [];
  }

  /** What reading one frame off a message body gives. */
  datatype Parsed = Exhausted | Malformed | Got(frame: Frame, rest: seq<byte>)

  function ParseFrame(body: seq<byte>): (parsed: Parsed)
    ensures parsed.Got? ==> |parsed.rest| < |body|
    ensures parsed.Exhausted? <==> body == []
  {
    if body == [] then Exhausted
    else if |body| < HEADER_SIZE then Malformed
    else
      var h := ParseHeader(body);
      var rest := body[HEADER_SIZE..];
      if h.flag == DATA then
        // copying a negative number of bytes copies nothing
        var n := if h.len < 0 then 0 else h.len;
        if n <= |rest| then Got(DataFrame(rest[..n]), rest[n..]) else Malformed
      else if h.flag == INDEX then
        if 0 <= h.len && 8 * h.len <= |rest| then
          Got(IndexFrame(ParseIndexes(rest, h.len)), rest[8 * h.len..])
        else Malformed
      else if h.flag == END then Got(EndFrame, rest)
      else Malformed
  }

  predicate FitsInt64(f: Frame) {
    match f
    case DataFrame(bytes) => |bytes| < INT64_LIMIT
    case IndexFrame(indexes) =>
      |indexes| < INT64_LIMIT && forall i :: 0 <= i < |indexes| ==> IsInt64(indexes[i])
    case EndFrame => true
  }

  /** Printing a frame and reading it back is the identity, whatever follows. */
  lemma FrameRoundTrip(f: Frame, rest: seq<byte>)
    requires FitsInt64(f)
    ensures ParseFrame(PrintFrame(f) + rest) == Got(f, rest)
  {
    hide PrintHeader, ParseHeader, PrintIndexes, ParseIndexes;
    var p := PrintFrame(f) + rest;
    match f {
      case DataFrame(bytes) =>
        var h := FrameHeader(DATA, |bytes|);
        HeaderRoundTrip(h, bytes + rest);
        assert p == PrintHeader(h) + (bytes + rest);
      case IndexFrame(indexes) =>
        var h := FrameHeader(INDEX, |indexes|);
        HeaderRoundTrip(h, PrintIndexes(indexes) + rest);
        assert p == PrintHeader(h) + (PrintIndexes(indexes) + rest);
        IndexesRoundTrip(indexes, rest);
      case EndFrame =>
        HeaderRoundTrip(FrameHeader(END, 0), rest);
    }
  }

  /** All frames of a body that can be read before its end or the first malformed one. */
  function ParseFrames(body: seq<byte>): seq<Frame>
    decreases |body|
  {
    match ParseFrame(body)
    case Got(f, rest) => [f] + ParseFrames(rest)
    case _ => []
  }

  lemma {:induction false} FramesRoundTrip(frames: seq<Frame>)
    requires forall i :: 0 <= i < |frames| ==> FitsInt64(frames[i])
    ensures ParseFrames(PrintFrames(frames)) == frames
  {
    if frames != [] {
      FrameRoundTrip(frames[0], PrintFrames(frames[1..]));
      FramesRoundTrip(frames[1..]);
    }
  }

  // ---- the layout, byte by byte ----

  lemma DivideTwice(v: nat, p: nat)
    requires p > 0
    ensures v / 256 / p == v / (256 * p)
  {
    var q, u := v / 256 / p, v / 256 % p;
    var w := v % 256;
    assert v == 256 * (q * p + u) + w;
    assert v == q * (256 * p) + (256 * u + w);
    Quotient(v, 256 * p, q, 256 * u + w);
  }

  lemma Quotient(v: nat, d: nat, q: nat, r: nat)
    requires v == q * d + r && r < d
    ensures v / d == q
  {
    var q', r' := v / d, v % d;
    assert v == q' * d + r';
    SameQuotient(d, q, r, q', r');
  }

  lemma SameQuotient(d: nat, q: nat, r: nat, q': nat, r': nat)
    requires q * d + r == q' * d + r' && r < d && r' < d
    ensures q == q'
  {
    Farther(q, q', d);
    Farther(q', q, d);
  }

  lemma Farther(a: nat, b: nat, d: nat)
    ensures a < b ==> a * d + d <= b * d
  {
    if a < b {
      MulMonotone(a + 1, b, d);
    }
  }

  lemma PowPositive(n: nat)
    ensures Pow256(n) > 0
  {
  }

  /** The most significant digit comes first. */
  lemma {:induction false} BigEndianDigit(v: nat, n: nat, i: nat)
    requires i < n
    ensures Pow256(n - 1 - i) > 0
    ensures BigEndian(v, n)[i] == v / Pow256(n - 1 - i) % 256
  {
    PowPositive(n - 1 - i);
    if i < n - 1 {
      PowPositive(n - 2 - i);
      BigEndianDigit(v / 256, n - 1, i);
      DivideTwice(v, Pow256(n - 2 - i));
    }
  }

  /** Eight bytes of `p` from `pos` on are x as a 64-bit two's complement number, the most significant byte first. */
  ghost predicate Int64At(p: seq<byte>, pos: nat, x: int)
    requires pos + 8 <= |p|
  {
    var u := x % 0x1_0000_0000_0000_0000;
    && p[pos] == u / 0x100_0000_0000_0000
    && p[pos + 1] == u / 0x1_0000_0000_0000 % 256
    && p[pos + 2] == u / 0x100_0000_0000 % 256
    && p[pos + 3] == u / 0x1_0000_0000 % 256
    && p[pos + 4] == u / 0x100_0000 % 256
    && p[pos + 5] == u / 0x1_0000 % 256
    && p[pos + 6] == u / 0x100 % 256
    && p[pos + 7] == u % 256
  }

  lemma Powers()
    ensures Pow256(0) == 1 && Pow256(1) == 0x100 && Pow256(2) == 0x1_0000 && Pow256(3) == 0x100_0000
    ensures Pow256(4) == 0x1_0000_0000 && Pow256(5) == 0x100_0000_0000 && Pow256(6) == 0x1_0000_0000_0000
    ensures Pow256(7) == 0x100_0000_0000_0000
  {
    assert Pow256(1) == 256 * Pow256(0) && Pow256(2) == 256 * Pow256(1) && Pow256(3) == 256 * Pow256(2);
    assert Pow256(4) == 256 * Pow256(3) && Pow256(5) == 256 * Pow256(4) && Pow256(6) == 256 * Pow256(5);
    assert Pow256(7) == 256 * Pow256(6);
  }

  lemma Int64Layout(x: int)
    ensures Int64At(Int64Bytes(x), 0, x)
  {
    var u := x % TWO64;
    Powers();
    BigEndianDigit(u, 8, 0);
    BigEndianDigit(u, 8, 1);
    BigEndianDigit(u, 8, 2);
    BigEndianDigit(u, 8, 3);
    BigEndianDigit(u, 8, 4);
    BigEndianDigit(u, 8, 5);
    BigEndianDigit(u, 8, 6);
    BigEndianDigit(u, 8, 7);
    hide BigEndian, Pow256;
  }

  /** The same bytes further back. */
  lemma Int64Shift(p: seq<byte>, pos: nat, q: seq<byte>, x: int)
    requires |q| == 8 && Int64At(q, 0, x) && pos + 8 <= |p| && p[pos..pos + 8] == q
    ensures Int64At(p, pos, x)
  {
    assert forall i :: 0 <= i < 8 ==> p[pos + i] == q[i];
  }

  /** Where the fields of a header are. */
  ghost predicate IsHeader(p: seq<byte>, h: Header)
    requires |p| >= 42
  {
    && p[0] == h.flag % 0x1_0000 / 256 && p[1] == h.flag % 256
    && Int64At(p, 2, h.fileIndex) && Int64At(p, 10, h.offset) && Int64At(p, 18, h.seqNo) && Int64At(p, 26, h.streams)
    && Int64At(p, 34, h.len)
  }

  lemma HeaderLayout(h: Header, rest: seq<byte>)
    ensures |PrintHeader(h)| == 42 && IsHeader(PrintHeader(h) + rest, h)
  {
    FlagLayout(h.flag);
    Int64Layout(h.fileIndex);
    Int64Layout(h.offset);
    Int64Layout(h.seqNo);
    Int64Layout(h.streams);
    Int64Layout(h.len);
    hide Int64Bytes, Int16Bytes, Int64At;
    HeaderParts(Int16Bytes(h.flag), Int64Bytes(h.fileIndex), Int64Bytes(h.offset), Int64Bytes(h.seqNo),
                Int64Bytes(h.streams), Int64Bytes(h.len), rest);
    var p := PrintHeader(h) + rest;
    assert p[0] == p[0..2][0] && p[1] == p[0..2][1];
    Int64Shift(p, 2, Int64Bytes(h.fileIndex), h.fileIndex);
    Int64Shift(p, 10, Int64Bytes(h.offset), h.offset);
    Int64Shift(p, 18, Int64Bytes(h.seqNo), h.seqNo);
    Int64Shift(p, 26, Int64Bytes(h.streams), h.streams);
    Int64Shift(p, 34, Int64Bytes(h.len), h.len);
  }

  lemma FlagLayout(flag: int)
    ensures Int16Bytes(flag) == [flag % 0x1_0000 / 256, flag % 256]
  {
    Powers();
    BigEndianDigit(flag % 0x1_0000, 2, 0);
    BigEndianDigit(flag % 0x1_0000, 2, 1);
    hide BigEndian, Pow256;
    LowByte(flag);
  }

  lemma LowByte(x: int)
    ensures x % 0x1_0000 / 256 < 256 && x % 0x1_0000 % 256 == x % 256
  {
    assert x == 256 * (256 * (x / 0x1_0000)) + x % 0x1_0000;
  }

  /** The header in front of a frame: 0 and the kind, 32 zeros, the length. */
  ghost predicate IsFrameHeader(p: seq<byte>, kind: byte, len: int)
    requires |p| >= 42
  {
    p[0] == 0 && p[1] == kind && (forall k :: 2 <= k < 34 ==> p[k] == 0) && Int64At(p, 34, len)
  }

  /** A frame byte by byte: data is kind 0, with the number of bytes; indexes are kind 1, with the number of indexes,
      eight bytes each; End is kind 2 and nothing else. */
  ghost predicate IsFrame(p: seq<byte>, f: Frame) {
    match f
    case DataFrame(bytes) => |p| == 42 + |bytes| && IsFrameHeader(p, 0, |bytes|) && p[42..] == bytes
    case IndexFrame(indexes) =>
      && |p| == 42 + 8 * |indexes| && IsFrameHeader(p, 1, |indexes|)
      && forall k :: 0 <= k < |indexes| ==> Int64At(p, 42 + 8 * k, indexes[k])
    case EndFrame => |p| == 42 && IsFrameHeader(p, 2, 0)
  }

  lemma ZerosBetween(p: seq<byte>, h: Header)
    requires |p| >= 42 && IsHeader(p, h) && h.fileIndex == h.offset == h.seqNo == h.streams == 0
    ensures forall k :: 2 <= k < 34 ==> p[k] == 0
  {
    ZeroAt(p, 2);
    ZeroAt(p, 10);
    ZeroAt(p, 18);
    ZeroAt(p, 26);
  }

  lemma ZeroAt(p: seq<byte>, pos: nat)
    requires pos + 8 <= |p| && Int64At(p, pos, 0)
    ensures forall k :: pos <= k < pos + 8 ==> p[k] == 0
  {
  }

  lemma FrameHeaderLayout(flag: int, len: int, rest: seq<byte>)
    requires 0 <= flag < 256
    ensures |PrintHeader(FrameHeader(flag, len)) + rest| == 42 + |rest|
    ensures IsFrameHeader(PrintHeader(FrameHeader(flag, len)) + rest, flag, len)
  {
    HeaderLayout(FrameHeader(flag, len), rest);
    hide Int64At, PrintHeader;
    ZerosBetween(PrintHeader(FrameHeader(flag, len)) + rest, FrameHeader(flag, len));
  }

  lemma {:induction false} IndexesLayout(indexes: seq<int>, front: seq<byte>, k: nat)
    requires k < |indexes|
    ensures Int64At(front + PrintIndexes(indexes), |front| + 8 * k, indexes[k])
    decreases k
  {
    var first, others := Int64Bytes(indexes[0]), PrintIndexes(indexes[1..]);
    var p := front + (first + others);
    assert PrintIndexes(indexes) == first + others;
    hide Int64Bytes, Int64At, PrintIndexes;
    if k == 0 {
      Int64Layout(indexes[0]);
      assert p[|front|..|front| + 8] == first;
      Int64Shift(p, |front|, first, indexes[0]);
    } else {
      IndexesLayout(indexes[1..], front + first, k - 1);
      assert front + first + others == p;
    }
  }

  lemma FrameLayout(f: Frame)
    ensures IsFrame(PrintFrame(f), f)
  {
    hide IsFrameHeader, PrintHeader, Int64At, PrintIndexes;
    match f {
      case DataFrame(bytes) =>
        FrameHeaderLayout(DATA, |bytes|, bytes);
        HeaderLayout(FrameHeader(DATA, |bytes|), bytes);
        assert PrintFrame(f)[42..] == bytes;
      case IndexFrame(indexes) =>
        var h := PrintHeader(FrameHeader(INDEX, |indexes|));
        FrameHeaderLayout(INDEX, |indexes|, PrintIndexes(indexes));
        HeaderLayout(FrameHeader(INDEX, |indexes|), []);
        forall k | 0 <= k < |indexes| ensures Int64At(PrintFrame(f), 42 + 8 * k, indexes[k]) {
          IndexesLayout(indexes, h, k);
        }
      case EndFrame =>
        FrameHeaderLayout(END, 0, []);
        assert PrintFrame(f) + [] == PrintFrame(f);
    }
  }

  /** A body byte by byte: its frames one behind the other. */
  ghost predicate IsBody(p: seq<byte>, frames: seq<Frame>) {
    if frames == [] then p == []
    else exists n: nat :: n <= |p| && IsFrame(p[..n], frames[0]) && IsBody(p[n..], frames[1..])
  }

  lemma {:induction false} BodyLayout(frames: seq<Frame>)
    ensures IsBody(PrintFrames(frames), frames)
  {
    if frames != [] {
      hide IsFrame, PrintFrame;
      var first, others := PrintFrame(frames[0]), PrintFrames(frames[1..]);
      FrameLayout(frames[0]);
      BodyLayout(frames[1..]);
      SplitAt(first, others);
      assert (first + others)[..|first|] == first;
    }
  }

  /** A message byte by byte: 0, 0, the fields of the global header, and the body. */
  ghost predicate IsPacket(p: seq<byte>, fileIndex: int, offset: int, seqNo: int, streams: int) {
    && |p| >= 42 && p[0] == 0 && p[1] == 0
    && Int64At(p, 2, fileIndex) && Int64At(p, 10, offset) && Int64At(p, 18, seqNo) && Int64At(p, 26, streams)
    && Int64At(p, 34, |p| - 42)
  }

  // ---- the other way round ----

  lemma {:induction false} BigEndianOf(bytes: seq<byte>)
    ensures FromBigEndian(bytes) < Pow256(|bytes|)
    ensures BigEndian(FromBigEndian(bytes), |bytes|) == bytes
  {
    if bytes != [] {
      var most, last := bytes[..|bytes| - 1], bytes[|bytes| - 1];
      BigEndianOf(most);
      var v := FromBigEndian(most);
      assert (v * 256 + last) / 256 == v && (v * 256 + last) % 256 == last;
      assert bytes == most + [last];
    }
  }

  lemma Int64Of(bytes: seq<byte>)
    requires |bytes| == 8
    ensures IsInt64(Int64Value(bytes)) && Int64Bytes(Int64Value(bytes)) == bytes
  {
    WordSizes();
    BigEndianOf(bytes);
    var u: int := FromBigEndian(bytes);
    hide BigEndian, FromBigEndian, Pow256;
    assert (u - TWO64) % TWO64 == u;
  }

  lemma Int16Of(bytes: seq<byte>)
    requires |bytes| == 2
    ensures Int16Bytes(Int16Value(bytes)) == bytes
  {
    WordSizes();
    BigEndianOf(bytes);
    var u: int := FromBigEndian(bytes);
    hide BigEndian, FromBigEndian, Pow256;
    assert (u - 0x1_0000) % 0x1_0000 == u;
  }

  lemma PartsOf(p: seq<byte>)
    requires |p| >= 42
    ensures p[0..2] + p[2..10] + p[10..18] + p[18..26] + p[26..34] + p[34..42] == p[..42]
    ensures p[..42] + p[42..] == p
  {
  }

  /** What is read off any 42 bytes is printed as these bytes. */
  lemma HeaderOf(p: seq<byte>)
    requires |p| >= 42
    ensures PrintHeader(ParseHeader(p)) == p[..42] && IsHeader(p, ParseHeader(p))
  {
    Int16Of(p[0..2]);
    Int64Of(p[2..10]);
    Int64Of(p[10..18]);
    Int64Of(p[18..26]);
    Int64Of(p[26..34]);
    Int64Of(p[34..42]);
    hide Int64Bytes, Int64Value, Int16Bytes, Int16Value, IsHeader;
    PartsOf(p);
    assert PrintHeader(ParseHeader(p)) == p[..42];
    hide PrintHeader, ParseHeader;
    HeaderLayout(ParseHeader(p), p[42..]);
  }
}
