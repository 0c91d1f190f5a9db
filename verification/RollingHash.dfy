/** The rolling checksum of core/rolling_hash.go: a circular window with an update that does not depend on its size. */
module RollingHash {
  import opened Types
  import Adler32

  /** Go's uint32. Dafny proves that no operation on this type leaves its range, so none wraps. */
  newtype uint32 = x: int | 0 <= x < 0x1_0000_0000

  const MOD: uint32 := 65521

  /** The wrap-free update of the high half: `carry` is the multiple of the modulus that is at least `gone`, what the
      leaving byte contributed, so the subtraction stays positive and small. */
  lemma HighUpdate(high: int, n: int, leave: int, low: int, len: nat)
    requires n == len % Adler32.MOD && 0 <= leave < 256
    ensures var gone, carry := n * leave, (n * leave / Adler32.MOD + 1) * Adler32.MOD;
            && 0 <= gone < carry <= gone + Adler32.MOD <= 0x200_0000
            && (high + carry + low - gone - 1) % Adler32.MOD == (high - len * leave + low - 1) % Adler32.MOD
  {
    var q := len / Adler32.MOD;
    assert n * leave <= 65520 * 255;
    assert len * leave == q * leave * Adler32.MOD + n * leave;
    Adler32.AddMultiple(high - len * leave + low - 1, n * leave / Adler32.MOD + 1 + q * leave);
  }

  /** The new high half, in 32-bit arithmetic. */
  function HighAfter(high: uint32, n: uint32, leave: uint32, low: uint32, ghost len: nat): (r: uint32)
    requires high < MOD && low < MOD && leave < 256 && n as int == len % Adler32.MOD
    ensures r as int == (high as int - len * leave as int + low as int - 1) % Adler32.MOD
  {
    HighUpdate(high as int, n as int, leave as int, low as int, len);
    assert (n as int) * (leave as int) < 0x200_0000;
    assert ((n * leave / MOD) as int + 1) * (MOD as int) <= 0x200_0000;
    (high + (n * leave / MOD + 1) * MOD + low - (n * leave) - 1) % MOD
  }

  class Radler32 {
    var a: uint32
    var b: uint32
    var n: uint32
    var window: seq<byte>
    var oldest: nat

    /** The bytes of the window from the oldest to the newest. */
    ghost function Logical(): seq<byte>
      requires oldest <= |window|
      reads this
    {
      window[oldest..] + window[..oldest]
    }

    ghost predicate Valid()
      reads this
      ensures Valid() ==> oldest <= |window|
    {
      && oldest <= |window|
      && (window == [] <==> oldest == |window|)
      && a as int == Adler32.Low(Logical())
      && b as int == Adler32.High(Logical())
      && n as int == |window| % Adler32.MOD
    }

    /** Pour */
    constructor ()
      ensures Valid() && Logical() == []
    {
      a, b, n := 1, 0, 0;
      window, oldest := [], 0;
    }

    method Reset()
      modifies this
      ensures Valid() && Logical() == []
    {
      window, oldest := [], 0;
      a, b, n := 1, 0, 0;
    }

    /** Rotates the circular buffer so that the oldest byte comes first. */
    method Sort()
      requires Valid()
      modifies this
      ensures Valid() && oldest == 0
      ensures window == Logical() == old(Logical())
      ensures a == old(a) && b == old(b) && n == old(n)
    {
      var len := |window|;
      if oldest != 0 {
        var tmp := window[..oldest];
        window := window[oldest..] + window[len - oldest..];
        window := window[..len - oldest] + tmp;
        oldest := 0;
      }
      assert window[0..] + window[..0] == window;
    }

    /** Appends `data` to the window and recomputes the digest from scratch. */
    method Write(data: seq<byte>)
      requires Valid()
      modifies this
      ensures Valid()
      ensures Logical() == old(Logical()) + data
    {
      if data == [] {
        assert Logical() + data == Logical();
        return;
      }
      Sort();
      window := window + data;
      assert Logical() == window;
      a := Adler32.Low(window) as uint32;
      b := Adler32.High(window) as uint32;
      n := (|window| % Adler32.MOD) as uint32;
    }

    /** The digest is always Adler-32 of the logical window. */
    method Sum32() returns (sum: uint32)
      requires Valid()
      ensures sum as int == Adler32.Sum(Logical())
      ensures sum as int % 65536 == (1 + Adler32.Plain(Logical())) % 65521
      ensures sum as int / 65536 == (|Logical()| + Adler32.Weighted(Logical())) % 65521
    {
      sum := b * 65536 + a;
      Adler32.SumHalves(Logical());
    }

    /** Pushes a byte in, returns the byte that leaves. */
    method Roll(enterByte: byte) returns (left: byte)
      requires Valid() && window != []
      modifies this
      ensures Valid()
      ensures left == old(Logical())[0]
      ensures Logical() == old(Logical())[1..] + [enterByte]
    {
      ghost var before, a0, b0 := Logical(), a as int, b as int;
      assert before[0] == window[oldest];
      left := window[oldest];
      var enter := enterByte as uint32;
      var leave := left as uint32;

      window := window[oldest := enterByte];
      oldest := oldest + 1;
      if oldest >= |window| {
        oldest := 0;
      }
      assert Logical() == before[1..] + [enterByte];

      a := (a + MOD + enter - leave) % MOD;
      Adler32.AddMultiple(a0 + enterByte - left, 1);
      b := HighAfter(b, n, leave, a, |window|);
      Adler32.Slide(before, enterByte, Logical(), |before| * left);
    }

    method GetWindow() returns (w: seq<byte>)
      requires Valid()
      modifies this
      ensures Valid() && w == Logical() == old(Logical())
    {
      Sort();
      w := window;
    }
  }
}
