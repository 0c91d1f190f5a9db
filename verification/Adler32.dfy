/** Adler-32 as section 2.2 of RFC 1950 defines it, and the identity behind the rolling update. */
module Adler32 {
  import opened Types

  const MOD: int := 65521

  /** The running sum s1: one plus every byte, modulo 65521. */
  function Low(w: seq<byte>): (s1: nat)
    ensures s1 < MOD
  {
    if w == [] then 1 else (Low(w[..|w| - 1]) + w[|w| - 1]) % MOD
  }

  /** The running sum s2: the sum of all values s1 has had. */
  function High(w: seq<byte>): (s2: nat)
    ensures s2 < MOD
  {
    if w == [] then 0 else (High(w[..|w| - 1]) + Low(w)) % MOD
  }

  function Sum(w: seq<byte>): (s: nat)
    ensures s < 0x1_0000_0000
  {
    High(w) * 65536 + Low(w)
  }

  /** The unreduced byte sum. */
  function Plain(w: seq<byte>): nat {
    if w == [] then 0 else Plain(w[..|w| - 1]) + w[|w| - 1]
  }

  /** The unreduced sum of all prefix sums: byte i counts |w| - i times. */
  function Weighted(w: seq<byte>): nat {
    if w == [] then 0 else Weighted(w[..|w| - 1]) + Plain(w)
  }

  /** Reducing the operands of a sum first does not change its residue. */
  lemma ReduceFirst(x: int, y: int)
    ensures (x % MOD + y) % MOD == (x + y) % MOD
    ensures (y + x % MOD) % MOD == (x + y) % MOD
    ensures (y - x % MOD) % MOD == (y - x) % MOD
  {
    assert x == x / MOD * MOD + x % MOD;
    AddMultiple(x % MOD + y, x / MOD);
    AddMultiple(y - x, x / MOD);
  }

  lemma AddMultiple(x: int, k: int)
    ensures (x + k * MOD) % MOD == x % MOD
  {
  }

  lemma {:induction false} ClosedForm(w: seq<byte>)
    ensures Low(w) == (1 + Plain(w)) % MOD
    ensures High(w) == (|w| + Weighted(w)) % MOD
  {
    if w != [] {
      var v, last := w[..|w| - 1], w[|w| - 1];
      ClosedForm(v);
      ReduceFirst(1 + Plain(v), last);
      ReduceFirst(|v| + Weighted(v), Low(w));
      ReduceFirst(1 + Plain(w), |v| + Weighted(v));
    }
  }

  /** The sum as the standard lays it out: s1 in the low 16 bits, s2 in the high ones. */
  lemma SumHalves(w: seq<byte>)
    ensures Sum(w) % 65536 == (1 + Plain(w)) % 65521
    ensures Sum(w) / 65536 == (|w| + Weighted(w)) % 65521
  {
    ClosedForm(w);
  }

  /** The unreduced sums byte by byte: each byte counts once, and as often as it is bytes away from the end. */
  lemma {:induction false} DropFront(x: byte, v: seq<byte>)
    ensures Plain([]) == 0 && Weighted([]) == 0
    ensures Plain([x] + v) == x + Plain(v)
    ensures Weighted([x] + v) == (|v| + 1) * x + Weighted(v)
  {
    var w := [x] + v;
    assert Plain([]) == 0 && Weighted([]) == 0;
    if v == [] {
      assert w[..|w| - 1] == [];
    } else {
      assert w[..|w| - 1] == [x] + v[..|v| - 1];
      DropFront(x, v[..|v| - 1]);
    }
  }

  /** Sliding a window by one byte, on the unreduced sums. */
  lemma SlideUnreduced(w: seq<byte>, enter: byte, w': seq<byte>)
    requires w != [] && w' == w[1..] + [enter]
    ensures Plain(w') == Plain(w) - w[0] + enter
    ensures Weighted(w') == Weighted(w) - |w| * w[0] + Plain(w')
  {
    var v := w[1..];
    assert w == [w[0]] + v;
    DropFront(w[0], v);
    assert w'[..|w'| - 1] == v;
  }

  /** Sliding a non-empty window by one byte changes both sums by an expression in the byte that leaves, the byte
      that enters and the old sums; `gone` is what the leaving byte contributed to the high sum. */
  lemma Slide(w: seq<byte>, enter: byte, w': seq<byte>, gone: int)
    requires w != [] && w' == w[1..] + [enter]
    requires gone == |w| * w[0]
    ensures Low(w') == (Low(w) + enter - w[0]) % MOD
    ensures High(w') == (High(w) - gone + Low(w') - 1) % MOD
  {
    SlideUnreduced(w, enter, w');
    SlideLow(w, w', enter - w[0]);
    SlideHigh(w, w', gone);
  }

  lemma SlideLow(w: seq<byte>, w': seq<byte>, change: int)
    requires Plain(w') == Plain(w) + change
    ensures Low(w') == (Low(w) + change) % MOD
  {
    ClosedForm(w);
    ClosedForm(w');
    ReduceFirst(1 + Plain(w), change);
  }

  lemma SlideHigh(w: seq<byte>, w': seq<byte>, gone: int)
    requires |w'| == |w| && Weighted(w') == Weighted(w) - gone + Plain(w')
    ensures High(w') == (High(w) - gone + Low(w') - 1) % MOD
  {
    ClosedForm(w);
    ClosedForm(w');
    var h, l := |w| + Weighted(w), 1 + Plain(w');
    ReduceFirst(h, l % MOD - gone - 1);
    ReduceFirst(l, h - gone - 1);
    assert h + (l - gone - 1) == |w'| + Weighted(w');
    assert (h % MOD - gone + l % MOD - 1) % MOD == (h % MOD + (l % MOD - gone - 1)) % MOD;
  }

  /** The product k * d, computed without multiplying. */
  function Times(d: int, k: nat): int {
    if k == 0 then 0 else Times(d, k - 1) + d
  }

  lemma {:induction false} TimesIs(k: nat)
    ensures Times(1, k) == k && Times(-2, k) == -2 * k
  {
    if k != 0 {
      TimesIs(k - 1);
    }
  }

  /** Replacing a byte changes the position-weighted sum by its distance from the end. */
  lemma {:induction false} Replace(w: seq<byte>, j: nat, x: byte)
    requires j < |w|
    ensures Plain(w[j := x]) == Plain(w) - w[j] + x
    ensures Weighted(w[j := x]) == Weighted(w) + Times(x - w[j], |w| - j)
  {
    var n := |w| - 1;
    if j < n {
      Replace(w[..n], j, x);
      assert w[j := x][..n] == w[..n][j := x];
    } else {
      assert w[j := x][..n] == w[..n];
      assert Times(x - w[j], 1) == Times(x - w[j], 0) + (x - w[j]);
    }
  }

  predicate CanCollide(w: seq<byte>, j: nat) {
    j + 2 < |w| && w[j] <= 254 && w[j + 1] >= 2 && w[j + 2] <= 254
  }

  /** Three neighbouring bytes changed by one, minus two and one. */
  function Colliding(w: seq<byte>, j: nat): (w': seq<byte>)
    requires CanCollide(w, j)
    ensures |w'| == |w| && w'[j] != w[j]
  {
    w[j := w[j] + 1][j + 1 := w[j + 1] - 2][j + 2 := w[j + 2] + 1]
  }

  /** The changed window has the same sum. */
  lemma CollidingSum(w: seq<byte>, j: nat)
    requires CanCollide(w, j)
    ensures Sum(Colliding(w, j)) == Sum(w) && Colliding(w, j) != w
  {
    hide Low, High, Plain, Weighted, Times;
    var w1 := w[j := w[j] + 1];
    var w2 := w1[j + 1 := w[j + 1] - 2];
    var w3, k := Colliding(w, j), |w| - j;
    Replace(w, j, w[j] + 1);
    Replace(w1, j + 1, w[j + 1] - 2);
    Replace(w2, j + 2, w[j + 2] + 1);
    TimesIs(k);
    TimesIs(k - 1);
    TimesIs(k - 2);
    assert Plain(w3) == Plain(w) && Weighted(w3) == Weighted(w);
    ClosedForm(w);
    ClosedForm(w3);
  }
}
