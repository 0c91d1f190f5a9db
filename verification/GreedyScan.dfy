/** What rollV3 means: a greedy left-to-right scan that recomputes Adler-32 at every position. */
module GreedyScan {
  import opened Types
  import Adler32

  /** Sum to block index; of equal sums the last one wins. */
  type Table = map<nat, nat>

  function TableOf(weak: seq<nat>): Table {
    if weak == [] then map[] else TableOf(weak[..|weak| - 1])[weak[|weak| - 1] := |weak| - 1]
  }

  lemma {:induction false} TableLookup(weak: seq<nat>, s: nat)
    ensures s in TableOf(weak) <==> s in weak
    ensures s in TableOf(weak) ==>
              && TableOf(weak)[s] < |weak| && weak[TableOf(weak)[s]] == s
              && forall i :: TableOf(weak)[s] < i < |weak| ==> weak[i] != s
  {
    if weak != [] {
      TableLookup(weak[..|weak| - 1], s);
      assert weak == weak[..|weak| - 1] + [weak[|weak| - 1]];
    }
  }

  predicate Hit(src: seq<byte>, table: Table, bs: nat)
    requires bs <= |src|
  {
    Adler32.Sum(src[..bs]) in table
  }

  function BlockHit(src: seq<byte>, table: Table, bs: nat): nat
    requires bs <= |src| && Hit(src, table, bs)
  {
    table[Adler32.Sum(src[..bs])]
  }

  /** The instructions for `src`, whose first block is the current window. */
  function Scan(src: seq<byte>, table: Table, bs: nat): seq<Op>
    requires 0 < bs <= |src|
    decreases |src|
  {
    if Hit(src, table, bs) then
      [Ref(BlockHit(src, table, bs))] +
      (if |src| - bs > bs then Scan(src[bs..], table, bs) else Lits(src[bs..]))
    else if |src| > bs then [Lit(src[0])] + Scan(src[1..], table, bs)
    else Lits(src)
  }

  /** The file the instructions describe: a literal is the next byte, a reference a block whose sum is in the table. */
  predicate Describes(ops: seq<Op>, src: seq<byte>, table: Table, bs: nat) {
    if ops == [] then src == []
    else match ops[0]
      case Lit(b) => src != [] && src[0] == b && Describes(ops[1..], src[1..], table, bs)
      case Ref(k) =>
        && bs <= |src| && Hit(src, table, bs) && BlockHit(src, table, bs) == k
        && Describes(ops[1..], src[bs..], table, bs)
  }

  lemma {:induction false} LitsDescribe(src: seq<byte>, table: Table, bs: nat)
    ensures Describes(Lits(src), src, table, bs)
  {
    if src != [] {
      LitsDescribe(src[1..], table, bs);
      assert Lits(src)[1..] == Lits(src[1..]);
    }
  }

  lemma {:induction false} ScanDescribes(src: seq<byte>, table: Table, bs: nat)
    requires 0 < bs <= |src|
    ensures Describes(Scan(src, table, bs), src, table, bs)
    decreases |src|
  {
    var ops := Scan(src, table, bs);
    if Hit(src, table, bs) {
      if |src| - bs > bs {
        ScanDescribes(src[bs..], table, bs);
        assert ops[1..] == Scan(src[bs..], table, bs);
      } else {
        LitsDescribe(src[bs..], table, bs);
        assert ops[1..] == Lits(src[bs..]);
      }
    } else if |src| > bs {
      ScanDescribes(src[1..], table, bs);
      assert ops[1..] == Scan(src[1..], table, bs);
    } else {
      LitsDescribe(src, table, bs);
    }
  }

  /** What the scan decides at offset p, where `afterHit` says that a block was just matched: it tests a window only if
      a whole block is left, and directly behind a match only if more than a block is left. */
  predicate TakesHit(src: seq<byte>, p: nat, afterHit: bool, table: Table, bs: nat) {
    && p + bs <= |src| && !(afterHit && p + bs == |src|)
    && Adler32.Sum(src[p..p + bs]) in table
  }

  /** The right instruction for offset p. */
  predicate Decided(op: Op, src: seq<byte>, p: nat, afterHit: bool, table: Table, bs: nat) {
    && p < |src|
    && if TakesHit(src, p, afterHit, table, bs) then op == Ref(table[Adler32.Sum(src[p..p + bs])])
       else op == Lit(src[p])
  }

  /** The scan is greedy: at every offset it reaches, the instruction is a reference exactly if the window there is
      tested and hits, and then it names the table's block; otherwise it is the source's byte. */
  lemma {:induction false} ScanIsGreedy(src: seq<byte>, table: Table, bs: nat, i: nat)
    requires 0 < bs <= |src| && i < |Scan(src, table, bs)|
    ensures var ops := Scan(src, table, bs);
            Decided(ops[i], src, Span(ops[..i], bs), i > 0 && ops[i - 1].Ref?, table, bs)
    decreases |src|
  {
    FirstDecided(src, table, bs);
    ScanShape(src, table, bs);
    if i > 0 {
      var ops := Scan(src, table, bs);
      var n := Width(ops[0], bs);
      hide Scan, Span, Decided;
      if Continues(src, table, bs) {
        ScanIsGreedy(src[n..], table, bs, i - 1);
        OneFurther(ops, src, table, bs, i);
      } else {
        hide Width;
        TailIsGreedy(ops, src, table, bs, i);
      }
    }
  }

  /** An instruction decided for what follows the first one is decided for the whole. */
  lemma OneFurther(ops: seq<Op>, src: seq<byte>, table: Table, bs: nat, i: nat)
    requires 0 < i < |ops| && Width(ops[0], bs) <= |src|
    requires ops[0].Ref? ==> bs < |src| - bs
    requires Decided(ops[1..][i - 1], src[Width(ops[0], bs)..], Span(ops[1..][..i - 1], bs),
                     i > 1 && ops[1..][i - 2].Ref?, table, bs)
    ensures Decided(ops[i], src, Span(ops[..i], bs), ops[i - 1].Ref?, table, bs)
  {
    SpanFirst(ops, i, bs);
    assert ops[1..][..0] == [];
    hide Decided;
    LaterDecided(ops[i], src, Width(ops[0], bs), Span(ops[1..][..i - 1], bs), i > 1 && ops[i - 1].Ref?,
                 ops[i - 1].Ref?, table, bs);
  }

  /** Behind the last window there are only literals. */
  lemma TailIsGreedy(ops: seq<Op>, src: seq<byte>, table: Table, bs: nat, i: nat)
    requires 0 < bs <= |src| && !Continues(src, table, bs) && 0 < i < |ops|
    requires (ops[0].Ref? <==> Hit(src, table, bs)) && Width(ops[0], bs) <= |src|
    requires ops[1..] == Lits(src[Width(ops[0], bs)..])
    ensures Decided(ops[i], src, Span(ops[..i], bs), ops[i - 1].Ref?, table, bs)
  {
    var n := Width(ops[0], bs);
    SpanFirst(ops, i, bs);
    hide Decided, Span;
    TailSpan(src[n..], i - 1, bs);
    TailDecided(src, table, bs, n, i - 1, ops[i - 1].Ref?);
  }

  /** Does the scan go on behind the first instruction, or is everything left literal? */
  predicate Continues(src: seq<byte>, table: Table, bs: nat)
    requires 0 < bs <= |src|
  {
    if Hit(src, table, bs) then |src| - bs > bs else |src| > bs
  }

  lemma ScanShape(src: seq<byte>, table: Table, bs: nat)
    requires 0 < bs <= |src|
    ensures var ops := Scan(src, table, bs);
            && ops != [] && (ops[0].Ref? <==> Hit(src, table, bs)) && Width(ops[0], bs) <= |src|
            && (Continues(src, table, bs) ==> bs <= |src| - Width(ops[0], bs))
            && ops[1..] == if Continues(src, table, bs) then Scan(src[Width(ops[0], bs)..], table, bs)
                           else Lits(src[Width(ops[0], bs)..])
  {
    assert Lits(src)[1..] == Lits(src[1..]);
  }

  lemma TailDecided(src: seq<byte>, table: Table, bs: nat, n: nat, k: nat, afterHit: bool)
    requires 0 < bs <= |src| && !Continues(src, table, bs) && n == (if Hit(src, table, bs) then bs else 1)
    requires k < |src| - n && (afterHit <==> k == 0 && Hit(src, table, bs))
    ensures Decided(Lits(src[n..])[k], src, n + k, afterHit, table, bs)
  {
  }

  lemma FirstDecided(src: seq<byte>, table: Table, bs: nat)
    requires 0 < bs <= |src|
    ensures var ops := Scan(src, table, bs);
            ops != [] && Span(ops[..0], bs) == 0 && Decided(ops[0], src, 0, false, table, bs)
  {
    assert src[0..bs] == src[..bs];
    assert Scan(src, table, bs)[..0] == [];
  }

  lemma LaterDecided(op: Op, src: seq<byte>, n: nat, p: nat, before: bool, afterHit: bool, table: Table, bs: nat)
    requires n <= |src| && Decided(op, src[n..], p, before, table, bs)
    requires before == afterHit || p + bs != |src| - n
    ensures Decided(op, src, n + p, afterHit, table, bs)
  {
    if n + p + bs <= |src| {
      assert src[n..][p..p + bs] == src[n + p..n + p + bs];
    }
  }

  lemma {:induction false} TailSpan(bytes: seq<byte>, i: nat, bs: nat)
    requires i <= |bytes|
    ensures Span(Lits(bytes)[..i], bs) == i
  {
    if i > 0 {
      TailSpan(bytes[1..], i - 1, bs);
      assert Lits(bytes)[..i][1..] == Lits(bytes[1..])[..i - 1];
    }
  }

  /** How many bytes of the source the instructions span. */
  function Span(ops: seq<Op>, bs: nat): nat {
    if ops == [] then 0 else (if ops[0].Lit? then 1 else bs) + Span(ops[1..], bs)
  }

  function CountLits(ops: seq<Op>): nat {
    if ops == [] then 0 else (if ops[0].Lit? then 1 else 0) + CountLits(ops[1..])
  }

  function CountRefs(ops: seq<Op>): nat {
    if ops == [] then 0 else (if ops[0].Ref? then 1 else 0) + CountRefs(ops[1..])
  }

  lemma OneMoreBlock(refs: nat, bs: nat)
    ensures (refs + 1) * bs == refs * bs + bs
  {
  }

  /** Nothing is lost or duplicated: literals plus block-sized references add up to the source. */
  lemma {:induction false} Conservation(ops: seq<Op>, src: seq<byte>, table: Table, bs: nat)
    requires Describes(ops, src, table, bs)
    ensures Span(ops, bs) == |src|
    ensures CountLits(ops) + CountRefs(ops) * bs == |src|
  {
    if ops != [] {
      OneMoreBlock(CountRefs(ops[1..]), bs);
      match ops[0]
      case Lit(b) => Conservation(ops[1..], src[1..], table, bs);
      case Ref(k) => Conservation(ops[1..], src[bs..], table, bs);
    }
  }

  // ---- rebuilding ----

  /** Seeking to block `v` of the reference file and copying one block: it fails without a reference file, before its
      start, and when fewer than `bs` bytes are left. */
  function Block(reference: Option<seq<byte>>, v: int, bs: nat): Option<seq<byte>> {
    if reference.None? then None
    else
      var start := Wrap64(v * bs);
      if 0 <= start && start + bs <= |reference.value| then Some(reference.value[start..start + bs])
      else if 0 <= start && bs == 0 then Some([])
      else None
  }

  /** What the receiver makes of the instructions. */
  function Apply(ops: seq<Op>, reference: Option<seq<byte>>, bs: nat): Option<seq<byte>> {
    if ops == [] then Some([])
    else
      var first := match ops[0] case Lit(b) => Some([b]) case Ref(k) => Block(reference, k, bs);
      var others := Apply(ops[1..], reference, bs);
      if first.None? || others.None? then None else Some(first.value + others.value)
  }

  lemma {:induction false} ApplyConcat(xs: seq<Op>, ys: seq<Op>, reference: Option<seq<byte>>, bs: nat)
    ensures var x, y, xy := Apply(xs, reference, bs), Apply(ys, reference, bs), Apply(xs + ys, reference, bs);
            xy == if x.None? || y.None? then None else Some(x.value + y.value)
  {
    if xs == [] {
      assert xs + ys == ys;
      assert Apply(ys, reference, bs).Some? ==> [] + Apply(ys, reference, bs).value == Apply(ys, reference, bs).value;
    } else {
      ApplyConcat(xs[1..], ys, reference, bs);
      assert (xs + ys)[1..] == xs[1..] + ys;
      var x, y := Apply(xs[1..], reference, bs), Apply(ys, reference, bs);
      var first := match xs[0] case Lit(b) => Some([b]) case Ref(k) => Block(reference, k, bs);
      if first.Some? && x.Some? && y.Some? {
        assert first.value + (x.value + y.value) == first.value + x.value + y.value;
      }
    }
  }

  lemma {:induction false} ApplyLits(bytes: seq<byte>, reference: Option<seq<byte>>, bs: nat)
    ensures Apply(Lits(bytes), reference, bs) == Some(bytes)
  {
    if bytes != [] {
      ApplyLits(bytes[1..], reference, bs);
      assert Lits(bytes)[1..] == Lits(bytes[1..]);
      assert bytes == [bytes[0]] + bytes[1..];
    }
  }

  /** At every position the scan visits, a table hit names a full block of the reference file equal to the window. */
  predicate NoFalseHit(src: seq<byte>, table: Table, reference: Option<seq<byte>>, bs: nat)
    requires 0 < bs <= |src|
    decreases |src|
  {
    if Hit(src, table, bs) then
      && Block(reference, BlockHit(src, table, bs), bs) == Some(src[..bs])
      && (|src| - bs > bs ==> NoFalseHit(src[bs..], table, reference, bs))
    else |src| > bs ==> NoFalseHit(src[1..], table, reference, bs)
  }

  /** At every position the scan visits, a table hit names a full block of the reference file. */
  predicate HitsAreFull(src: seq<byte>, table: Table, reference: Option<seq<byte>>, bs: nat)
    requires 0 < bs <= |src|
    decreases |src|
  {
    if Hit(src, table, bs) then
      && Block(reference, BlockHit(src, table, bs), bs).Some?
      && (|src| - bs > bs ==> HitsAreFull(src[bs..], table, reference, bs))
    else |src| > bs ==> HitsAreFull(src[1..], table, reference, bs)
  }

  /** The rebuilt file exists exactly when no hit names a missing or short block, and then has the source's length. */
  lemma {:induction false} RebuildSucceeds(src: seq<byte>, table: Table, reference: Option<seq<byte>>, bs: nat)
    requires 0 < bs <= |src|
    ensures var out := Apply(Scan(src, table, bs), reference, bs);
            && (out.Some? <==> HitsAreFull(src, table, reference, bs))
            && (out.Some? ==> |out.value| == |src|)
    decreases |src|
  {
    var ops := Scan(src, table, bs);
    if Hit(src, table, bs) {
      if |src| - bs > bs {
        RebuildSucceeds(src[bs..], table, reference, bs);
        assert ops[1..] == Scan(src[bs..], table, bs);
      } else {
        ApplyLits(src[bs..], reference, bs);
        assert ops[1..] == Lits(src[bs..]);
      }
    } else if |src| > bs {
      RebuildSucceeds(src[1..], table, reference, bs);
      assert ops[1..] == Scan(src[1..], table, bs);
    } else {
      ApplyLits(src, reference, bs);
    }
  }

  /** The rebuilt file is the source exactly when the scan meets no false hit. */
  lemma {:induction false} RebuildIsSource(src: seq<byte>, table: Table, reference: Option<seq<byte>>, bs: nat)
    requires 0 < bs <= |src|
    ensures Apply(Scan(src, table, bs), reference, bs) == Some(src) <==> NoFalseHit(src, table, reference, bs)
    decreases |src|
  {
    var ops := Scan(src, table, bs);
    if Hit(src, table, bs) {
      assert src == src[..bs] + src[bs..];
      if |src| - bs > bs {
        RebuildIsSource(src[bs..], table, reference, bs);
        assert ops[1..] == Scan(src[bs..], table, bs);
      } else {
        ApplyLits(src[bs..], reference, bs);
        assert ops[1..] == Lits(src[bs..]);
      }
      SplitEqual(Block(reference, BlockHit(src, table, bs), bs), Apply(ops[1..], reference, bs), src, bs);
    } else if |src| > bs {
      RebuildIsSource(src[1..], table, reference, bs);
      assert ops[1..] == Scan(src[1..], table, bs);
      SplitEqual(Some([src[0]]), Apply(ops[1..], reference, bs), src, 1);
    } else {
      ApplyLits(src, reference, bs);
    }
  }

  /** Two concatenations with first parts of equal length agree exactly when both parts do. */
  lemma SplitEqual(first: Option<seq<byte>>, others: Option<seq<byte>>, src: seq<byte>, n: nat)
    requires n <= |src| && (first.Some? ==> |first.value| == n)
    ensures first.Some? && others.Some? ==>
              (first.value + others.value == src <==> first.value == src[..n] && others.value == src[n..])
  {
  }

  /** At offset p, `out` carries what `op` says about `src`: the source's byte for a literal; for a reference, the
      named block where the source has a window with that table entry. */
  ghost predicate Placed(op: Op, src: seq<byte>, out: seq<byte>, p: nat, table: Table, reference: Option<seq<byte>>,
                         bs: nat)
  {
    match op
    case Lit(b) => p < |src| && p < |out| && src[p] == b == out[p]
    case Ref(k) =>
      && p + bs <= |src| && p + bs <= |out|
      && Hit(src[p..], table, bs) && BlockHit(src[p..], table, bs) == k
      && Block(reference, k, bs) == Some(out[p..p + bs])
  }

  lemma PlacedShift(op: Op, src: seq<byte>, out: seq<byte>, n: nat, p: nat, table: Table,
                    reference: Option<seq<byte>>, bs: nat)
    requires n <= |src| && n <= |out| && Placed(op, src[n..], out[n..], p, table, reference, bs)
    ensures Placed(op, src, out, n + p, table, reference, bs)
  {
    if op.Ref? {
      assert src[n..][p..] == src[n + p..];
      assert out[n..][p..p + bs] == out[n + p..n + p + bs];
    }
  }

  function Width(op: Op, bs: nat): nat {
    if op.Lit? then 1 else bs
  }

  /** The first instruction is honoured at the start, the others behind what it spans. */
  lemma FirstPlaced(ops: seq<Op>, src: seq<byte>, out: seq<byte>, table: Table, reference: Option<seq<byte>>, bs: nat)
    requires Describes(ops, src, table, bs) && Apply(ops, reference, bs) == Some(out) && ops != []
    ensures var n := Width(ops[0], bs);
            && n <= |src| && n <= |out| && Placed(ops[0], src, out, 0, table, reference, bs)
            && Describes(ops[1..], src[n..], table, bs) && Apply(ops[1..], reference, bs) == Some(out[n..])
  {
    var n := Width(ops[0], bs);
    assert src[0..] == src;
    var others := Apply(ops[1..], reference, bs).value;
    var first := match ops[0] case Lit(b) => [b] case Ref(k) => Block(reference, k, bs).value;
    assert out == first + others && |first| == n;
    hide Apply, Describes, Block, Hit;
    SplitAt(first, others);
    assert out[0..n] == out[..n];
  }

  lemma SpanFirst(ops: seq<Op>, i: nat, bs: nat)
    requires 0 < i <= |ops|
    ensures Span(ops[..i], bs) == Width(ops[0], bs) + Span(ops[1..][..i - 1], bs)
  {
    assert ops[..i][1..] == ops[1..][..i - 1];
  }

  /** Whatever the table: every instruction is honoured at the offset that the ones before it span. */
  lemma {:induction false} RebuiltAt(ops: seq<Op>, src: seq<byte>, out: seq<byte>, table: Table,
                                     reference: Option<seq<byte>>, bs: nat, i: nat)
    requires Describes(ops, src, table, bs) && Apply(ops, reference, bs) == Some(out) && i < |ops|
    ensures Placed(ops[i], src, out, Span(ops[..i], bs), table, reference, bs)
  {
    FirstPlaced(ops, src, out, table, reference, bs);
    hide Apply, Describes, Placed;
    if i > 0 {
      hide Span;
      var n := Width(ops[0], bs);
      RebuiltAt(ops[1..], src[n..], out[n..], table, reference, bs, i - 1);
      SpanFirst(ops, i, bs);
      PlacedShift(ops[i], src, out, n, Span(ops[1..][..i - 1], bs), table, reference, bs);
    } else {
      assert ops[..0] == [];
    }
  }

  lemma {:induction false} ApplyLength(ops: seq<Op>, src: seq<byte>, out: seq<byte>, table: Table,
                                       reference: Option<seq<byte>>, bs: nat)
    requires Describes(ops, src, table, bs) && Apply(ops, reference, bs) == Some(out)
    ensures |out| == |src|
  {
    if ops != [] {
      FirstPlaced(ops, src, out, table, reference, bs);
      hide Apply, Describes, Placed;
      var n := Width(ops[0], bs);
      ApplyLength(ops[1..], src[n..], out[n..], table, reference, bs);
    }
  }
}
