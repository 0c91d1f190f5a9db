/** How rollV3 spreads the instructions of the scan over messages: it starts a new message at a loop head as soon as
    the current literal run is longer than a block. */
module MessageCuts {
  import opened Types
  import opened GreedyScan

  /** The length of the literal run at the end. */
  function TrailingLits(ops: seq<Op>): (n: nat)
    ensures n <= |ops|
  {
    if ops == [] || ops[|ops| - 1].Ref? then 0 else 1 + TrailingLits(ops[..|ops| - 1])
  }

  /** The messages still to come when the scan stands before `src` with `cur` already in the open message. */
  function Cuts(src: seq<byte>, table: Table, bs: nat, cur: seq<Op>): (parts: seq<seq<Op>>)
    requires 0 < bs <= |src|
    ensures parts != []
    decreases |src|, |cur|
  {
    if TrailingLits(cur) > bs then [cur] + Cuts(src, table, bs, [])
    else if Hit(src, table, bs) then
      var cur' := cur + [Ref(BlockHit(src, table, bs))];
      if |src| - bs > bs then Cuts(src[bs..], table, bs, cur') else [cur' + Lits(src[bs..])]
    else if |src| > bs then Cuts(src[1..], table, bs, cur + [Lit(src[0])])
    else [cur + Lits(src)]
  }

  /** Cutting neither drops, repeats nor reorders instructions. */
  lemma {:induction false} CutsFlatten(src: seq<byte>, table: Table, bs: nat, cur: seq<Op>)
    requires 0 < bs <= |src|
    ensures Flatten(Cuts(src, table, bs, cur)) == cur + Scan(src, table, bs)
    decreases |src|, |cur|
  {
    var parts := Cuts(src, table, bs, cur);
    if TrailingLits(cur) > bs {
      CutsFlatten(src, table, bs, []);
      assert parts[1..] == Cuts(src, table, bs, []);
    } else if Hit(src, table, bs) {
      var op := Ref(BlockHit(src, table, bs));
      if |src| - bs > bs {
        CutsFlatten(src[bs..], table, bs, cur + [op]);
        Shift(cur, op, Scan(src[bs..], table, bs));
      } else {
        Single(parts[0]);
        Shift(cur, op, Lits(src[bs..]));
      }
    } else if |src| > bs {
      CutsFlatten(src[1..], table, bs, cur + [Lit(src[0])]);
      Shift(cur, Lit(src[0]), Scan(src[1..], table, bs));
    } else {
      Single(parts[0]);
    }
  }

  lemma Shift<T>(xs: seq<T>, x: T, ys: seq<T>)
    ensures xs + [x] + ys == xs + ([x] + ys)
  {
  }

  lemma Single<T>(part: seq<T>)
    ensures Flatten([part]) == part
  {
  }

  /** No literal run of `ops` is longer than `limit`. */
  ghost predicate RunsAtMost(ops: seq<Op>, limit: nat) {
    forall j :: 0 <= j <= |ops| ==> TrailingLits(ops[..j]) <= limit
  }

  lemma RunsPush(ops: seq<Op>, op: Op, limit: nat)
    requires RunsAtMost(ops, limit) && (op.Lit? ==> TrailingLits(ops) < limit)
    ensures RunsAtMost(ops + [op], limit)
    ensures TrailingLits(ops + [op]) == if op.Lit? then TrailingLits(ops) + 1 else 0
  {
    var ops' := ops + [op];
    assert ops'[..|ops|] == ops;
    forall j | 0 <= j <= |ops'| ensures TrailingLits(ops'[..j]) <= limit {
      if j <= |ops| {
        assert ops'[..j] == ops[..j];
      } else {
        assert ops'[..j] == ops';
      }
    }
  }

  lemma {:induction false} RunsPushLits(ops: seq<Op>, bytes: seq<byte>, limit: nat)
    requires RunsAtMost(ops, limit) && TrailingLits(ops) + |bytes| <= limit
    ensures RunsAtMost(ops + Lits(bytes), limit)
    ensures TrailingLits(ops + Lits(bytes)) == TrailingLits(ops) + |bytes|
  {
    if bytes == [] {
      assert ops + Lits(bytes) == ops;
    } else {
      var most := bytes[..|bytes| - 1];
      RunsPushLits(ops, most, limit);
      RunsPush(ops + Lits(most), Lit(bytes[|bytes| - 1]), limit);
      assert ops + Lits(bytes) == ops + Lits(most) + [Lit(bytes[|bytes| - 1])];
    }
  }

  lemma RunsWiden(ops: seq<Op>, limit: nat, limit': nat)
    requires RunsAtMost(ops, limit) && limit <= limit'
    ensures RunsAtMost(ops, limit')
  {
  }

  /** The size of messages: every one but the last ends with a literal run of exactly bs + 1, and no message has a
      literal run longer than 2 * bs. */
  ghost predicate WellCut(parts: seq<seq<Op>>, bs: nat) {
    && (forall i :: 0 <= i < |parts| ==> RunsAtMost(parts[i], 2 * bs))
    && (forall i :: 0 <= i < |parts| - 1 ==> TrailingLits(parts[i]) == bs + 1)
  }

  lemma {:induction false} CutsWellCut(src: seq<byte>, table: Table, bs: nat, cur: seq<Op>)
    requires 0 < bs <= |src| && RunsAtMost(cur, bs + 1)
    ensures WellCut(Cuts(src, table, bs, cur), bs)
    decreases |src|, |cur|
  {
    assert cur[..|cur|] == cur;
    if TrailingLits(cur) > bs {
      CutsWellCut(src, table, bs, []);
      RunsWiden(cur, bs + 1, 2 * bs);
    } else if Hit(src, table, bs) {
      var op := Ref(BlockHit(src, table, bs));
      RunsPush(cur, op, bs + 1);
      if |src| - bs > bs {
        CutsWellCut(src[bs..], table, bs, cur + [op]);
      } else {
        RunsWiden(cur + [op], bs + 1, 2 * bs);
        RunsPushLits(cur + [op], src[bs..], 2 * bs);
      }
    } else if |src| > bs {
      RunsPush(cur, Lit(src[0]), bs + 1);
      CutsWellCut(src[1..], table, bs, cur + [Lit(src[0])]);
    } else {
      RunsWiden(cur, bs + 1, 2 * bs);
      RunsPushLits(cur, src, 2 * bs);
    }
  }

  lemma {:induction false} TrailingAreLits(ops: seq<Op>)
    ensures TrailingLits(ops) <= CountLits(ops)
  {
    if ops != [] && ops[|ops| - 1].Lit? {
      var most, last := ops[..|ops| - 1], ops[|ops| - 1];
      TrailingAreLits(most);
      CountLitsConcat(most, [last]);
      assert ops == most + [last];
    }
  }

  lemma {:induction false} CountLitsConcat(xs: seq<Op>, ys: seq<Op>)
    ensures CountLits(xs + ys) == CountLits(xs) + CountLits(ys)
  {
    if xs == [] {
      assert xs + ys == ys;
    } else {
      CountLitsConcat(xs[1..], ys);
      assert (xs + ys)[1..] == xs[1..] + ys;
    }
  }

  lemma {:induction false} FullMessagesCost(parts: seq<seq<Op>>, bs: nat)
    requires parts != [] && WellCut(parts, bs)
    ensures (|parts| - 1) * (bs + 1) <= CountLits(Flatten(parts))
  {
    if |parts| > 1 {
      var others := parts[1..];
      FullMessagesCost(others, bs);
      TrailingAreLits(parts[0]);
      CountLitsConcat(parts[0], Flatten(others));
      OneMore(|others| - 1, bs + 1);
    }
  }

  lemma OneMore(q: int, d: int)
    ensures (q + 1) * d == q * d + d
  {
  }

  /** The number of messages for a source: at most one more than the source has stretches of bs + 1 bytes. */
  lemma MessageCount(src: seq<byte>, table: Table, bs: nat)
    requires 0 < bs <= |src|
    ensures |Cuts(src, table, bs, [])| <= |src| / (bs + 1) + 1
  {
    hide CountLits, Cuts, Scan, Describes;
    var parts, ops := Cuts(src, table, bs, []), Scan(src, table, bs);
    CutsWellCut(src, table, bs, []);
    FullMessagesCost(parts, bs);
    CutsFlatten(src, table, bs, []);
    assert [] + ops == ops;
    ScanDescribes(src, table, bs);
    LitsWithin(ops, src, table, bs);
    QuotientBound(|parts| - 1, bs + 1, |src|);
  }

  lemma LitsWithin(ops: seq<Op>, src: seq<byte>, table: Table, bs: nat)
    requires Describes(ops, src, table, bs)
    ensures CountLits(ops) <= |src|
  {
    Conservation(ops, src, table, bs);
    assert CountRefs(ops) * bs >= 0;
  }

  lemma QuotientBound(q: nat, d: nat, n: nat)
    requires d > 0 && q * d <= n
    ensures q <= n / d
  {
    if q > n / d {
      OneMore(n / d, d);
      MulMonotone(n / d + 1, q, d);
      assert false;
    }
  }
}
