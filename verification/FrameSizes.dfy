/** The size of the messages of the delta encoder, in frames. */
module FrameSizes {
  import opened Types
  import opened Wire
  import opened GreedyScan
  import opened MessageCuts
  import opened Interpreter

  /** The last frame is the literal run of n bytes at the end, if there is one. */
  predicate EndsIn(frames: seq<Frame>, n: nat) {
    if n == 0 then frames == [] || frames[|frames| - 1].IndexFrame?
    else frames != [] && frames[|frames| - 1].DataFrame? && |frames[|frames| - 1].bytes| == n
  }

  lemma AddOpEnds(frames: seq<Frame>, op: Op, n: nat)
    requires EndsIn(frames, n)
    ensures EndsIn(AddOp(frames, op), if op.Lit? then n + 1 else 0)
  {
  }

  /** A literal run at the end is one data frame at the end. */
  lemma {:induction false} LastFrame(ops: seq<Op>)
    ensures EndsIn(Group(ops), TrailingLits(ops))
  {
    hide EndsIn, AddOp;
    if ops == [] {
      NothingEnds();
    } else {
      var most, last := ops[..|ops| - 1], ops[|ops| - 1];
      LastFrame(most);
      AddOpEnds(Group(most), last, TrailingLits(most));
    }
  }

  lemma NothingEnds()
    ensures EndsIn([], 0)
  {
  }

  ghost predicate DataAtMost(frames: seq<Frame>, limit: nat) {
    forall i :: 0 <= i < |frames| && frames[i].DataFrame? ==> |frames[i].bytes| <= limit
  }

  lemma RunsPrefix(ops: seq<Op>, limit: nat)
    requires RunsAtMost(ops, limit) && ops != []
    ensures RunsAtMost(ops[..|ops| - 1], limit) && TrailingLits(ops) <= limit
  {
    hide TrailingLits;
    var most := ops[..|ops| - 1];
    forall j | 0 <= j <= |most| ensures TrailingLits(most[..j]) <= limit {
      assert most[..j] == ops[..j];
    }
    assert ops[..|ops|] == ops;
  }

  lemma {:induction false} RunsAreFrames(ops: seq<Op>, limit: nat)
    requires RunsAtMost(ops, limit)
    ensures DataAtMost(Group(ops), limit)
  {
    hide TrailingLits, RunsAtMost;
    if ops != [] {
      RunsPrefix(ops, limit);
      RunsAreFrames(ops[..|ops| - 1], limit);
      LastFrame(ops);
    }
  }

  /** Every message of the encoder but the last ends in a data frame of exactly bs + 1 bytes, and no message has a data
      frame of more than 2 * bs. */
  lemma MessageFrames(src: seq<byte>, table: Table, bs: nat, i: nat)
    requires 0 < bs <= |src| && i < |Cuts(src, table, bs, [])|
    ensures var parts := Cuts(src, table, bs, []);
            var frames := Group(parts[i]);
            && DataAtMost(frames, 2 * bs)
            && (i < |parts| - 1 ==>
                  frames != [] && frames[|frames| - 1].DataFrame? && |frames[|frames| - 1].bytes| == bs + 1)
  {
    hide Cuts, Group;
    CutsWellCut(src, table, bs, []);
    var parts := Cuts(src, table, bs, []);
    RunsAreFrames(parts[i], 2 * bs);
    LastFrame(parts[i]);
  }
}
