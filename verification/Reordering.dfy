/** Whole runs of the writer: every arrival order of the messages of any number of streams. */
module Reordering {
  import opened Types
  import opened WriterMachine

  /** What the senders sent: for every stream offset, its message bodies in order. */
  type Plan = map<int, seq<seq<byte>>>

  ghost predicate IsPlan(plan: Plan, reference: Option<seq<byte>>, bs: nat) {
    plan != map[] && forall o :: o in plan ==> IsStream(plan[o], reference, bs)
  }

  ghost predicate OfPlan(c: Chunk, plan: Plan) {
    && c.offset in plan && 0 <= c.seqNo < |plan[c.offset]|
    && c.body == plan[c.offset][c.seqNo]
  }

  predicate SameId(c: Chunk, d: Chunk) {
    c.offset == d.offset && c.seqNo == d.seqNo
  }

  /** The numbers of stream o's messages among the first n arrivals. */
  function Seen(arrivals: seq<Chunk>, n: nat, o: int): set<int>
    requires n <= |arrivals|
  {
    set i | 0 <= i < n && arrivals[i].offset == o :: arrivals[i].seqNo
  }

  /** Every message of every stream arrives exactly once, in whatever order. */
  ghost predicate Delivers(arrivals: seq<Chunk>, plan: Plan) {
    && (forall i :: 0 <= i < |arrivals| ==> OfPlan(arrivals[i], plan))
    && (forall i, j :: 0 <= i < j < |arrivals| ==> !SameId(arrivals[i], arrivals[j]))
    && forall o, q :: o in plan && 0 <= q < |plan[o]| ==> q in Seen(arrivals, |arrivals|, o)
  }

  /** Is arrival i the message that ends its stream? */
  ghost predicate IsEnd(arrivals: seq<Chunk>, plan: Plan, i: nat)
    requires i < |arrivals| && OfPlan(arrivals[i], plan)
  {
    arrivals[i].seqNo == |plan[arrivals[i].offset]| - 1
  }

  /** Among the first n arrivals, nothing of stream o comes after o's last message. */
  ghost predicate EndIsLast(arrivals: seq<Chunk>, plan: Plan, n: nat, o: int)
    requires n <= |arrivals| && forall i :: 0 <= i < |arrivals| ==> OfPlan(arrivals[i], plan)
  {
    forall i, j :: 0 <= i < j < n && arrivals[i].offset == o && arrivals[j].offset == o ==> !IsEnd(arrivals, plan, i)
  }

  /** The order the writer copes with: only the stream that finishes last may get its End before other messages. */
  ghost predicate EndsInOrder(arrivals: seq<Chunk>, plan: Plan)
    requires arrivals != [] && forall i :: 0 <= i < |arrivals| ==> OfPlan(arrivals[i], plan)
  {
    forall o :: o in plan && o != arrivals[|arrivals| - 1].offset ==> EndIsLast(arrivals, plan, |arrivals|, o)
  }

  ghost predicate AllDecode(plan: Plan, reference: Option<seq<byte>>, bs: nat) {
    forall o :: o in plan ==> OkBetween(plan[o], 0, |plan[o]|, reference, bs)
  }

  function Files(plan: Plan, reference: Option<seq<byte>>, bs: nat): map<int, seq<byte>> {
    map o | o in plan :: Decoded(plan[o], |plan[o]|, reference, bs)
  }

  // ---- the invariant ----

  predicate Done(plan: Plan, arrivals: seq<Chunk>, n: nat, o: int)
    requires n <= |arrivals| && o in plan
  {
    Missing(Seen(arrivals, n, o), 0, |plan[o]|) == |plan[o]|
  }

  function Unfinished(plan: Plan, arrivals: seq<Chunk>, n: nat): set<int>
    requires n <= |arrivals|
  {
    set o | o in plan && !Done(plan, arrivals, n, o)
  }

  /** The writer after n arrivals: received equals written prefix plus cached rest, stream by stream. */
  ghost function Reached(plan: Plan, arrivals: seq<Chunk>, n: nat, reference: Option<seq<byte>>, bs: nat): Writer
    requires n <= |arrivals| && IsPlan(plan, reference, bs)
  {
    Writer(|Unfinished(plan, arrivals, n)|,
           map o | o in plan && Seen(arrivals, n, o) != {} :: Expect(plan[o], Seen(arrivals, n, o), reference, bs))
  }

  /** Every message written so far decoded, and every finished stream got its End last. */
  ghost predicate SoFarGood(plan: Plan, arrivals: seq<Chunk>, n: nat, reference: Option<seq<byte>>, bs: nat)
    requires n <= |arrivals| && forall i :: 0 <= i < |arrivals| ==> OfPlan(arrivals[i], plan)
  {
    forall o :: o in plan ==>
      && OkBetween(plan[o], 0, Missing(Seen(arrivals, n, o), 0, |plan[o]|), reference, bs)
      && (Done(plan, arrivals, n, o) ==> EndIsLast(arrivals, plan, n, o))
  }

  lemma GotNext(arrivals: seq<Chunk>, n: nat, o: int)
    requires n < |arrivals|
    ensures Seen(arrivals, n + 1, o)
         == if arrivals[n].offset == o then Seen(arrivals, n, o) + {arrivals[n].seqNo} else Seen(arrivals, n, o)
  {
  }

  lemma NotYet(arrivals: seq<Chunk>, plan: Plan, n: nat)
    requires n < |arrivals| && Delivers(arrivals, plan)
    ensures arrivals[n].seqNo !in Seen(arrivals, n, arrivals[n].offset)
    ensures arrivals[n].offset in Unfinished(plan, arrivals, n)
  {
  }

  /** After the last arrival, and not before, every stream is finished. */
  lemma FinishedAtEnd(arrivals: seq<Chunk>, plan: Plan, n: nat)
    requires n <= |arrivals| && Delivers(arrivals, plan)
    ensures Unfinished(plan, arrivals, n) == {} <==> n == |arrivals|
  {
    if n < |arrivals| {
      NotYet(arrivals, plan, n);
    } else {
      forall o | o in plan ensures Done(plan, arrivals, n, o) {
        var got := Seen(arrivals, n, o);
        var m := Missing(got, 0, |plan[o]|);
        assert m < |plan[o]| ==> m in got;
      }
    }
  }

  /** How the set of unfinished streams changes. */
  lemma UnfinishedNext(arrivals: seq<Chunk>, plan: Plan, n: nat)
    requires n < |arrivals| && Delivers(arrivals, plan)
    ensures var o := arrivals[n].offset;
            && o in plan
            && Unfinished(plan, arrivals, n + 1)
               == if Done(plan, arrivals, n + 1, o) then Unfinished(plan, arrivals, n) - {o}
                  else Unfinished(plan, arrivals, n)
  {
    var o := arrivals[n].offset;
    assert OfPlan(arrivals[n], plan);
    NotYet(arrivals, plan, n);
    forall o' | o' in plan && o' != o
      ensures Done(plan, arrivals, n + 1, o') <==> Done(plan, arrivals, n, o')
    {
      GotNext(arrivals, n, o');
    }
  }

  lemma StreamReached(arrivals: seq<Chunk>, plan: Plan, n: nat, o: int, reference: Option<seq<byte>>, bs: nat)
    requires IsPlan(plan, reference, bs) && n <= |arrivals| && o in plan
    ensures StreamAt(Reached(plan, arrivals, n, reference, bs), o)
         == Expect(plan[o], Seen(arrivals, n, o), reference, bs)
  {
  }

  lemma FilesNext(arrivals: seq<Chunk>, plan: Plan, n: nat, reference: Option<seq<byte>>, bs: nat)
    requires IsPlan(plan, reference, bs) && n < |arrivals| && arrivals[n].offset in plan
    ensures var o := arrivals[n].offset;
            Reached(plan, arrivals, n, reference, bs).files
              [o := Expect(plan[o], Seen(arrivals, n + 1, o), reference, bs)]
            == Reached(plan, arrivals, n + 1, reference, bs).files
  {
    hide IsStream, Expect, Seen;
    var o := arrivals[n].offset;
    GotNext(arrivals, n, o);
    assert arrivals[n].seqNo in Seen(arrivals, n + 1, o);
    forall o' | o' in plan && o' != o ensures Seen(arrivals, n + 1, o') == Seen(arrivals, n, o') {
      GotNext(arrivals, n, o');
    }
  }

  /** The stream counter: it drops by one when a stream finishes, and reaches zero with the last arrival. */
  lemma CountNext(arrivals: seq<Chunk>, plan: Plan, n: nat)
    requires n < |arrivals| && Delivers(arrivals, plan)
    ensures arrivals[n].offset in plan
    ensures var u, u' := |Unfinished(plan, arrivals, n)|, |Unfinished(plan, arrivals, n + 1)|;
            && u' == (if Done(plan, arrivals, n + 1, arrivals[n].offset) then u - 1 else u)
            && (u' == 0 <==> n + 1 == |arrivals|)
  {
    hide Unfinished, Done;
    UnfinishedNext(arrivals, plan, n);
    NotYet(arrivals, plan, n);
    FinishedAtEnd(arrivals, plan, n + 1);
  }

  /** At the last arrival every other stream already holds all its bytes. */
  lemma OthersAreWhole(arrivals: seq<Chunk>, plan: Plan, o: int, reference: Option<seq<byte>>, bs: nat)
    requires IsPlan(plan, reference, bs) && Delivers(arrivals, plan)
    requires arrivals != [] && o in plan && o != arrivals[|arrivals| - 1].offset
    ensures Expect(plan[o], Seen(arrivals, |arrivals| - 1, o), reference, bs).file
         == Decoded(plan[o], |plan[o]|, reference, bs)
    ensures Seen(arrivals, |arrivals| - 1, o) != {}
    ensures Done(plan, arrivals, |arrivals| - 1, o)
  {
    hide IsStream, Decoded;
    GotNext(arrivals, |arrivals| - 1, o);
    FinishedAtEnd(arrivals, plan, |arrivals|);
    assert IsStream(plan[o], reference, bs);
    assert Done(plan, arrivals, |arrivals|, o) by {
      assert o !in Unfinished(plan, arrivals, |arrivals|);
    }
    assert plan[o] != [] ==> 0 in Seen(arrivals, |arrivals| - 1, o);
    assert plan[o] != [] by { StreamNotEmpty(plan[o], reference, bs); }
  }

  /** What the writer makes of arrival n. */
  ghost function Verdict(plan: Plan, arrivals: seq<Chunk>, n: nat, reference: Option<seq<byte>>, bs: nat): Progress
    requires IsPlan(plan, reference, bs) && n < |arrivals| && OfPlan(arrivals[n], plan)
  {
    var o, bodies := arrivals[n].offset, plan[arrivals[n].offset];
    var m, m' := Missing(Seen(arrivals, n, o), 0, |bodies|), Missing(Seen(arrivals, n + 1, o), 0, |bodies|);
    if !OkBetween(bodies, m, m', reference, bs) then Crashed
    else if n + 1 == |arrivals| then Complete(Files(plan, reference, bs))
    else if Done(plan, arrivals, n + 1, o) && arrivals[n].seqNo != |bodies| - 1 then Crashed
    else Going(Reached(plan, arrivals, n + 1, reference, bs))
  }

  lemma StepResult(arrivals: seq<Chunk>, plan: Plan, n: nat, reference: Option<seq<byte>>, bs: nat)
    requires IsPlan(plan, reference, bs) && Delivers(arrivals, plan) && n < |arrivals|
    ensures OfPlan(arrivals[n], plan)
    ensures Receive(Reached(plan, arrivals, n, reference, bs), arrivals[n], reference, bs)
         == Verdict(plan, arrivals, n, reference, bs)
  {
    hide Expect, Handle, IsStream, Missing, Decoded, OkBetween, Delivers, Unfinished, Seen;
    var c := arrivals[n];
    assert OfPlan(c, plan) by { OfPlanAt(arrivals, plan, n); }
    var o, q, w := c.offset, c.seqNo, Reached(plan, arrivals, n, reference, bs);
    NotYet(arrivals, plan, n);
    GotNext(arrivals, n, o);
    CountNext(arrivals, plan, n);
    StreamReached(arrivals, plan, n, o, reference, bs);
    HandleOne(plan[o], Seen(arrivals, n, o), q, w.streams, reference, bs);
    FilesNext(arrivals, plan, n, reference, bs);
    if n + 1 == |arrivals| {
      WholeFiles(arrivals, plan, Handle(StreamAt(w, o), w.streams, q, c.body, reference, bs), reference, bs);
    }
  }

  lemma OfPlanAt(arrivals: seq<Chunk>, plan: Plan, n: nat)
    requires Delivers(arrivals, plan) && n < |arrivals|
    ensures OfPlan(arrivals[n], plan)
  {
  }

  lemma WholeFiles(arrivals: seq<Chunk>, plan: Plan, r: Handled, reference: Option<seq<byte>>, bs: nat)
    requires IsPlan(plan, reference, bs) && Delivers(arrivals, plan) && arrivals != []
    requires arrivals[|arrivals| - 1].offset in plan
    ensures var o := arrivals[|arrivals| - 1].offset;
            r.AllEnded? && r.s.file == Decoded(plan[o], |plan[o]|, reference, bs) ==>
              Contents(Reached(plan, arrivals, |arrivals| - 1, reference, bs).files[o := r.s])
              == Files(plan, reference, bs)
  {
    hide Expect, Decoded, Delivers, Seen;
    var o := arrivals[|arrivals| - 1].offset;
    forall o' | o' in plan && o' != o
      ensures Expect(plan[o'], Seen(arrivals, |arrivals| - 1, o'), reference, bs).file
           == Decoded(plan[o'], |plan[o']|, reference, bs)
      ensures Seen(arrivals, |arrivals| - 1, o') != {}
    {
      OthersAreWhole(arrivals, plan, o', reference, bs);
    }
  }

  ghost predicate Smooth(arrivals: seq<Chunk>, plan: Plan, reference: Option<seq<byte>>, bs: nat)
    requires arrivals != [] && forall i :: 0 <= i < |arrivals| ==> OfPlan(arrivals[i], plan)
  {
    AllDecode(plan, reference, bs) && EndsInOrder(arrivals, plan)
  }

  lemma OkJoin(bodies: seq<seq<byte>>, i: nat, j: nat, k: nat, reference: Option<seq<byte>>, bs: nat)
    requires i <= j <= k <= |bodies|
    ensures OkBetween(bodies, i, k, reference, bs) <==>
            OkBetween(bodies, i, j, reference, bs) && OkBetween(bodies, j, k, reference, bs)
  {
  }

  lemma MissingGrows(got: set<int>, q: int, n: nat)
    ensures Missing(got, 0, n) <= Missing(got + {q}, 0, n)
  {
  }

  /** An uneventful arrival keeps everything good. */
  lemma StaysGood(arrivals: seq<Chunk>, plan: Plan, n: nat, reference: Option<seq<byte>>, bs: nat)
    requires IsPlan(plan, reference, bs) && Delivers(arrivals, plan) && n < |arrivals|
    requires SoFarGood(plan, arrivals, n, reference, bs) && Verdict(plan, arrivals, n, reference, bs).Going?
    ensures SoFarGood(plan, arrivals, n + 1, reference, bs)
  {
    hide OkBetween, Seen, IsStream, Missing;
    var c := arrivals[n];
    NotYet(arrivals, plan, n);
    forall o | o in plan
      ensures OkBetween(plan[o], 0, Missing(Seen(arrivals, n + 1, o), 0, |plan[o]|), reference, bs)
      ensures Done(plan, arrivals, n + 1, o) ==> EndIsLast(arrivals, plan, n + 1, o)
    {
      GotNext(arrivals, n, o);
      if o == c.offset {
        MissingGrows(Seen(arrivals, n, o), c.seqNo, |plan[o]|);
        OkJoin(plan[o], 0, Missing(Seen(arrivals, n, o), 0, |plan[o]|), Missing(Seen(arrivals, n + 1, o), 0, |plan[o]|),
               reference, bs);
        if Done(plan, arrivals, n + 1, o) {
          forall i | 0 <= i < n && arrivals[i].offset == o ensures !IsEnd(arrivals, plan, i) {
            assert !SameId(arrivals[i], arrivals[n]);
          }
        }
      }
    }
  }

  /** A crash is the fault of a message that does not decode or of an End that came too early. */
  lemma CrashHasCause(arrivals: seq<Chunk>, plan: Plan, n: nat, reference: Option<seq<byte>>, bs: nat)
    requires IsPlan(plan, reference, bs) && Delivers(arrivals, plan) && n < |arrivals|
    requires Verdict(plan, arrivals, n, reference, bs) == Crashed
    ensures !Smooth(arrivals, plan, reference, bs)
  {
    hide IsStream, Seen;
    var o, bodies := arrivals[n].offset, plan[arrivals[n].offset];
    var m, m' := Missing(Seen(arrivals, n, o), 0, |bodies|), Missing(Seen(arrivals, n + 1, o), 0, |bodies|);
    if OkBetween(bodies, m, m', reference, bs) {
      EarlyEnd(arrivals, plan, n);
    } else {
      assert !OkBetween(bodies, 0, |bodies|, reference, bs);
    }
  }

  lemma EarlyEnd(arrivals: seq<Chunk>, plan: Plan, n: nat)
    requires Delivers(arrivals, plan) && n + 1 < |arrivals|
    requires var o := arrivals[n].offset;
             && o in plan && plan[o] != []
             && Done(plan, arrivals, n + 1, o) && arrivals[n].seqNo != |plan[o]| - 1
    ensures !EndsInOrder(arrivals, plan)
  {
    var o := arrivals[n].offset;
    var last := |plan[o]| - 1;
    assert last in Seen(arrivals, n + 1, o);
    var i :| 0 <= i < n + 1 && arrivals[i].offset == o && arrivals[i].seqNo == last;
    assert IsEnd(arrivals, plan, i);
    assert !EndIsLast(arrivals, plan, |arrivals|, o);
    StaysDone(arrivals, plan, n + 1, o);
    NotYet(arrivals, plan, |arrivals| - 1);
  }

  /** A finished stream stays finished until the last arrival, which therefore is of another stream. */
  lemma {:induction false} StaysDone(arrivals: seq<Chunk>, plan: Plan, n: nat, o: int)
    requires Delivers(arrivals, plan) && n < |arrivals| && o in plan && Done(plan, arrivals, n, o)
    ensures Done(plan, arrivals, |arrivals| - 1, o)
    decreases |arrivals| - n
  {
    if n < |arrivals| - 1 {
      hide Seen;
      GotNext(arrivals, n, o);
      MissingGrows(Seen(arrivals, n, o), arrivals[n].seqNo, |plan[o]|);
      StaysDone(arrivals, plan, n + 1, o);
    }
  }

  /** If nothing went wrong, the stream of the last arrival decodes from end to end. */
  lemma LastStreamDecodes(arrivals: seq<Chunk>, plan: Plan, reference: Option<seq<byte>>, bs: nat)
    requires IsPlan(plan, reference, bs) && Delivers(arrivals, plan) && arrivals != []
    requires SoFarGood(plan, arrivals, |arrivals| - 1, reference, bs)
    requires Verdict(plan, arrivals, |arrivals| - 1, reference, bs).Complete?
    ensures var bodies := plan[arrivals[|arrivals| - 1].offset]; OkBetween(bodies, 0, |bodies|, reference, bs)
  {
    hide OkBetween, Seen, IsStream, Missing, IsPlan, EndIsLast, Unfinished;
    var n := |arrivals| - 1;
    var o := arrivals[n].offset;
    CountNext(arrivals, plan, n);
    assert Done(plan, arrivals, n + 1, o);
    GotNext(arrivals, n, o);
    MissingGrows(Seen(arrivals, n, o), arrivals[n].seqNo, |plan[o]|);
    OkJoin(plan[o], 0, Missing(Seen(arrivals, n, o), 0, |plan[o]|), |plan[o]|, reference, bs);
  }

  /** A stream that was finished before the last arrival decodes from end to end, and nothing comes behind its End. */
  lemma OtherStreamDecodes(arrivals: seq<Chunk>, plan: Plan, o: int, reference: Option<seq<byte>>, bs: nat)
    requires IsPlan(plan, reference, bs) && Delivers(arrivals, plan) && arrivals != []
    requires SoFarGood(plan, arrivals, |arrivals| - 1, reference, bs)
    requires o in plan && o != arrivals[|arrivals| - 1].offset
    ensures OkBetween(plan[o], 0, |plan[o]|, reference, bs) && EndIsLast(arrivals, plan, |arrivals|, o)
  {
    hide OkBetween, Seen, IsStream, Missing, IsPlan, OfPlan, SameId;
    OthersAreWhole(arrivals, plan, o, reference, bs);
    assert EndIsLast(arrivals, plan, |arrivals| - 1, o);
  }

  /** If nothing went wrong up to the last arrival, the run was smooth. */
  lemma CompleteIsSmooth(arrivals: seq<Chunk>, plan: Plan, reference: Option<seq<byte>>, bs: nat)
    requires IsPlan(plan, reference, bs) && Delivers(arrivals, plan) && arrivals != []
    requires SoFarGood(plan, arrivals, |arrivals| - 1, reference, bs)
    requires Verdict(plan, arrivals, |arrivals| - 1, reference, bs).Complete?
    ensures Smooth(arrivals, plan, reference, bs)
  {
    hide OkBetween, Seen, IsPlan, SoFarGood, Verdict, EndIsLast;
    LastStreamDecodes(arrivals, plan, reference, bs);
    forall o | o in plan && o != arrivals[|arrivals| - 1].offset
      ensures OkBetween(plan[o], 0, |plan[o]|, reference, bs) && EndIsLast(arrivals, plan, |arrivals|, o)
    {
      OtherStreamDecodes(arrivals, plan, o, reference, bs);
    }
  }

  lemma {:induction false} RunOn(arrivals: seq<Chunk>, plan: Plan, n: nat, reference: Option<seq<byte>>, bs: nat)
    requires IsPlan(plan, reference, bs) && Delivers(arrivals, plan) && n < |arrivals|
    requires SoFarGood(plan, arrivals, n, reference, bs)
    ensures Run(Reached(plan, arrivals, n, reference, bs), arrivals[n..], reference, bs)
         == if Smooth(arrivals, plan, reference, bs) then Complete(Files(plan, reference, bs)) else Crashed
    decreases |arrivals| - n
  {
    hide Reached, SoFarGood, Smooth, Receive, IsPlan, Delivers;
    StepResult(arrivals, plan, n, reference, bs);
    var v := Verdict(plan, arrivals, n, reference, bs);
    assert arrivals[n..][0] == arrivals[n] && arrivals[n..][1..] == arrivals[n + 1..];
    match v {
      case Going(_) =>
        StaysGood(arrivals, plan, n, reference, bs);
        RunOn(arrivals, plan, n + 1, reference, bs);
      case Crashed => CrashHasCause(arrivals, plan, n, reference, bs);
      case Complete(_) => CompleteIsSmooth(arrivals, plan, reference, bs);
    }
  }

  /** For any number of streams and any arrival order: the writer leaves its loop with the last message and with every
      temporary file equal to the decoding of its own stream, exactly if every message decodes and no End except that
      of the last stream to finish was overtaken; otherwise it returns an error. */
  lemma AnyArrivalOrder(arrivals: seq<Chunk>, plan: Plan, reference: Option<seq<byte>>, bs: nat)
    requires IsPlan(plan, reference, bs) && Delivers(arrivals, plan) && arrivals != []
    ensures Run(Writer(|plan|, map[]), arrivals, reference, bs)
         == if Smooth(arrivals, plan, reference, bs) then Complete(Files(plan, reference, bs)) else Crashed
  {
    assert arrivals[0..] == arrivals;
    Begin(arrivals, plan, reference, bs);
    RunOn(arrivals, plan, 0, reference, bs);
  }

  lemma Begin(arrivals: seq<Chunk>, plan: Plan, reference: Option<seq<byte>>, bs: nat)
    requires IsPlan(plan, reference, bs) && Delivers(arrivals, plan)
    ensures Reached(plan, arrivals, 0, reference, bs) == Writer(|plan|, map[])
    ensures SoFarGood(plan, arrivals, 0, reference, bs)
  {
    forall o | o in plan ensures Seen(arrivals, 0, o) == {} && Missing({}, 0, |plan[o]|) == 0 < |plan[o]| {
      StreamNotEmpty(plan[o], reference, bs);
    }
    assert Unfinished(plan, arrivals, 0) == plan.Keys;
    assert Reached(plan, arrivals, 0, reference, bs).files == map[];
  }

  /** One stream: every arrival order works, whatever its End overtakes. */
  lemma OneStreamAnyOrder(arrivals: seq<Chunk>, bodies: seq<seq<byte>>, reference: Option<seq<byte>>, bs: nat)
    requires IsStream(bodies, reference, bs) && Delivers(arrivals, map[0 := bodies]) && arrivals != []
    ensures Run(Writer(1, map[]), arrivals, reference, bs)
         == if OkBetween(bodies, 0, |bodies|, reference, bs) then
              Complete(map[0 := Decoded(bodies, |bodies|, reference, bs)])
            else Crashed
  {
    hide IsStream, OkBetween;
    var plan: Plan := map[0 := bodies];
    AnyArrivalOrder(arrivals, plan, reference, bs);
    assert |plan| == 1;
    assert EndsInOrder(arrivals, plan) by {
      assert OfPlan(arrivals[|arrivals| - 1], plan);
    }
    assert Files(plan, reference, bs) == map[0 := Decoded(bodies, |bodies|, reference, bs)];
    assert AllDecode(plan, reference, bs) <==> OkBetween(plan[0], 0, |plan[0]|, reference, bs);
  }
}
