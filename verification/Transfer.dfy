/** From instructions to the rebuilt files, through bytes, for every arrival order. */
module Transfer {
  import opened Types
  import opened Wire
  import opened GreedyScan
  import opened Interpreter
  import opened Descriptors
  import opened WriterMachine
  import opened Reordering

  /** The instructions of every message, stream by stream. */
  type Sent = map<int, seq<seq<Op>>>

  /** One message: its stream and its number. */
  datatype Id = Id(offset: int, i: nat)

  /** What the receiver takes from a serialized message. */
  function Unpack(p: seq<byte>): Chunk
    requires |p| >= HEADER_SIZE
  {
    var h := ParseHeader(p);
    Chunk(h.offset, h.seqNo, p[HEADER_SIZE..])
  }

  /** The serialized message. */
  function Packed(sent: Sent, fileIndex: int, id: Id): (p: seq<byte>)
    requires id.offset in sent && id.i < |sent[id.offset]|
    ensures |p| >= HEADER_SIZE
  {
    var parts := sent[id.offset];
    Packet(fileIndex, id.offset, id.i, |sent|, Body(parts[id.i], id.i == |parts| - 1))
  }

  ghost predicate InRange(id: Id, sent: Sent) {
    id.offset in sent && id.i < |sent[id.offset]|
  }

  /** Every message of every stream exactly once. */
  ghost predicate EachOnce(order: seq<Id>, sent: Sent) {
    && (forall k :: 0 <= k < |order| ==> InRange(order[k], sent))
    && (forall j, k :: 0 <= j < k < |order| ==> order[j] != order[k])
    && (forall id :: InRange(id, sent) ==> id in order)
  }

  /** Sizes and block indexes fit the 64-bit fields. */
  ghost predicate Fits(sent: Sent) {
    && |sent| < INT64_LIMIT
    && forall o :: o in sent ==> IsInt64(o) && sent[o] != [] && PartsFit(sent[o])
  }

  ghost predicate PartsFit(parts: seq<seq<Op>>) {
    |parts| < INT64_LIMIT && forall i :: 0 <= i < |parts| ==> OpsFit(parts[i])
  }

  function Bodies(parts: seq<seq<Op>>): (bodies: seq<seq<byte>>)
    ensures |bodies| == |parts|
    ensures forall i :: 0 <= i < |parts| ==> bodies[i] == Body(parts[i], i == |parts| - 1)
  {
    seq(|parts|, i requires 0 <= i < |parts| => Body(parts[i], i == |parts| - 1))
  }

  function PlanOf(sent: Sent): Plan {
    map o | o in sent :: Bodies(sent[o])
  }

  ghost function Arrivals(order: seq<Id>, sent: Sent, fileIndex: int): (arrivals: seq<Chunk>)
    requires EachOnce(order, sent)
    ensures |arrivals| == |order|
  {
    seq(|order|, k requires 0 <= k < |order| =>
      assert InRange(order[k], sent); Unpack(Packed(sent, fileIndex, order[k])))
  }

  lemma ArrivalAt(order: seq<Id>, sent: Sent, fileIndex: int, k: nat)
    requires EachOnce(order, sent) && Fits(sent) && IsInt64(fileIndex) && k < |order|
    ensures InRange(order[k], sent)
    ensures Arrivals(order, sent, fileIndex)[k]
         == Chunk(order[k].offset, order[k].i, PlanOf(sent)[order[k].offset][order[k].i])
  {
    hide Body, Packet, ParseHeader, OpsFit;
    var id := order[k];
    assert InRange(id, sent);
    var parts := sent[id.offset];
    assert PartsFit(parts);
    PacketRoundTrip(fileIndex, id.offset, id.i, |sent|, Body(parts[id.i], id.i == |parts| - 1));
  }

  /** The arrivals deliver the plan. */
  lemma ArrivalsDeliver(order: seq<Id>, sent: Sent, fileIndex: int)
    requires EachOnce(order, sent) && Fits(sent) && IsInt64(fileIndex)
    ensures Delivers(Arrivals(order, sent, fileIndex), PlanOf(sent))
  {
    hide Arrivals, Fits;
    var arrivals, plan := Arrivals(order, sent, fileIndex), PlanOf(sent);
    ArrivalsAligned(order, sent, fileIndex);
    forall o, q | o in plan && 0 <= q < |plan[o]| ensures q in Seen(arrivals, |arrivals|, o) {
      assert InRange(Id(o, q), sent);
      var k :| 0 <= k < |order| && order[k] == Id(o, q);
      assert arrivals[k].offset == o && arrivals[k].seqNo == q;
    }
  }

  /** The bodies of a stream's messages decode to its instructions. */
  lemma StreamDecodes(parts: seq<seq<Op>>, reference: Option<seq<byte>>, bs: nat)
    requires parts != [] && PartsFit(parts)
    ensures IsStream(Bodies(parts), reference, bs)
    ensures var bodies, out := Bodies(parts), Apply(Flatten(parts), reference, bs);
            && (OkBetween(bodies, 0, |bodies|, reference, bs) <==> out.Some?)
            && (out.Some? ==> Decoded(bodies, |bodies|, reference, bs) == out.value)
  {
    hide Decode, Body, OpsFit, Apply, Bodies;
    var bodies := Bodies(parts);
    forall i | 0 <= i < |parts|
      ensures EndsOnlyIf(bodies[i], i == |parts| - 1, reference, bs)
    {
      DecodeBody(parts[i], i == |parts| - 1, reference, bs);
    }
    PrefixDecodes(parts, |parts|, reference, bs);
    assert parts[..|parts|] == parts;
  }

  lemma {:induction false} PrefixDecodes(parts: seq<seq<Op>>, n: nat, reference: Option<seq<byte>>, bs: nat)
    requires PartsFit(parts) && n <= |parts|
    ensures var bodies, out := Bodies(parts), Apply(Flatten(parts[..n]), reference, bs);
            && (OkBetween(bodies, 0, n, reference, bs) <==> out.Some?)
            && (out.Some? ==> Decoded(bodies, n, reference, bs) == out.value)
  {
    hide Decode, Body, OpsFit;
    if n > 0 {
      hide Apply, Flatten, OkBetween, PartsFit;
      var part := parts[n - 1];
      PrefixDecodes(parts, n - 1, reference, bs);
      PartFits(parts, n - 1);
      DecodeBody(part, n == |parts|, reference, bs);
      assert parts[..n] == parts[..n - 1] + [part];
      FlattenPush(parts[..n - 1], part);
      ApplyConcat(Flatten(parts[..n - 1]), part, reference, bs);
      OkJoin(Bodies(parts), 0, n - 1, n, reference, bs);
      OkOne(Bodies(parts), n - 1, reference, bs);
    }
  }

  lemma PartFits(parts: seq<seq<Op>>, i: nat)
    requires PartsFit(parts) && i < |parts|
    ensures OpsFit(parts[i])
  {
  }

  lemma OkOne(bodies: seq<seq<byte>>, i: nat, reference: Option<seq<byte>>, bs: nat)
    requires i < |bodies|
    ensures OkBetween(bodies, i, i + 1, reference, bs) <==> Ok(bodies[i], reference, bs)
  {
  }

  lemma FlattenPush<T>(parts: seq<seq<T>>, part: seq<T>)
    ensures Flatten(parts + [part]) == Flatten(parts) + part
  {
    FlattenAppend(parts, [part]);
    assert [part][1..] == [];
    assert Flatten([part]) == part + [];
  }

  // ---- the theorem ----

  /** What a stream rebuilds to. */
  function Rebuilt(parts: seq<seq<Op>>, reference: Option<seq<byte>>, bs: nat): Option<seq<byte>> {
    Apply(Flatten(parts), reference, bs)
  }

  /** All messages of a stream decode exactly if it can be rebuilt. */
  lemma FullyDecodable(parts: seq<seq<Op>>, reference: Option<seq<byte>>, bs: nat)
    requires parts != [] && PartsFit(parts)
    ensures Decodable(Bodies(parts), reference, bs) == |parts| <==> Rebuilt(parts, reference, bs).Some?
  {
    hide Apply, IsStream, PartsFit, Bodies, Ok, Decoded;
    StreamDecodes(parts, reference, bs);
  }

  ghost predicate AllRebuild(sent: Sent, reference: Option<seq<byte>>, bs: nat) {
    forall o :: o in sent ==> Rebuilt(sent[o], reference, bs).Some?
  }

  /** Only the stream that finishes last may have its End overtaken. */
  ghost predicate OrderIsSafe(order: seq<Id>, sent: Sent)
    requires order != []
  {
    forall j, k ::
      (0 <= j < k < |order| && order[j].offset == order[k].offset != order[|order| - 1].offset
       && order[j].offset in sent) ==>
        order[j].i != |sent[order[j].offset]| - 1
  }

  ghost function RebuiltFiles(sent: Sent, reference: Option<seq<byte>>, bs: nat): map<int, seq<byte>>
    requires AllRebuild(sent, reference, bs)
  {
    map o | o in sent :: Rebuilt(sent[o], reference, bs).value
  }

  ghost predicate Aligned(arrivals: seq<Chunk>, order: seq<Id>, sent: Sent, plan: Plan) {
    && |arrivals| == |order| && plan.Keys == sent.Keys
    && (forall o :: o in sent ==> |plan[o]| == |sent[o]|)
    && forall k :: 0 <= k < |order| ==>
         && arrivals[k].offset == order[k].offset && arrivals[k].seqNo == order[k].i
         && InRange(order[k], sent) && OfPlan(arrivals[k], plan)
  }

  lemma ArrivalsAligned(order: seq<Id>, sent: Sent, fileIndex: int)
    requires EachOnce(order, sent) && Fits(sent) && IsInt64(fileIndex)
    ensures Aligned(Arrivals(order, sent, fileIndex), order, sent, PlanOf(sent))
  {
    hide Arrivals, Fits, EachOnce;
    forall k | 0 <= k < |order|
      ensures var c := Arrivals(order, sent, fileIndex)[k];
              c.offset == order[k].offset && c.seqNo == order[k].i && InRange(order[k], sent)
              && OfPlan(c, PlanOf(sent))
    {
      ArrivalAt(order, sent, fileIndex, k);
    }
  }

  lemma SafeMeansInOrder(arrivals: seq<Chunk>, order: seq<Id>, sent: Sent, plan: Plan)
    requires Aligned(arrivals, order, sent, plan) && order != []
    ensures OrderIsSafe(order, sent) ==> EndsInOrder(arrivals, plan)
  {
  }

  lemma InOrderMeansSafe(arrivals: seq<Chunk>, order: seq<Id>, sent: Sent, plan: Plan)
    requires Aligned(arrivals, order, sent, plan) && order != []
    ensures EndsInOrder(arrivals, plan) ==> OrderIsSafe(order, sent)
  {
  }

  lemma AlignedAt(arrivals: seq<Chunk>, order: seq<Id>, sent: Sent, plan: Plan, k: nat)
    requires Aligned(arrivals, order, sent, plan) && k < |order|
    ensures arrivals[k].offset == order[k].offset && arrivals[k].seqNo == order[k].i
    ensures InRange(order[k], sent) && OfPlan(arrivals[k], plan) && |plan[order[k].offset]| == |sent[order[k].offset]|
  {
  }

  /** For every arrival order of the serialized messages of any number of streams, the writer rebuilds every stream,
      or fails, exactly as stated. */
  lemma EveryOrder(order: seq<Id>, sent: Sent, fileIndex: int, reference: Option<seq<byte>>, bs: nat)
    requires EachOnce(order, sent) && Fits(sent) && IsInt64(fileIndex) && sent != map[] && order != []
    ensures Run(Writer(|sent|, map[]), Arrivals(order, sent, fileIndex), reference, bs)
         == if AllRebuild(sent, reference, bs) && OrderIsSafe(order, sent) then
              Complete(RebuiltFiles(sent, reference, bs))
            else Crashed
  {
    hide Arrivals, EachOnce, Run, IsStream, OkBetween, EndsInOrder, OrderIsSafe, Delivers, Aligned;
    var arrivals, plan := Arrivals(order, sent, fileIndex), PlanOf(sent);
    assert plan.Keys == sent.Keys && |plan| == |plan.Keys| && |sent| == |sent.Keys|;
    forall o | o in sent
      ensures IsStream(plan[o], reference, bs)
      ensures OkBetween(plan[o], 0, |plan[o]|, reference, bs) <==> Rebuilt(sent[o], reference, bs).Some?
      ensures Rebuilt(sent[o], reference, bs).Some? ==>
                Decoded(plan[o], |plan[o]|, reference, bs) == Rebuilt(sent[o], reference, bs).value
    {
      StreamDecodes(sent[o], reference, bs);
    }
    ArrivalsDeliver(order, sent, fileIndex);
    ArrivalsAligned(order, sent, fileIndex);
    assert order[0].offset in plan by {
      AlignedAt(arrivals, order, sent, plan, 0);
    }
    SafeMeansInOrder(arrivals, order, sent, plan);
    InOrderMeansSafe(arrivals, order, sent, plan);
    AnyArrivalOrder(arrivals, plan, reference, bs);
    SameVerdict(sent, reference, bs);
  }

  lemma SameVerdict(sent: Sent, reference: Option<seq<byte>>, bs: nat)
    requires forall o :: o in sent ==>
               && (OkBetween(PlanOf(sent)[o], 0, |PlanOf(sent)[o]|, reference, bs) <==>
                     Rebuilt(sent[o], reference, bs).Some?)
               && (Rebuilt(sent[o], reference, bs).Some? ==>
                     Decoded(PlanOf(sent)[o], |PlanOf(sent)[o]|, reference, bs)
                     == Rebuilt(sent[o], reference, bs).value)
    ensures AllDecode(PlanOf(sent), reference, bs) <==> AllRebuild(sent, reference, bs)
    ensures AllRebuild(sent, reference, bs) ==>
              Files(PlanOf(sent), reference, bs) == RebuiltFiles(sent, reference, bs)
  {
    hide OkBetween, Decoded, Rebuilt, Bodies;
    if AllDecode(PlanOf(sent), reference, bs) {
      forall o | o in sent ensures Rebuilt(sent[o], reference, bs).Some? {
        assert o in PlanOf(sent);
      }
    }
    if AllRebuild(sent, reference, bs) {
      var files, files' := Files(PlanOf(sent), reference, bs), RebuiltFiles(sent, reference, bs);
      assert forall o :: o in sent ==> files[o] == files'[o];
      assert files.Keys == files'.Keys;
    }
  }
}
