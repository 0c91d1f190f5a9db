/** Values shared by every stage of the delta pipeline. */
module Types {

  type byte = x: int | 0 <= x < 256

  datatype Option<+T> = None | Some(value: T)

  /** One edit instruction: copy a literal byte, or copy block `index` of the reference file. */
  datatype Op = Lit(b: byte) | Ref(index: int)

  const INT64_LIMIT: int := 0x8000_0000_0000_0000

  /** The int64 that a wider integer wraps to. */
  function Wrap64(x: int): (r: int)
    ensures -INT64_LIMIT <= r < INT64_LIMIT
    ensures -INT64_LIMIT <= x < INT64_LIMIT ==> r == x
  {
    (x + INT64_LIMIT) % (2 * INT64_LIMIT) - INT64_LIMIT
  }

  function Lits(bytes: seq<byte>): (ops: seq<Op>)
    ensures |ops| == |bytes|
    ensures forall i :: 0 <= i < |ops| ==> ops[i] == Lit(bytes[i])
  {
    seq(|bytes|, i requires 0 <= i < |bytes| => Lit(bytes[i]))
  }

  function Refs(indexes: seq<int>): (ops: seq<Op>)
    ensures |ops| == |indexes|
    ensures forall i :: 0 <= i < |ops| ==> ops[i] == Ref(indexes[i])
  {
    seq(|indexes|, i requires 0 <= i < |indexes| => Ref(indexes[i]))
  }

  function Flatten<T>(parts: seq<seq<T>>): seq<T> {
    if parts == [] then [] else parts[0] + Flatten(parts[1..])
  }

  lemma {:induction false} FlattenAppend<T>(xs: seq<seq<T>>, ys: seq<seq<T>>)
    ensures Flatten(xs + ys) == Flatten(xs) + Flatten(ys)
  {
    if xs == [] {
      assert xs + ys == ys;
    } else {
      FlattenAppend(xs[1..], ys);
      assert (xs + ys)[1..] == xs[1..] + ys;
      Assoc(xs[0], Flatten(xs[1..]), Flatten(ys));
    }
  }

  lemma Assoc<T>(xs: seq<T>, ys: seq<T>, zs: seq<T>)
    ensures xs + ys + zs == xs + (ys + zs)
  {
  }

  lemma SplitAt<T>(xs: seq<T>, ys: seq<T>)
    ensures (xs + ys)[..|xs|] == xs && (xs + ys)[|xs|..] == ys
  {
  }

  lemma DropTwice<T>(xs: seq<T>, i: nat, j: nat)
    requires i + j <= |xs|
    ensures xs[i..][j..] == xs[i + j..]
  {
  }

  function Min(a: int, b: int): int {
    if a < b then a else b
  }

  lemma Pick<T>(xs: set<T>) returns (x: T)
    requires xs != {}
    ensures x in xs
  {
    x :| x in xs;
  }

  lemma MulMonotone(a: int, b: int, d: nat)
    requires a <= b
    ensures a * d <= b * d
  {
  }
}
