/** Rebuilding a file from its temporary files in increasing order of their offsets (workers/writers.go). */
module Merging {
  import opened Types

  predicate Strictly(s: seq<int>) {
    forall i, j :: 0 <= i < j < |s| ==> s[i] < s[j]
  }

  predicate Distinct<T(==)>(s: seq<T>) {
    forall i, j :: 0 <= i < j < |s| ==> s[i] != s[j]
  }

  lemma AboveFirst(x: int, s: seq<int>, r: seq<int>)
    requires Strictly(s) && s != [] && s[0] <= x && x !in s
    requires forall k :: k in r <==> k == x || k in s[1..]
    ensures Strictly(r) ==> Strictly([s[0]] + r)
  {
    forall i | 0 <= i < |r| ensures s[0] < r[i] {
      assert r[i] in r;
      if r[i] != x {
        assert r[i] in s[1..];
      } else {
        assert s[0] in s;
      }
    }
  }

  function Insert(x: int, s: seq<int>): (r: seq<int>)
    requires Strictly(s) && x !in s
    ensures Strictly(r)
    ensures forall k :: k in r <==> k == x || k in s
  {
    if s == [] || x < s[0] then [x] + s
    else
      var r' := Insert(x, s[1..]);
      assert forall k :: k in s <==> k == s[0] || k in s[1..];
      AboveFirst(x, s, r');
      [s[0]] + r'
  }

  /** sort.Slice by increasing offset; map keys are distinct. */
  function SortOffsets(s: seq<int>): (r: seq<int>)
    requires Distinct(s)
    ensures Strictly(r)
    ensures forall k :: k in r <==> k in s
  {
    if s == [] then []
    else
      assert forall k :: k in s <==> k == s[0] || k in s[1..];
      Insert(s[0], SortOffsets(s[1..]))
  }

  ghost predicate Lists(s: seq<int>, keys: set<int>) {
    Strictly(s) && forall k :: k in s <==> k in keys
  }

  /** The keys of a map, in the order in which ranging over it happens to produce them. */
  method Collect<T(==)>(keys: set<T>) returns (offsets: seq<T>)
    ensures Distinct(offsets) && forall o :: o in offsets <==> o in keys
  {
    offsets := [];
    var rest := keys;
    while rest != {}
      invariant rest <= keys && Distinct(offsets)
      invariant forall o :: o in offsets <==> o in keys && o !in rest
    {
      var o :| o in rest;
      assert forall i :: 0 <= i < |offsets| ==> offsets[i] in offsets;
      offsets, rest := offsets + [o], rest - {o};
    }
  }

  /** There is only one increasing list of a set of offsets. */
  lemma {:induction false} ListsUnique(s: seq<int>, t: seq<int>, keys: set<int>)
    requires Lists(s, keys) && Lists(t, keys)
    ensures s == t
    decreases |s|
  {
    if s == [] {
      assert forall i :: 0 <= i < |t| ==> t[i] in t;
    } else {
      assert s[0] in s && s[0] in keys && s[0] in t;
      assert t[0] in t && t[0] in keys && t[0] in s;
      assert s[0] == t[0];
      Rest(s, keys);
      Rest(t, keys);
      ListsUnique(s[1..], t[1..], keys - {s[0]});
    }
  }

  lemma Rest(s: seq<int>, keys: set<int>)
    requires Lists(s, keys) && s != []
    ensures Lists(s[1..], keys - {s[0]})
  {
  }

  function Concat(files: map<int, seq<byte>>, offsets: seq<int>): seq<byte>
    requires forall i :: 0 <= i < |offsets| ==> offsets[i] in files
  {
    if offsets == [] then []
    else files[offsets[0]] + Concat(files, offsets[1..])
  }

  lemma {:induction false} ConcatPush(files: map<int, seq<byte>>, offsets: seq<int>, o: int)
    requires o in files && forall i :: 0 <= i < |offsets| ==> offsets[i] in files
    ensures Concat(files, offsets + [o]) == Concat(files, offsets) + files[o]
  {
    if offsets == [] {
      assert [o][1..] == [];
      assert files[o] + [] == [] + files[o];
    } else {
      ConcatPush(files, offsets[1..], o);
      assert (offsets + [o])[1..] == offsets[1..] + [o];
      Assoc(files[offsets[0]], Concat(files, offsets[1..]), files[o]);
    }
  }

  lemma ListedKeys(s: seq<int>, keys: set<int>)
    requires Lists(s, keys)
    ensures forall i :: 0 <= i < |s| ==> s[i] in keys
  {
    assert forall i :: 0 <= i < |s| ==> s[i] in s;
  }

  function ConcatListed(files: map<int, seq<byte>>, offsets: seq<int>): seq<byte>
    requires Lists(offsets, files.Keys)
  {
    ListedKeys(offsets, files.Keys);
    Concat(files, offsets)
  }

  /** `dst` is the temporary files in increasing order of their offsets. */
  ghost predicate IsConcatenation(dst: seq<byte>, files: map<int, seq<byte>>) {
    exists offsets :: Lists(offsets, files.Keys) && dst == ConcatListed(files, offsets)
  }

  lemma ConcatenationUnique(a: seq<byte>, b: seq<byte>, files: map<int, seq<byte>>)
    requires IsConcatenation(a, files) && IsConcatenation(b, files)
    ensures a == b
  {
    var s :| Lists(s, files.Keys) && a == ConcatListed(files, s);
    var t :| Lists(t, files.Keys) && b == ConcatListed(files, t);
    ListsUnique(s, t, files.Keys);
  }

  /** One temporary file is renamed, and it has to be the one of offset 0; several are concatenated. */
  ghost predicate IsDestination(dst: seq<byte>, files: map<int, seq<byte>>) {
    if |files| == 1 then 0 in files && dst == files[0] else IsConcatenation(dst, files)
  }

  /** The rebuilt file does not depend on the order in which the map hands out its keys. */
  lemma DestinationUnique(a: seq<byte>, b: seq<byte>, files: map<int, seq<byte>>)
    requires IsDestination(a, files) && IsDestination(b, files)
    ensures a == b
  {
    if |files| != 1 {
      ConcatenationUnique(a, b, files);
    }
  }
}
