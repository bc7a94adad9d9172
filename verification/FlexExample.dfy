/** Two small buffers, byte by byte, and what they hold. */
module FlexExample {
  import opened Options
  import opened Bytes
  import opened FlexTypes
  import opened FlexReader
  import opened FlexTree

  function Signed(x: byte): int { if x < 128 then x as int else x as int - 256 }

  lemma OneByte(b: seq<byte>, p: nat)
    requires p < |b|
    ensures ReadUInt64(b, p, 1) == Some(b[p])
    ensures ReadInt64(b, p, 1) == Some(Signed(b[p]))
  {
    Powers();
    assert b[p..p + 1] == [b[p]];
    assert FromLE([b[p]]) == b[p] + 256 * FromLE([b[p]][1..]);
  }

  /** A text of two bytes and the number -2. */
  lemma VectorSample()
    ensures var b := [2, 104, 105, 0, 2, 4, 254, 20, 4, 4, 40, 1];
            GetRoot(b).Some? && Reads(b, GetRoot(b).value, Vector([Str([104, 105]), Int(-2)]))
  {
    hide ReadUInt64, ReadInt64;
    var b: seq<byte> := [2, 104, 105, 0, 2, 4, 254, 20, 4, 4, 40, 1];
    assert GetRoot(b) == Some(Reference(9, 1, 1, FBT_VECTOR));
    OneByte(b, 9);
    ElementsSample(b);
    var t := Vector([Str([104, 105]), Int(-2)]);
    assert Target(b, GetRoot(b).value) == Some(5);
    VectorThere(b, 5, t);
  }

  lemma ElementsSample(b: seq<byte>)
    requires b == [2, 104, 105, 0, 2, 4, 254, 20, 4, 4, 40, 1]
    ensures SizeAt(b, 5, 1) == Some(2)
    ensures VectorAt(b, 5, 1, 0) == Some(Reference(5, 1, 1, FBT_STRING))
    ensures VectorAt(b, 5, 1, 1) == Some(Reference(6, 1, 1, FBT_INT))
    ensures Reads(b, Reference(5, 1, 1, FBT_STRING), Str([104, 105]))
    ensures Reads(b, Reference(6, 1, 1, FBT_INT), Int(-2))
  {
    hide ReadUInt64, ReadInt64;
    OneByte(b, 0);
    OneByte(b, 4);
    OneByte(b, 5);
    OneByte(b, 6);
    assert b[1..3] == [104, 105];
  }

  lemma VectorThere(b: seq<byte>, pos: int, t: Tree)
    requires t == Vector([Str([104, 105]), Int(-2)]) && SizeAt(b, pos, 1) == Some(2)
    requires VectorAt(b, pos, 1, 0).Some? && Reads(b, VectorAt(b, pos, 1, 0).value, t.elems[0])
    requires VectorAt(b, pos, 1, 1).Some? && Reads(b, VectorAt(b, pos, 1, 1).value, t.elems[1])
    ensures ReadsAt(b, pos, 1, FBT_VECTOR, t)
  {
    hide VectorAt, SizeAt, Reads;
  }

  lemma KeySample(b: seq<byte>)
    requires b == [97, 0, 1, 3, 1, 1, 1, 5, 4, 2, 36, 1]
    ensures KeysOf(b, 7, 1) == Some(FlexReader.TypedVector(3, 1, FBT_KEY))
    ensures SizeAt(b, 3, 1) == Some(1) && SizeAt(b, 7, 1) == Some(1)
    ensures KeyAt(b, FlexReader.TypedVector(3, 1, FBT_KEY), 0) == Some([97])
    ensures VectorAt(b, 7, 1, 0) == Some(Reference(7, 1, 1, FBT_INT))
    ensures Reads(b, Reference(7, 1, 1, FBT_INT), Int(5))
  {
    OneByte(b, 2);
    OneByte(b, 3);
    OneByte(b, 4);
    OneByte(b, 5);
    OneByte(b, 6);
    OneByte(b, 7);
    assert CStr(b, 1) == Some([]) && b[0] == 97;
    assert CStr(b, 0) == Some([b[0]] + []);
    assert Indirect(b, 3, 1) == Some(0) && [97] + [] == [97];
  }

  lemma LookupSample(b: seq<byte>, k: seq<byte>)
    requires b == [97, 0, 1, 3, 1, 1, 1, 5, 4, 2, 36, 1]
    ensures Lookup(b, 7, 1, k) == Some(if k == [97] then Reference(7, 1, 1, FBT_INT) else NULL_REFERENCE)
  {
    hide FromLE, KeyAt, KeysOf, VectorAt, CStr, SizeAt, Reads, StrCmp, BinarySearch;
    KeySample(b);
    var keys := FlexReader.TypedVector(3, 1, FBT_KEY);
    SearchSample(KeyReader(b, keys), k);
  }

  lemma SearchSample(f: nat -> Option<seq<byte>>, k: seq<byte>)
    requires f(0) == Some([97])
    ensures BinarySearch(f, 0, 1, k) == Some(if k == [97] then 0 else -1)
  {
    hide StrCmp;
    assert BinarySearch(f, 0, 0, k) == Some(-1) && BinarySearch(f, 1, 1, k) == Some(-1);
  }

  lemma ReadsThere(b: seq<byte>, r: Reference, t: Tree)
    requires t.Map? && !IsInline(r.ty) && Target(b, r).Some? && ReadsAt(b, Target(b, r).value, r.byteWidth, r.ty, t)
    ensures Reads(b, r, t)
  {
    hide ReadsAt;
  }

  lemma EntriesSample(b: seq<byte>)
    requires b == [97, 0, 1, 3, 1, 1, 1, 5, 4, 2, 36, 1]
    ensures ReadsAt(b, 7, 1, FBT_MAP, Map(map[[97] := Int(5)]))
  {
    hide FromLE, KeyAt, KeysOf, VectorAt, CStr, SizeAt, Reads, Lookup;
    var t, keys := Map(map[[97] := Int(5)]), FlexReader.TypedVector(3, 1, FBT_KEY);
    KeySample(b);
    forall k
      ensures Lookup(b, 7, 1, k) == Some(if k == [97] then Reference(7, 1, 1, FBT_INT) else NULL_REFERENCE)
    {
      LookupSample(b, k);
    }
    assert KeysListed(b, keys, 1, {[97]}) by {
      assert KeyAt(b, keys, 0) == Some([97]);
    }
    assert WalkReads(b, 7, 1, keys, t);
    assert LookupsRead(b, 7, 1, t);
    assert OthersAbsent(b, 7, 1, {[97]});
    assert t.entries.Keys == {[97]};
  }

  /** The key "a" with the number 5. */
  lemma MapSample()
    ensures var b := [97, 0, 1, 3, 1, 1, 1, 5, 4, 2, 36, 1];
            GetRoot(b).Some? && Reads(b, GetRoot(b).value, Map(map[[97] := Int(5)]))
  {
    hide FromLE, ReadsAt, Reads;
    var b: seq<byte> := [97, 0, 1, 3, 1, 1, 1, 5, 4, 2, 36, 1];
    assert GetRoot(b) == Some(Reference(9, 1, 1, FBT_MAP));
    OneByte(b, 9);
    assert Target(b, GetRoot(b).value) == Some(7);
    EntriesSample(b);
    ReadsThere(b, GetRoot(b).value, Map(map[[97] := Int(5)]));
  }
}
