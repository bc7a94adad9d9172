/** The vector of values, with the vector of keys in front, reads back as a map. */
module FlexMapReads {
  import opened Options
  import opened Bytes
  import opened FlexTypes
  import opened FlexReader
  import opened FlexTree
  import opened FlexWidth
  import opened FlexImage
  import opened FlexVectorReads
  import opened FlexMap

  function IndexOf(ks: seq<seq<byte>>, k: seq<byte>): (i: nat)
    requires k in ks
    ensures i < |ks| && ks[i] == k
  {
    if ks[0] == k then 0
    else
      assert ks == [ks[0]] + ks[1..];
      1 + IndexOf(ks[1..], k)
  }

  /** The pairs as a map. */
  function MapOf(ks: seq<seq<byte>>, ts: seq<Tree>): map<seq<byte>, Tree>
    requires |ks| == |ts|
  {
    map k | k in ks :: ts[IndexOf(ks, k)]
  }

  lemma {:induction false} DistinctCount<T>(xs: seq<T>)
    requires Distinct(xs)
    ensures |set x | x in xs| == |xs|
  {
    if xs != [] {
      var n := |xs| - 1;
      DistinctCount(xs[..n]);
      assert (set x | x in xs) == (set x | x in xs[..n]) + {xs[n]};
    }
  }

  lemma DistinctAt<T>(xs: seq<T>, i: nat, j: nat)
    requires Distinct(xs) && i < |xs| && j < |xs| && xs[i] == xs[j]
    ensures i == j
  {
  }

  /** For distinct keys the map has one entry a pair, and each key its own tree. */
  lemma MapOfPairs(ks: seq<seq<byte>>, ts: seq<Tree>)
    requires |ks| == |ts| && Distinct(ks)
    ensures |MapOf(ks, ts)| == |ks|
    ensures forall i :: 0 <= i < |ks| ==> ks[i] in MapOf(ks, ts) && MapOf(ks, ts)[ks[i]] == ts[i]
  {
    DistinctCount(ks);
    assert MapOf(ks, ts).Keys == set k | k in ks;
    forall i | 0 <= i < |ks|
      ensures IndexOf(ks, ks[i]) == i
    {
      DistinctAt(ks, i, IndexOf(ks, ks[i]));
    }
  }

  /** Rearranging the pairs does not change the map. */
  lemma MapOfPicked(ks: seq<seq<byte>>, ts: seq<Tree>, order: seq<nat>)
    requires |ks| == |ts| && Distinct(ks) && Below(order, |ks|)
    requires forall i :: i in order <==> 0 <= i < |ks|
    requires Distinct(Pick(ks, order))
    ensures MapOf(Pick(ks, order), Pick(ts, order)) == MapOf(ks, ts)
  {
    var ps, qs := Pick(ks, order), Pick(ts, order);
    forall k | k in ks
      ensures k in ps && MapOf(ps, qs)[k] == MapOf(ks, ts)[k]
    {
      PickedPair(ks, ts, order, k);
    }
    PickedFrom(ks, order);
    assert forall k :: k in ps <==> k in ks;
  }

  lemma PickedFrom<T>(xs: seq<T>, order: seq<nat>)
    requires Below(order, |xs|)
    ensures forall x :: x in Pick(xs, order) ==> x in xs
  {
  }

  lemma PickedPair(ks: seq<seq<byte>>, ts: seq<Tree>, order: seq<nat>, k: seq<byte>)
    requires |ks| == |ts| && Distinct(ks) && Below(order, |ks|) && k in ks
    requires forall i :: i in order <==> 0 <= i < |ks|
    requires Distinct(Pick(ks, order))
    ensures k in Pick(ks, order)
    ensures MapOf(Pick(ks, order), Pick(ts, order))[k] == MapOf(ks, ts)[k]
  {
    var ps, qs := Pick(ks, order), Pick(ts, order);
    var i := IndexOf(ks, k);
    assert i in order;
    var j :| 0 <= j < |order| && order[j] == i;
    assert ps[j] == k && qs[j] == ts[i];
    MapOfPairs(ps, qs);
  }

  function KeyTrees(ks: seq<seq<byte>>): (ts: seq<Tree>)
    ensures |ts| == |ks| && forall i :: 0 <= i < |ks| ==> ts[i] == Key(ks[i])
  {
    seq(|ks|, i requires 0 <= i < |ks| => Key(ks[i]))
  }

  // ---------------------------------------------------------------- keys

  /** The keys vector, as `Map::Keys` and `bsearch` see it. */
  ghost predicate KeysAre(b: seq<byte>, keys: TypedVector, ks: seq<seq<byte>>) {
    && SizeAt(b, keys.data, keys.byteWidth) == Some(|ks|)
    && keys.byteWidth in {1, 2, 4, 8}
    && forall i: nat :: i < |ks| ==> KeyAt(b, keys, i) == Some(ks[i])
  }

  lemma KeyOfReference(b: seq<byte>, keys: TypedVector, i: nat, k: seq<byte>)
    requires Reads(b, Reference(keys.data + i * keys.byteWidth, keys.byteWidth, 1, FBT_KEY), Key(k))
    ensures KeyAt(b, keys, i) == Some(k)
  {
  }

  lemma KeysVectorReads(b: seq<byte>, v: Value, ks: seq<seq<byte>>)
    requires Denotes(b, v, Tree.TypedVector(FBT_KEY, KeyTrees(ks)))
    ensures KeysAre(b, FlexReader.TypedVector(v.u, ByteWidth(v.minWidth), FBT_KEY), ks)
  {
    var keys := FlexReader.TypedVector(v.u, ByteWidth(v.minWidth), FBT_KEY);
    var ts := KeyTrees(ks);
    assert ReadsAt(b, v.u, ByteWidth(v.minWidth), v.ty, Tree.TypedVector(FBT_KEY, ts));
    forall i: nat | i < |ks|
      ensures KeyAt(b, keys, i) == Some(ks[i])
    {
      assert Reads(b, TypedVectorAt(b, keys, i).value, ts[i]);
      KeyOfReference(b, keys, i, ks[i]);
    }
  }

  lemma KeysAreGrows(b: seq<byte>, b': seq<byte>, keys: TypedVector, ks: seq<seq<byte>>)
    requires b <= b' && KeysAre(b, keys, ks)
    ensures KeysAre(b', keys, ks)
  {
    ReadGrows(b, b', keys.data - keys.byteWidth, keys.byteWidth);
    forall i: nat | i < |ks|
      ensures KeyAt(b', keys, i) == Some(ks[i])
    {
      KeyAtGrows(b, b', keys, i);
    }
  }

  // ---------------------------------------------------------------- lookups

  /** A lookup goes to the value at the index that holds the key, or nowhere. */
  lemma LookupGoes(b: seq<byte>, pos: int, w: nat, keys: TypedVector, ks: seq<seq<byte>>, key: seq<byte>)
    requires KeysOf(b, pos, w) == Some(keys) && KeysAre(b, keys, ks) && Ascending(ks)
    ensures key !in ks ==> Lookup(b, pos, w, key) == Some(NULL_REFERENCE)
    ensures forall i :: 0 <= i < |ks| && ks[i] == key ==> Lookup(b, pos, w, key) == VectorAt(b, pos, w, i)
  {
    var f := KeyReader(b, keys);
    SearchFinds(f, ks, 0, |ks|, key);
    var r := BinarySearch(f, 0, |ks|, key).value;
    forall i | 0 <= i < |ks| && ks[i] == key
      ensures r == i
    {
      assert r != -1;
      AscendingDistinct(ks);
    }
  }

  lemma AscendingDistinct(ks: seq<seq<byte>>)
    requires Ascending(ks)
    ensures Distinct(ks)
  {
    hide Precedes;
    AscendingCompared(ks);
    forall i, j | 0 <= i < j < |ks|
      ensures ks[i] != ks[j]
    {
      assert StrCmp(ks[i], ks[j]) < 0;
    }
  }

  /** Keys in ascending order before a vector of values that read as `ts`. */
  ghost predicate MapLaid(b: seq<byte>, p: int, w: nat, keys: TypedVector, ks: seq<seq<byte>>, ts: seq<Tree>) {
    && |ks| == |ts| && Ascending(ks)
    && SizeAt(b, p, w) == Some(|ts|)
    && KeysOf(b, p, w) == Some(keys) && KeysAre(b, keys, ks)
    && forall i :: 0 <= i < |ts| ==> VectorAt(b, p, w, i).Some? && Reads(b, VectorAt(b, p, w, i).value, ts[i])
  }

  lemma MapWalks(b: seq<byte>, p: int, w: nat, keys: TypedVector, ks: seq<seq<byte>>, ts: seq<Tree>)
    requires MapLaid(b, p, w, keys, ks, ts)
    ensures KeysListed(b, keys, |ks|, MapOf(ks, ts).Keys)
    ensures WalkReads(b, p, w, keys, Map(MapOf(ks, ts)))
  {
    hide Reads, VectorAt, KeyAt, SizeAt, KeysOf, Ascending, KeysListed;
    AscendingDistinct(ks);
    MapOfPairs(ks, ts);
    ListsKeys(b, keys, ks, ts);
  }

  lemma KeysKeepOrder(b: seq<byte>, keys: TypedVector, ks: seq<seq<byte>>)
    requires Ascending(ks) && KeysAre(b, keys, ks)
    ensures forall i, j :: 0 <= i < j < |ks| ==> KeysInOrder(KeyAt(b, keys, i), KeyAt(b, keys, j))
  {
    hide KeyAt, SizeAt, Precedes;
  }

  lemma ListsKeys(b: seq<byte>, keys: TypedVector, ks: seq<seq<byte>>, ts: seq<Tree>)
    requires |ks| == |ts| && Ascending(ks) && KeysAre(b, keys, ks)
    ensures KeysListed(b, keys, |ks|, MapOf(ks, ts).Keys)
  {
    hide KeyAt, SizeAt, KeysInOrder, Ascending;
    KeysKeepOrder(b, keys, ks);
    AscendingDistinct(ks);
    MapOfPairs(ks, ts);
    forall k | k in MapOf(ks, ts).Keys
      ensures exists i :: 0 <= i < |ks| && KeyAt(b, keys, i) == Some(k)
    {
      assert KeyAt(b, keys, IndexOf(ks, k)) == Some(k);
    }
  }

  lemma MapLookups(b: seq<byte>, p: int, w: nat, keys: TypedVector, ks: seq<seq<byte>>, ts: seq<Tree>)
    requires MapLaid(b, p, w, keys, ks, ts)
    ensures LookupsRead(b, p, w, Map(MapOf(ks, ts)))
    ensures OthersAbsent(b, p, w, MapOf(ks, ts).Keys)
  {
    var t := Map(MapOf(ks, ts));
    forall k | k in t.entries
      ensures Lookup(b, p, w, k).Some? && Reads(b, Lookup(b, p, w, k).value, t.entries[k])
    {
      LookupGoes(b, p, w, keys, ks, k);
      assert t.entries[k] == ts[IndexOf(ks, k)];
    }
    forall k | NulFree(k) && k !in t.entries.Keys
      ensures Lookup(b, p, w, k) == Some(NULL_REFERENCE)
    {
      LookupGoes(b, p, w, keys, ks, k);
    }
  }

  /** A map all of whose values read gives the whole map: walked, looked up, and for absent keys. */
  lemma MapAssembled(b: seq<byte>, p: nat, bw: BitWidth, keys: TypedVector, ks: seq<seq<byte>>, ts: seq<Tree>)
    requires p <= |b| < TWO_64 && MapLaid(b, p, ByteWidth(bw), keys, ks, ts)
    ensures Denotes(b, Value(p, FBT_MAP, bw), Map(MapOf(ks, ts)))
  {
    AscendingDistinct(ks);
    MapOfPairs(ks, ts);
    MapWalks(b, p, ByteWidth(bw), keys, ks, ts);
    MapLookups(b, p, ByteWidth(bw), keys, ks, ts);
    assert ReadsAt(b, p, ByteWidth(bw), FBT_MAP, Map(MapOf(ks, ts)));
  }

  /** The two vectors `EndMap` creates denote the map of the pairs. */
  lemma MapReads(b: seq<byte>, b': seq<byte>, p: nat, vs: seq<Value>, ts: seq<Tree>, bw: BitWidth, keys: Value,
                 ks: seq<seq<byte>>)
    requires Extends(b, b', p, vs, ts, bw, false, false)
    requires |ks| == |ts| && Ascending(ks)
    requires Denotes(b, keys, Tree.TypedVector(FBT_KEY, KeyTrees(ks)))
    requires KeysOf(b', p, ByteWidth(bw)) == Some(FlexReader.TypedVector(keys.u, ByteWidth(keys.minWidth), FBT_KEY))
    ensures Denotes(b', Value(p, FBT_MAP, bw), Map(MapOf(ks, ts)))
  {
    var kv := FlexReader.TypedVector(keys.u, ByteWidth(keys.minWidth), FBT_KEY);
    KeysVectorReads(b, keys, ks);
    KeysAreGrows(b, b', kv, ks);
    SizeReads(b, b', p, vs, ts, bw, false);
    forall i | 0 <= i < |ts|
      ensures VectorAt(b', p, ByteWidth(bw), i).Some? && Reads(b', VectorAt(b', p, ByteWidth(bw), i).value, ts[i])
    {
      VectorElementReads(b, b', p, vs, ts, bw, i);
    }
    MapAssembled(b', p, bw, kv, ks, ts);
  }
}
