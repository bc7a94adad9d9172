/** Emitting a document depth-first, finishing, and reading it back. */
module FlexRoundTrip {
  import opened Options
  import opened Bytes
  import opened FlexTypes
  import opened FlexReader
  import opened FlexTree
  import opened FlexWidth
  import opened FlexImage
  import opened FlexVector
  import opened FlexVectorReads
  import opened FlexMap
  import opened FlexMapReads
  import opened FlexPools
  import opened FlexFinish
  import opened FlexStack
  import opened FlexTidyStack
  import opened FlexAlignment
  import opened FlexBuilder

  /** What a caller emits: a value, an array of numbers, a vector, or keys with their values in any order. */
  datatype Doc =
    | Leaf(t: Tree)
    | Scalars(numbers: seq<int>, ety: Type, bw: BitWidth, fixedLen: bool)
    | Vec(elems: seq<Doc>, typed: bool, fixed: bool)
    | Dict(keys: seq<seq<byte>>, vals: seq<Doc>)

  ghost predicate WellFormed(d: Doc) {
    match d
    case Leaf(t) =>
      && !t.Vector? && !t.TypedVector? && !t.FixedVector? && !t.Map?
      && (t.Int? || t.IndirectInt? ==> IsI64(t.i))
      && (t.UInt? || t.IndirectUInt? ==> IsU64(t.u))
      && (t.Key? ==> NulFree(t.k))
    case Scalars(numbers, ety, bw, fixedLen) =>
      && AllElements(numbers, ety, bw) && ety in {FBT_INT, FBT_UINT, FBT_BOOL}
      && |numbers| < TWO_64 && WidthU(|numbers|) <= bw
      && (fixedLen ==> 2 <= |numbers| <= 4 && ety != FBT_BOOL)
    case Vec(elems, typed, fixed) =>
      && (forall i :: 0 <= i < |elems| ==> WellFormed(elems[i]))
      && TreesOk(TreesOf(elems), typed, fixed)
    case Dict(keys, vals) =>
      && |keys| == |vals| && Distinct(keys)
      && (forall i :: 0 <= i < |keys| ==> NulFree(keys[i]))
      && forall i :: 0 <= i < |vals| ==> WellFormed(vals[i])
  }

  /** The tree that the document stands for. */
  ghost function TreeOf(d: Doc): Tree {
    match d
    case Leaf(t) => t
    case Scalars(numbers, ety, bw, fixedLen) =>
      if !AllElements(numbers, ety, bw) then Tree.Null
      else if fixedLen then FixedVector(ety, ElementTrees(numbers, ety, bw))
      else Tree.TypedVector(ety, ElementTrees(numbers, ety, bw))
    case Vec(elems, typed, fixed) => VectorTree(TreesOf(elems), typed, fixed)
    case Dict(keys, vals) => if |keys| != |vals| then Tree.Null else Map(MapOf(keys, TreesOf(vals)))
  }

  ghost function TreesOf(ds: seq<Doc>): (ts: seq<Tree>)
    ensures |ts| == |ds| && forall i :: 0 <= i < |ds| ==> ts[i] == TreeOf(ds[i])
  {
    seq(|ds|, i requires 0 <= i < |ds| => TreeOf(ds[i]))
  }

  /** The string occurs in the document. */
  ghost predicate HasText(d: Doc, s: seq<byte>) {
    match d
    case Leaf(t) => t == Str(s)
    case Scalars(_, _, _, _) => false
    case Vec(elems, _, _) => exists i :: 0 <= i < |elems| && HasText(elems[i], s)
    case Dict(_, vals) => exists i :: 0 <= i < |vals| && HasText(vals[i], s)
  }

  ghost function TextsOf(d: Doc): iset<seq<byte>> { iset s | HasText(d, s) }

  /** No two different strings agree up to their first NUL, so that the pool cannot take one for the other. */
  ghost predicate Unconfused(known: iset<seq<byte>>) {
    forall x, y :: x in known && y in known && Truncate(x) == Truncate(y) ==> x == y
  }

  lemma NulFreeUnconfused(known: iset<seq<byte>>)
    requires forall x :: x in known ==> NulFree(x)
    ensures Unconfused(known)
  {
    forall x, y | x in known && y in known && Truncate(x) == Truncate(y)
      ensures x == y
    {
      NulFreeWhole(x);
      NulFreeWhole(y);
    }
  }

  ghost predicate TextsIn(d: Doc, known: iset<seq<byte>>) {
    match d
    case Leaf(t) => t.Str? ==> t.s in known
    case Scalars(_, _, _, _) => true
    case Vec(elems, _, _) => forall i :: 0 <= i < |elems| ==> TextsIn(elems[i], known)
    case Dict(_, vals) => forall i :: 0 <= i < |vals| ==> TextsIn(vals[i], known)
  }

  lemma {:induction false} AllTextsIn(d: Doc, known: iset<seq<byte>>)
    requires forall s :: HasText(d, s) ==> s in known
    ensures TextsIn(d, known)
    decreases d
  {
    match d
    case Leaf(t) =>
      if t.Str? {
        assert HasText(d, t.s);
      }
    case Scalars(_, _, _, _) =>
    case Vec(elems, _, _) =>
      forall i | 0 <= i < |elems|
        ensures TextsIn(elems[i], known)
      {
        AllTextsIn(elems[i], known);
      }
    case Dict(_, vals) =>
      forall i | 0 <= i < |vals|
        ensures TextsIn(vals[i], known)
      {
        AllTextsIn(vals[i], known);
      }
  }

  /** A bound on the bytes and the stack that emitting the document takes. */
  ghost function Weight(d: Doc): nat {
    match d
    case Leaf(t) => 32 + if t.Key? then |t.k| else if t.Str? || t.Blob? then |t.s| else 0
    case Scalars(numbers, _, _, _) => 8 * |numbers| + 40
    case Vec(elems, _, _) => WeightAll(elems) + 10 * |elems| + 48
    case Dict(keys, vals) => KeysWeight(keys) + WeightAll(vals) + 40 * |keys| + 96
  }

  ghost function WeightAll(ds: seq<Doc>): nat {
    if ds == [] then 0 else WeightAll(ds[..|ds| - 1]) + Weight(ds[|ds| - 1])
  }

  ghost function KeysWeight(ks: seq<seq<byte>>): nat {
    if ks == [] then 0 else KeysWeight(ks[..|ks| - 1]) + |ks[|ks| - 1]| + 1
  }

  lemma {:induction false} WeightUpTo(ds: seq<Doc>, k: nat)
    requires k < |ds|
    ensures WeightAll(ds[..k]) + Weight(ds[k]) == WeightAll(ds[..k + 1]) <= WeightAll(ds)
    decreases |ds|
  {
    var n := |ds| - 1;
    assert ds[..k + 1][..k] == ds[..k];
    if k < n {
      WeightUpTo(ds[..n], k);
      assert ds[..n][..k] == ds[..k] && ds[..n][..k + 1] == ds[..k + 1];
    } else {
      assert ds[..k + 1] == ds;
    }
  }

  lemma {:induction false} KeysWeightUpTo(ks: seq<seq<byte>>, k: nat)
    requires k < |ks|
    ensures KeysWeight(ks[..k]) + |ks[k]| + 1 == KeysWeight(ks[..k + 1]) <= KeysWeight(ks)
    decreases |ks|
  {
    var n := |ks| - 1;
    assert ks[..k + 1][..k] == ks[..k];
    if k < n {
      KeysWeightUpTo(ks[..n], k);
      assert ks[..n][..k] == ks[..k] && ks[..n][..k + 1] == ks[..k + 1];
    } else {
      assert ks[..k + 1] == ks;
    }
  }

  /** The strings pooled so far are known ones, if strings are shared at all. */
  ghost predicate PoolKnown(b: Builder, known: iset<seq<byte>>)
    reads b
  {
    b.shareStrings ==>
      && Unconfused(known) && StringPoolOk(b.buf, b.stringPool)
      && forall e :: e in b.stringPool ==> b.buf[e.0..e.0 + e.1] in known
  }

  ghost predicate Ready(b: Builder, weight: nat, known: iset<seq<byte>>)
    reads b
  {
    && b.Valid() && b.IsTidy() && PoolKnown(b, known)
    && |b.buf| + weight <= MAX_BYTES && |b.stack| + weight <= MAX_VALUES
  }

  /** The calls made for a part leave everything before it in place and use no more than its weight. */
  twostate predicate Extended(b: Builder, weight: nat, known: iset<seq<byte>>)
    reads b
  {
    && b.Valid() && b.IsTidy() && PoolKnown(b, known)
    && old(b.buf) <= b.buf && |b.buf| <= old(|b.buf|) + weight
  }

  method EmitLeaf(b: Builder, t: Tree, ghost known: iset<seq<byte>>)
    requires WellFormed(Leaf(t)) && Ready(b, Weight(Leaf(t)), known) && (b.shareStrings ==> TextsIn(Leaf(t), known))
    modifies b
    ensures Extended(b, Weight(Leaf(t)), known) && b.trees == old(b.trees) + [t]
  {
    hide Denotes, KeyPoolOk, StringPoolOk, Truncate;
    if t.Str? {
      EmitString(b, t.s, known);
    } else {
      EmitOther(b, t, known);
    }
  }

  method EmitOther(b: Builder, t: Tree, ghost known: iset<seq<byte>>)
    requires WellFormed(Leaf(t)) && !t.Str? && Ready(b, Weight(Leaf(t)), known)
    modifies b
    ensures Extended(b, Weight(Leaf(t)), known) && b.trees == old(b.trees) + [t]
  {
    hide Denotes, KeyPoolOk, StringPoolOk, Truncate, AllTidy;
    match t {
    case Null => b.Null();
    case Bool(x) => b.Bool(x);
    case Int(i) => b.Int(i);
    case UInt(u) => b.UInt(u);
    case IndirectInt(i) => b.IndirectInt(i);
    case IndirectUInt(u) => b.IndirectUInt(u);
    case Key(k) =>
      NulFreeWhole(k);
      var _ := b.Key(k);
    case Blob(s) => var _ := b.Blob(s);
    }
    StringPoolGrows(old(b.buf), b.buf, b.stringPool);
  }

  lemma NeverClash(x: seq<byte>, y: seq<byte>, known: iset<seq<byte>>)
    requires Unconfused(known) && x in known && y in known
    ensures !Clash(x, y)
  {
  }

  method EmitString(b: Builder, s: seq<byte>, ghost known: iset<seq<byte>>)
    requires Ready(b, Weight(Leaf(Str(s))), known) && (b.shareStrings ==> s in known)
    modifies b
    ensures Extended(b, Weight(Leaf(Str(s))), known) && b.trees == old(b.trees) + [Str(s)]
  {
    hide Denotes, KeyPoolOk, Truncate, Clash, SizedBytes;
    if b.shareStrings {
      forall e | e in b.stringPool
        ensures !Clash(b.buf[e.0..e.0 + e.1], s)
      {
        NeverClash(b.buf[e.0..e.0 + e.1], s, known);
      }
    }
    var _ := b.String(s);
    StringPoolGrows(old(b.buf), b.buf, old(b.stringPool));
  }

  /**
   * With strings shared, "a\0c" written after "a\0b" is lost: the finished buffer reads "a\0b" twice, and cannot be
   * read as the two strings that were written.
   */
  method ConfusedStrings() returns (buffer: seq<byte>)
    ensures GetRoot(buffer).Some?
    ensures Reads(buffer, GetRoot(buffer).value, Vector([Str([97, 0, 98]), Str([97, 0, 98])]))
    ensures !Reads(buffer, GetRoot(buffer).value, Vector([Str([97, 0, 98]), Str([97, 0, 99])]))
  {
    hide Denotes, SizedBytes, KeyPoolOk, Reads, AllDenote, Clash, Truncate, StringPoolOk, SameString, BlobImage, Zeros,
      AlignUp, Created, CanCreate, RootImage, ElemWidth, AllTidy, Lies;
    var first: seq<byte>, second: seq<byte> := [97, 0, 98], [97, 0, 99];
    var b := new Builder(false, true);
    b.StackCount();
    var start := b.StartVector();
    var _ := b.String(first);
    b.StackCount();
    NulsClash();
    var _ := b.String(second);
    b.StackCount();
    assert b.trees == [Str(first), Str(first)];
    var _ := b.EndVector(start, false, false);
    b.StackCount();
    b.Finish();
    buffer := b.buf;
    assert [Str(first), Str(first)][1] != [Str(first), Str(second)][1];
    ReadsNoOther(buffer, GetRoot(buffer).value, Vector([Str(first), Str(first)]), Vector([Str(first), Str(second)]));
  }

  lemma ReadsNoOther(b: seq<byte>, r: Reference, t: Tree, other: Tree)
    requires Reads(b, r, t) && t != other
    ensures !Reads(b, r, other)
  {
    if Reads(b, r, other) {
      ReadsUnique(b, r, t, other);
    }
  }

  /** Depth first: the parts, then the vector or map of them. */
  method Emit(b: Builder, d: Doc, ghost known: iset<seq<byte>>)
    requires WellFormed(d) && Ready(b, Weight(d), known) && (b.shareStrings ==> TextsIn(d, known))
    modifies b
    ensures Extended(b, Weight(d), known) && b.trees == old(b.trees) + [TreeOf(d)]
    decreases d, 1
  {
    match d
    case Leaf(t) =>
      EmitLeaf(b, t, known);
    case Scalars(numbers, ety, bw, fixedLen) =>
      var _ := b.ScalarVector(numbers, ety, bw, fixedLen);
      StringPoolGrows(old(b.buf), b.buf, b.stringPool);
    case Vec(elems, typed, fixed) =>
      EmitVector(b, elems, typed, fixed, known);
    case Dict(keys, vals) =>
      EmitMap(b, keys, vals, known);
  }

  method EmitVector(b: Builder, elems: seq<Doc>, typed: bool, fixed: bool, ghost known: iset<seq<byte>>)
    requires WellFormed(Vec(elems, typed, fixed)) && Ready(b, Weight(Vec(elems, typed, fixed)), known)
    requires b.shareStrings ==> TextsIn(Vec(elems, typed, fixed), known)
    modifies b
    ensures Extended(b, Weight(Vec(elems, typed, fixed)), known)
    ensures b.trees == old(b.trees) + [TreeOf(Vec(elems, typed, fixed))]
    decreases elems, 1
  {
    hide Denotes, KeyPoolOk, StringPoolOk, Created, CanCreate, AllTidy;
    var start := b.StartVector();
    EmitAll(b, elems, known);
    label Parts:
    assert b.trees[start..] == TreesOf(elems) && b.trees[..start] == old(b.trees);
    var _ := b.EndVector(start, typed, fixed);
    StringPoolGrows(old@Parts(b.buf), b.buf, b.stringPool);
  }

  method EmitAll(b: Builder, elems: seq<Doc>, ghost known: iset<seq<byte>>)
    requires forall i :: 0 <= i < |elems| ==> WellFormed(elems[i]) && (b.shareStrings ==> TextsIn(elems[i], known))
    requires Ready(b, WeightAll(elems) + |elems|, known)
    modifies b
    ensures Extended(b, WeightAll(elems), known) && b.trees == old(b.trees) + TreesOf(elems)
    decreases elems, 0
  {
    hide Builder.Valid, PoolKnown, WellFormed, TextsIn, Weight, TreeOf;
    b.StackCount();
    var i := 0;
    while i < |elems|
      invariant 0 <= i <= |elems|
      invariant Extended(b, WeightAll(elems[..i]), known) && b.trees == old(b.trees) + TreesOf(elems[..i])
    {
      WeightUpTo(elems, i);
      b.StackCount();
      Emit(b, elems[i], known);
      assert TreesOf(elems[..i + 1]) == TreesOf(elems[..i]) + [TreeOf(elems[i])];
      i := i + 1;
    }
    assert elems[..i] == elems;
  }

  lemma {:induction false} InterleaveSnoc<T>(ks: seq<T>, vs: seq<T>, k: T, v: T)
    requires |ks| == |vs|
    ensures Interleave(ks + [k], vs + [v]) == Interleave(ks, vs) + [k, v]
    decreases |ks|
  {
    if ks == [] {
      assert Interleave([k][1..], [v][1..]) == [];
    } else {
      InterleaveSnoc(ks[1..], vs[1..], k, v);
      assert (ks + [k])[1..] == ks[1..] + [k] && (vs + [v])[1..] == vs[1..] + [v];
    }
  }

  method EmitMap(b: Builder, keys: seq<seq<byte>>, vals: seq<Doc>, ghost known: iset<seq<byte>>)
    requires WellFormed(Dict(keys, vals)) && Ready(b, Weight(Dict(keys, vals)), known)
    requires b.shareStrings ==> TextsIn(Dict(keys, vals), known)
    modifies b
    ensures Extended(b, Weight(Dict(keys, vals)), known)
    ensures b.trees == old(b.trees) + [TreeOf(Dict(keys, vals))]
    decreases vals, 1
  {
    hide Denotes, KeyPoolOk, StringPoolOk, Interleave, Strided, KeysWeight, WeightAll, MapOf;
    var start := b.StartVector();
    EmitPairs(b, keys, vals, known);
    label Parts:
    InterleaveStrided(old(b.trees), KeyTrees(keys), TreesOf(vals));
    assert KeyContents(KeyTrees(keys)) == keys;
    assert b.trees[..start] == old(b.trees);
    var _ := b.EndMap(start);
    StringPoolGrows(old@Parts(b.buf), b.buf, b.stringPool);
  }

  method EmitPair(b: Builder, key: seq<byte>, val: Doc, ghost known: iset<seq<byte>>)
    requires NulFree(key) && WellFormed(val) && (b.shareStrings ==> TextsIn(val, known))
    requires Ready(b, |key| + Weight(val) + 12, known)
    modifies b
    ensures Extended(b, |key| + 1 + Weight(val), known) && |b.stack| == old(|b.stack|) + 2
    ensures b.trees == old(b.trees) + [Tree.Key(key), TreeOf(val)]
    decreases val, 2
  {
    hide Denotes, KeyPoolOk, StringPoolOk, Truncate, HasKey;
    NulFreeWhole(key);
    var _ := b.Key(key);
    StringPoolGrows(old(b.buf), b.buf, b.stringPool);
    Emit(b, val, known);
  }

  /** The values that the first `i` keys and their values put on the stack. */
  ghost function PairTrees(keys: seq<seq<byte>>, vals: seq<Doc>, i: nat): seq<Tree>
    requires i <= |keys| == |vals|
  {
    Interleave(KeyTrees(keys[..i]), TreesOf(vals[..i]))
  }

  ghost function PairsWeight(keys: seq<seq<byte>>, vals: seq<Doc>, i: nat): nat
    requires i <= |keys| == |vals|
  {
    KeysWeight(keys[..i]) + WeightAll(vals[..i])
  }

  lemma PairTreesStep(base: seq<Tree>, keys: seq<seq<byte>>, vals: seq<Doc>, i: nat)
    requires i < |keys| == |vals|
    ensures base + PairTrees(keys, vals, i) + [Tree.Key(keys[i]), TreeOf(vals[i])] ==
      base + PairTrees(keys, vals, i + 1)
  {
    hide Interleave, TreeOf;
    InterleaveSnoc(KeyTrees(keys[..i]), TreesOf(vals[..i]), Tree.Key(keys[i]), TreeOf(vals[i]));
    assert KeyTrees(keys[..i + 1]) == KeyTrees(keys[..i]) + [Tree.Key(keys[i])];
    assert TreesOf(vals[..i + 1]) == TreesOf(vals[..i]) + [TreeOf(vals[i])];
  }

  lemma PairsWeightStep(keys: seq<seq<byte>>, vals: seq<Doc>, i: nat)
    requires i < |keys| == |vals|
    ensures PairsWeight(keys, vals, i) + |keys[i]| + 1 + Weight(vals[i]) == PairsWeight(keys, vals, i + 1)
    ensures PairsWeight(keys, vals, i + 1) <= KeysWeight(keys) + WeightAll(vals)
  {
    WeightUpTo(vals, i);
    KeysWeightUpTo(keys, i);
  }

  lemma PairsWhole(keys: seq<seq<byte>>, vals: seq<Doc>)
    requires |keys| == |vals|
    ensures PairTrees(keys, vals, 0) == [] && PairsWeight(keys, vals, 0) == 0
    ensures PairTrees(keys, vals, |keys|) == Interleave(KeyTrees(keys), TreesOf(vals))
    ensures PairsWeight(keys, vals, |keys|) == KeysWeight(keys) + WeightAll(vals)
  {
    assert keys[..|keys|] == keys && vals[..|vals|] == vals;
  }

  method EmitPairs(b: Builder, keys: seq<seq<byte>>, vals: seq<Doc>, ghost known: iset<seq<byte>>)
    requires |keys| == |vals| && forall i :: 0 <= i < |keys| ==> NulFree(keys[i])
    requires forall i :: 0 <= i < |vals| ==> WellFormed(vals[i]) && (b.shareStrings ==> TextsIn(vals[i], known))
    requires Ready(b, KeysWeight(keys) + WeightAll(vals) + 2 * |keys| + 12, known)
    modifies b
    ensures Extended(b, KeysWeight(keys) + WeightAll(vals), known)
    ensures b.trees == old(b.trees) + Interleave(KeyTrees(keys), TreesOf(vals))
    decreases vals, 0
  {
    hide Builder.Valid, PoolKnown, PairTrees, PairsWeight, Interleave, KeyTrees, TreesOf;
    hide WellFormed, TextsIn, NulFree, Weight, KeysWeight, WeightAll, TreeOf;
    PairsWhole(keys, vals);
    var i := 0;
    while i < |keys|
      invariant 0 <= i <= |keys|
      invariant Extended(b, PairsWeight(keys, vals, i), known) && |b.stack| == old(|b.stack|) + 2 * i
      invariant b.trees == old(b.trees) + PairTrees(keys, vals, i)
    {
      PairsWeightStep(keys, vals, i);
      PairTreesStep(old(b.trees), keys, vals, i);
      EmitPair(b, keys[i], vals[i], known);
      i := i + 1;
    }
  }

  /** The whole round trip: whatever the flags, the root of the finished buffer reads the document. */
  method Serialize(d: Doc, shareKeys: bool, shareStrings: bool, force: BitWidth) returns (buffer: seq<byte>)
    requires WellFormed(d) && Weight(d) + 24 <= MAX_VALUES
    requires shareStrings ==> Unconfused(TextsOf(d))
    ensures GetRoot(buffer).Some? && Reads(buffer, GetRoot(buffer).value, TreeOf(d))
    ensures AlignedTree(buffer, GetRoot(buffer).value, TreeOf(d)) && Mutable(buffer, TreeOf(d))
  {
    hide Mutable, AllTidy, AlignedTree;
    ghost var known := TextsOf(d);
    AllTextsIn(d, known);
    var b := new Builder(shareKeys, shareStrings);
    b.ForceMinimumBitWidth(force);
    Emit(b, d, known);
    b.Finish();
    buffer := b.buf;
    FinishedAligned(buffer, TreeOf(d));
  }

  /** Buffers of one document, built with any flags, cannot be told apart by reading. */
  lemma SharingTransparent(d: Doc, plain: seq<byte>, shared: seq<byte>, t: Tree)
    requires GetRoot(plain).Some? && Reads(plain, GetRoot(plain).value, TreeOf(d))
    requires GetRoot(shared).Some? && Reads(shared, GetRoot(shared).value, TreeOf(d))
    ensures Reads(plain, GetRoot(plain).value, t) <==> Reads(shared, GetRoot(shared).value, t)
  {
    if Reads(plain, GetRoot(plain).value, t) {
      ReadsUnique(plain, GetRoot(plain).value, TreeOf(d), t);
    }
    if Reads(shared, GetRoot(shared).value, t) {
      ReadsUnique(shared, GetRoot(shared).value, TreeOf(d), t);
    }
  }
}
