/** Which bytes are read for a tree, and that the tree reads the same wherever those bytes are the same. */
module FlexFootprint {
  import opened Options
  import opened Bytes
  import opened FlexTypes
  import opened FlexReader
  import opened FlexTree

  /** The `n` bytes at `p` are all in the set. */
  ghost predicate In(p: int, n: nat, s: iset<int>) {
    forall k :: p <= k < p + n ==> k in s
  }

  /** On these bytes `c` has what `b` has. */
  ghost predicate Agree(b: seq<byte>, c: seq<byte>, s: iset<int>) {
    |b| <= |c| && forall k :: k in s && 0 <= k < |b| ==> c[k] == b[k]
  }

  lemma BytesAgree(b: seq<byte>, c: seq<byte>, s: iset<int>, p: int, n: nat)
    requires Agree(b, c, s) && In(p, n, s) && ReadBytes(b, p, n).Some?
    ensures ReadBytes(c, p, n) == ReadBytes(b, p, n)
  {
    var x, y := b[p..p + n], c[p..p + n];
    assert x == y;
  }

  lemma ScalarAgrees(b: seq<byte>, c: seq<byte>, s: iset<int>, p: int, w: nat)
    requires Agree(b, c, s) && In(p, ScalarSize(w), s) && ReadUInt64(b, p, w).Some?
    ensures ReadUInt64(c, p, w) == ReadUInt64(b, p, w) && ReadInt64(c, p, w) == ReadInt64(b, p, w)
    ensures Indirect(c, p, w) == Indirect(b, p, w)
  {
    BytesAgree(b, c, s, p, ScalarSize(w));
  }

  lemma {:induction false} CStrAgrees(b: seq<byte>, c: seq<byte>, s: iset<int>, p: int)
    requires Agree(b, c, s) && CStr(b, p).Some? && In(p, |CStr(b, p).value| + 1, s)
    ensures CStr(c, p) == CStr(b, p)
    decreases |b| - p
  {
    if b[p] != 0 {
      CStrAgrees(b, c, s, p + 1);
    }
  }

  // ---------------------------------------------------------------- the parts of a tree

  predicate IsNumber(t: Tree) { t.Int? || t.UInt? || t.IndirectInt? || t.IndirectUInt? }

  predicate IsCompound(t: Tree) { t.Vector? || t.TypedVector? || t.FixedVector? || t.Map? }

  /** The number of elements of a vector or map. */
  function Count(t: Tree): nat {
    if t.Map? then |t.entries| else if IsCompound(t) then |t.elems| else 0
  }

  /** The reference to the i-th element of what lies at `pos`. */
  function ElemRef(b: seq<byte>, pos: int, w: nat, t: Tree, i: nat): Option<Reference> {
    match t
    case TypedVector(ety, _) => TypedVectorAt(b, FlexReader.TypedVector(pos, w, ety), i)
    case FixedVector(ety, elems) => Some(FixedTypedVectorAt(FlexReader.TypedVector(pos, w, ety), |elems|, i))
    case _ => VectorAt(b, pos, w, i)
  }

  /** The i-th key of the map at `pos`. */
  function MapKey(b: seq<byte>, pos: int, w: nat, i: nat): Option<seq<byte>> {
    var keys :- KeysOf(b, pos, w);
    KeyAt(b, keys, i)
  }

  ghost predicate HasElem(b: seq<byte>, pos: int, w: nat, t: Tree, i: nat) {
    && i < Count(t) && ElemRef(b, pos, w, t, i).Some?
    && (t.Map? ==> MapKey(b, pos, w, i).Some? && MapKey(b, pos, w, i).value in t.entries)
  }

  /** The i-th element. */
  ghost function ElemTree(b: seq<byte>, pos: int, w: nat, t: Tree, i: nat): (e: Tree)
    requires HasElem(b, pos, w, t, i)
    ensures e < t
  {
    if t.Map? then t.entries[MapKey(b, pos, w, i).value] else t.elems[i]
  }

  /** What the accessors read in a vector or map itself: its size, its types, and the keys of a map. */
  ghost predicate FrameIn(b: seq<byte>, pos: int, w: nat, t: Tree, s: iset<int>) {
    && (!t.FixedVector? ==> In(pos - w, ScalarSize(w), s))
    && (t.Vector? || t.Map? ==> In(pos + Count(t) * w, Count(t), s))
    && (t.Map? ==> KeysIn(b, pos, w, |t.entries|, s))
  }

  ghost predicate KeysIn(b: seq<byte>, pos: int, w: nat, n: nat, s: iset<int>) {
    && In(pos - w * 3, ScalarSize(w), s) && In(pos - w * 3 + w, ScalarSize(w), s)
    && KeysOf(b, pos, w).Some?
    && var keys := KeysOf(b, pos, w).value;
       && In(keys.data - keys.byteWidth, ScalarSize(keys.byteWidth), s)
       && forall i :: 0 <= i < n ==> KeyIn(b, keys, i, s)
  }

  ghost predicate KeyIn(b: seq<byte>, keys: TypedVector, i: nat, s: iset<int>) {
    && In(keys.data + i * keys.byteWidth, ScalarSize(keys.byteWidth), s)
    && Indirect(b, keys.data + i * keys.byteWidth, keys.byteWidth).Some?
    && KeyAt(b, keys, i).Some?
    && In(Indirect(b, keys.data + i * keys.byteWidth, keys.byteWidth).value, |KeyAt(b, keys, i).value| + 1, s)
  }

  /** What is read at `pos` for a string, a blob, a key or an indirect number. */
  ghost predicate LeafIn(pos: int, w: nat, t: Tree, s: iset<int>) {
    match t
    case IndirectInt(_) => In(pos, ScalarSize(w), s)
    case IndirectUInt(_) => In(pos, ScalarSize(w), s)
    case Key(k) => In(pos, |k| + 1, s)
    case Str(x) => In(pos - w, ScalarSize(w), s) && In(pos, |x|, s)
    case Blob(x) => In(pos - w, ScalarSize(w), s) && In(pos, |x|, s)
    case _ => true
  }

  /** Everything that is read for the tree is in the set. */
  ghost predicate Uses(b: seq<byte>, r: Reference, t: Tree, s: iset<int>)
    decreases t, 2
  {
    t.Null? || (
      && In(r.data, ScalarSize(r.parentWidth), s)
      && (t.Bool? || t.Int? || t.UInt? ||
          (Target(b, r).Some? && UsesAt(b, Target(b, r).value, r.byteWidth, t, s))))
  }

  ghost predicate UsesAt(b: seq<byte>, pos: int, w: nat, t: Tree, s: iset<int>)
    decreases t, 1
  {
    if IsCompound(t) then FrameIn(b, pos, w, t, s) && forall i :: 0 <= i < Count(t) ==> ElemUses(b, pos, w, t, i, s)
    else LeafIn(pos, w, t, s)
  }

  ghost predicate ElemUses(b: seq<byte>, pos: int, w: nat, t: Tree, i: nat, s: iset<int>)
    decreases t, 0
  {
    HasElem(b, pos, w, t, i) && Uses(b, ElemRef(b, pos, w, t, i).value, ElemTree(b, pos, w, t, i), s)
  }

  // ---------------------------------------------------------------- the frame of a vector or map

  /** Two vectors or maps that differ at most in their elements. */
  ghost predicate SameShape(t: Tree, u: Tree) {
    match t
    case Vector(elems) => u.Vector? && |u.elems| == |elems|
    case TypedVector(ety, elems) => u.TypedVector? && u.ety == ety && |u.elems| == |elems|
    case FixedVector(ety, elems) => u.FixedVector? && u.ety == ety && |u.elems| == |elems|
    case Map(entries) =>
      && u.Map? && u.entries.Keys == entries.Keys && |u.entries| == |entries|
      && forall k :: k in entries && entries[k].Null? ==> u.entries[k].Null?
    case _ => false
  }

  /** Every element of what is read at `pos` reads as the tree's element. */
  ghost predicate ElemReads(b: seq<byte>, pos: int, w: nat, t: Tree, i: nat) {
    HasElem(b, pos, w, t, i) && Reads(b, ElemRef(b, pos, w, t, i).value, ElemTree(b, pos, w, t, i))
  }

  lemma ReadsElem(b: seq<byte>, pos: int, w: nat, ty: Type, t: Tree, i: nat)
    requires IsCompound(t) && ReadsAt(b, pos, w, ty, t) && i < Count(t)
    ensures ElemReads(b, pos, w, t, i)
  {
    if t.Map? {
      assert WalkReads(b, pos, w, KeysOf(b, pos, w).value, t);
    }
  }

  lemma KeyAgrees(b: seq<byte>, c: seq<byte>, keys: TypedVector, i: nat, s: iset<int>)
    requires Agree(b, c, s) && KeyIn(b, keys, i, s)
    ensures KeyAt(c, keys, i) == KeyAt(b, keys, i) && KeyIn(c, keys, i, s)
  {
    ScalarAgrees(b, c, s, keys.data + i * keys.byteWidth, keys.byteWidth);
    CStrAgrees(b, c, s, Indirect(b, keys.data + i * keys.byteWidth, keys.byteWidth).value);
  }

  lemma KeysAgree(b: seq<byte>, c: seq<byte>, pos: int, w: nat, n: nat, s: iset<int>)
    requires Agree(b, c, s) && KeysIn(b, pos, w, n, s)
    ensures KeysOf(c, pos, w) == KeysOf(b, pos, w) && KeysIn(c, pos, w, n, s)
    ensures forall i :: 0 <= i < n ==> KeyAt(c, KeysOf(b, pos, w).value, i) == KeyAt(b, KeysOf(b, pos, w).value, i)
  {
    hide KeyIn, KeyAt;
    ScalarAgrees(b, c, s, pos - w * 3, w);
    ScalarAgrees(b, c, s, pos - w * 3 + w, w);
    var keys := KeysOf(b, pos, w).value;
    forall i | 0 <= i < n
      ensures KeyAt(c, keys, i) == KeyAt(b, keys, i) && KeyIn(c, keys, i, s)
    {
      KeyAgrees(b, c, keys, i, s);
    }
  }

  /** The frame is the same, and so are the references to the elements. */
  lemma FrameAgrees(b: seq<byte>, c: seq<byte>, pos: int, w: nat, ty: Type, t: Tree, s: iset<int>)
    requires Agree(b, c, s) && IsCompound(t) && ReadsAt(b, pos, w, ty, t) && FrameIn(b, pos, w, t, s)
    ensures FrameIn(c, pos, w, t, s)
    ensures !t.FixedVector? ==> SizeAt(c, pos, w) == SizeAt(b, pos, w)
    ensures forall i :: 0 <= i < Count(t) ==> ElemRef(c, pos, w, t, i) == ElemRef(b, pos, w, t, i)
    ensures t.Map? ==> KeysOf(c, pos, w) == KeysOf(b, pos, w)
    ensures t.Map? ==> forall i :: 0 <= i < Count(t) ==> MapKey(c, pos, w, i) == MapKey(b, pos, w, i)
  {
    hide Reads, KeysIn, In, Agree, KeysListed, OthersAbsent, WalkReads, LookupsRead, KeyAt, SizeAt, VectorAt, KeysOf;
    if !t.FixedVector? {
      SizeAgrees(b, c, pos, w, ty, t, s);
    }
    if t.Vector? || t.Map? {
      forall i | 0 <= i < Count(t)
        ensures VectorAt(c, pos, w, i) == VectorAt(b, pos, w, i)
      {
        ReadsElem(b, pos, w, ty, t, i);
        ElemAgrees(b, c, pos, w, Count(t), i, s);
      }
    }
    if t.Map? {
      KeysAgree(b, c, pos, w, |t.entries|, s);
    }
  }

  lemma SizeAgrees(b: seq<byte>, c: seq<byte>, pos: int, w: nat, ty: Type, t: Tree, s: iset<int>)
    requires Agree(b, c, s) && IsCompound(t) && !t.FixedVector? && ReadsAt(b, pos, w, ty, t)
    requires In(pos - w, ScalarSize(w), s)
    ensures SizeAt(b, pos, w) == SizeAt(c, pos, w) == Some(Count(t))
  {
    hide Reads, In, Agree, KeysListed, OthersAbsent, WalkReads, LookupsRead;
    ScalarAgrees(b, c, s, pos - w, w);
  }

  lemma ElemAgrees(b: seq<byte>, c: seq<byte>, pos: int, w: nat, n: nat, i: nat, s: iset<int>)
    requires Agree(b, c, s) && SizeAt(b, pos, w) == SizeAt(c, pos, w) == Some(n) && i < n
    requires In(pos + n * w, n, s) && VectorAt(b, pos, w, i).Some?
    ensures VectorAt(c, pos, w, i) == VectorAt(b, pos, w, i)
  {
    hide In, Agree, SizeAt;
    TypeAgrees(b, c, pos + n * w, n, i, s);
  }

  lemma TypeAgrees(b: seq<byte>, c: seq<byte>, p: int, n: nat, i: nat, s: iset<int>)
    requires Agree(b, c, s) && In(p, n, s) && i < n && ReadBytes(b, p + i, 1).Some?
    ensures ReadBytes(c, p + i, 1) == ReadBytes(b, p + i, 1)
  {
    BytesAgree(b, c, s, p + i, 1);
  }

  lemma {:induction false} SearchHits(f: nat -> Option<seq<byte>>, lo: nat, hi: nat, key: seq<byte>)
    requires lo <= hi && BinarySearch(f, lo, hi, key).Some? && BinarySearch(f, lo, hi, key).value != -1
    ensures f(BinarySearch(f, lo, hi, key).value) == Some(key)
    decreases hi - lo
  {
    var mid := (lo + hi) / 2;
    var x := StrCmp(key, f(mid).value);
    if x < 0 {
      SearchHits(f, lo, mid, key);
    } else if x > 0 {
      SearchHits(f, mid + 1, hi, key);
    }
  }

  lemma {:induction false} AtMost<T>(xs: seq<T>, dom: set<T>)
    requires forall k :: k in dom ==> k in xs
    ensures |dom| <= |xs|
  {
    if xs != [] {
      var n := |xs| - 1;
      AtMost(xs[..n], dom - {xs[n]});
    }
  }

  /** As many places as keys: no key has two places. */
  lemma PlacesDiffer<T>(xs: seq<T>, dom: set<T>, i: nat, j: nat)
    requires |xs| == |dom| && (forall k :: k in dom ==> k in xs) && i < |xs| && j < |xs| && xs[i] == xs[j]
    ensures i == j
  {
    if i != j {
      var others := xs[..j] + xs[j + 1..];
      forall k | k in dom
        ensures k in others
      {
        var x :| 0 <= x < |xs| && xs[x] == k;
        var y := if x == j then i else x;
        assert others[if y < j then y else y - 1] == k;
      }
      AtMost(others, dom);
    }
  }

  lemma KeysDiffer(b: seq<byte>, keys: TypedVector, dom: set<seq<byte>>, i: nat, j: nat)
    requires KeysListed(b, keys, |dom|, dom) && i < |dom| && j < |dom| && KeyAt(b, keys, i) == KeyAt(b, keys, j)
    ensures i == j
  {
    hide KeyAt;
    var xs := seq(|dom|, x requires 0 <= x < |dom| => KeyAt(b, keys, x).value);
    forall k | k in dom
      ensures k in xs
    {
      var x :| 0 <= x < |dom| && KeyAt(b, keys, x) == Some(k);
      assert xs[x] == k;
    }
    PlacesDiffer(xs, dom, i, j);
  }

  /** A key that is found is found at an index that holds it. */
  lemma LookupIndex(b: seq<byte>, pos: int, w: nat, t: Tree, key: seq<byte>)
    requires t.Map? && ReadsAt(b, pos, w, FBT_MAP, t)
    requires Lookup(b, pos, w, key).Some? && Lookup(b, pos, w, key) != Some(NULL_REFERENCE)
    ensures exists i :: 0 <= i < |t.entries| && MapKey(b, pos, w, i) == Some(key)
                        && ElemRef(b, pos, w, t, i) == Lookup(b, pos, w, key)
  {
    hide Reads, KeysListed, OthersAbsent, WalkReads, LookupsRead, KeyAt, VectorAt;
    var keys := KeysOf(b, pos, w).value;
    var f, n := KeyReader(b, keys), |t.entries|;
    var i := BinarySearch(f, 0, n, key).value;
    SearchHits(f, 0, n, key);
    assert ElemRef(b, pos, w, t, i) == VectorAt(b, pos, w, i);
  }

  /** Looking a key up goes the same way. */
  lemma LookupAgrees(b: seq<byte>, c: seq<byte>, pos: int, w: nat, t: Tree, key: seq<byte>, s: iset<int>)
    requires Agree(b, c, s) && t.Map? && ReadsAt(b, pos, w, FBT_MAP, t) && FrameIn(b, pos, w, t, s)
    requires Lookup(b, pos, w, key).Some?
    ensures Lookup(c, pos, w, key) == Lookup(b, pos, w, key)
  {
    hide Reads, KeyIn, In, Agree, KeysListed, OthersAbsent, WalkReads, LookupsRead, KeyAt, VectorAt;
    var n := |t.entries|;
    FrameAgrees(b, c, pos, w, FBT_MAP, t, s);
    KeysFrame(b, c, pos, w, t, s);
    var keys := KeysOf(b, pos, w).value;
    var f, g := KeyReader(b, keys), KeyReader(c, keys);
    assert forall i: nat :: i < n ==> g(i) == f(i);
    BinarySearchGrows(f, g, 0, n, key);
    var i := BinarySearch(f, 0, n, key).value;
    if i != -1 {
      assert ElemRef(b, pos, w, t, i) == VectorAt(b, pos, w, i) && ElemRef(c, pos, w, t, i) == VectorAt(c, pos, w, i);
    }
  }

  // ---------------------------------------------------------------- reading elsewhere

  /** Wherever the bytes used for a tree are the same, the same tree is read. */
  lemma {:induction false} ReadsAgree(b: seq<byte>, c: seq<byte>, r: Reference, t: Tree, s: iset<int>)
    requires Agree(b, c, s) && Reads(b, r, t) && Uses(b, r, t, s)
    ensures Reads(c, r, t)
    decreases t, 2
  {
    hide In, Agree, ReadUInt64, ReadInt64, ReadsAt, UsesAt;
    if !t.Null? {
      OwnCellRead(b, r, t);
      ScalarAgrees(b, c, s, r.data, r.parentWidth);
      if !t.Bool? && !t.Int? && !t.UInt? {
        ReadsAtAgree(b, c, Target(b, r).value, r.byteWidth, r.ty, t, s);
      }
    }
  }

  lemma OwnCellRead(b: seq<byte>, r: Reference, t: Tree)
    requires Reads(b, r, t) && !t.Null?
    ensures ReadUInt64(b, r.data, r.parentWidth).Some?
  {
  }

  lemma LeafAgrees(b: seq<byte>, c: seq<byte>, pos: int, w: nat, ty: Type, t: Tree, s: iset<int>)
    requires Agree(b, c, s) && !IsCompound(t) && ReadsAt(b, pos, w, ty, t) && LeafIn(pos, w, t, s)
    ensures ReadsAt(c, pos, w, ty, t)
  {
    hide In, Agree;
    match t
    case IndirectInt(_) => ScalarAgrees(b, c, s, pos, w);
    case IndirectUInt(_) => ScalarAgrees(b, c, s, pos, w);
    case Key(_) => CStrAgrees(b, c, s, pos);
    case Str(x) => SizedAgrees(b, c, s, pos, w, |x|);
    case Blob(x) => SizedAgrees(b, c, s, pos, w, |x|);
    case _ =>
  }

  lemma SizedAgrees(b: seq<byte>, c: seq<byte>, s: iset<int>, pos: int, w: nat, n: nat)
    requires Agree(b, c, s) && SizedBytes(b, pos, w).Some? && |SizedBytes(b, pos, w).value| == n
    requires In(pos - w, ScalarSize(w), s) && In(pos, n, s)
    ensures SizedBytes(c, pos, w) == SizedBytes(b, pos, w)
  {
    ScalarAgrees(b, c, s, pos - w, w);
    BytesAgree(b, c, s, pos, n);
  }

  lemma {:induction false} ReadsAtAgree(b: seq<byte>, c: seq<byte>, pos: int, w: nat, ty: Type, t: Tree, s: iset<int>)
    requires Agree(b, c, s) && ReadsAt(b, pos, w, ty, t) && UsesAt(b, pos, w, t, s)
    ensures ReadsAt(c, pos, w, ty, t)
    decreases t, 1
  {
    hide In, Agree, FrameIn, ReadsAt;
    if IsCompound(t) {
      CompoundAgrees(b, c, pos, w, ty, t, s);
    } else {
      LeafAgrees(b, c, pos, w, ty, t, s);
    }
  }

  lemma {:induction false} CompoundAgrees(b: seq<byte>, c: seq<byte>, pos: int, w: nat, ty: Type, t: Tree, s: iset<int>)
    requires Agree(b, c, s) && IsCompound(t) && ReadsAt(b, pos, w, ty, t) && UsesAt(b, pos, w, t, s)
    ensures ReadsAt(c, pos, w, ty, t)
    decreases t, 0
  {
    hide In, Agree, FrameIn, ReadsAt;
    FrameAgrees(b, c, pos, w, ty, t, s);
    forall i | 0 <= i < Count(t)
      ensures ElemReads(b, pos, w, t, i) && ElemReads(c, pos, w, t, i)
      ensures ElemTree(c, pos, w, t, i) == ElemTree(b, pos, w, t, i)
    {
      ReadsElem(b, pos, w, ty, t, i);
      assert ElemUses(b, pos, w, t, i, s);
      ReadsAgree(b, c, ElemRef(b, pos, w, t, i).value, ElemTree(b, pos, w, t, i), s);
    }
    ShapeReads(b, c, pos, w, ty, t, t, s);
  }

  /** With the frame the same, and every element read, a tree of the same shape is read. */
  lemma ShapeReads(b: seq<byte>, c: seq<byte>, pos: int, w: nat, ty: Type, t: Tree, u: Tree, s: iset<int>)
    requires Agree(b, c, s) && IsCompound(t) && ReadsAt(b, pos, w, ty, t) && FrameIn(b, pos, w, t, s) && SameShape(t, u)
    requires forall i :: 0 <= i < Count(t) ==> ElemReads(c, pos, w, u, i)
    ensures ReadsAt(c, pos, w, ty, u)
  {
    hide In, Agree, FrameIn, ReadsAt;
    FrameAgrees(b, c, pos, w, ty, t, s);
    if t.Map? {
      MapType(b, pos, w, ty, t);
      MapShapeReads(b, c, pos, w, t, u, s);
    } else {
      VectorShapeReads(b, c, pos, w, ty, t, u);
    }
  }

  lemma MapType(b: seq<byte>, pos: int, w: nat, ty: Type, t: Tree)
    requires t.Map? && ReadsAt(b, pos, w, ty, t)
    ensures ty == FBT_MAP
  {
  }

  lemma VectorShapeReads(b: seq<byte>, c: seq<byte>, pos: int, w: nat, ty: Type, t: Tree, u: Tree)
    requires !t.Map? && SameShape(t, u) && ReadsAt(b, pos, w, ty, t)
    requires !t.FixedVector? ==> SizeAt(c, pos, w) == SizeAt(b, pos, w)
    requires forall i :: 0 <= i < Count(t) ==> ElemReads(c, pos, w, u, i)
    ensures ReadsAt(c, pos, w, ty, u)
  {
    hide Reads, SizeAt, VectorAt, TypedVectorAt, FixedTypedVectorAt;
    forall i | 0 <= i < Count(t)
      ensures ElemRef(c, pos, w, u, i).Some? && Reads(c, ElemRef(c, pos, w, u, i).value, u.elems[i])
    {
      assert ElemReads(c, pos, w, u, i);
    }
    match u
    case Vector(elems) =>
      assert forall i :: 0 <= i < |elems| ==> VectorAt(c, pos, w, i) == ElemRef(c, pos, w, u, i);
    case TypedVector(ety, elems) =>
      var v := FlexReader.TypedVector(pos, w, ety);
      assert forall i :: 0 <= i < |elems| ==> TypedVectorAt(c, v, i) == ElemRef(c, pos, w, u, i);
    case FixedVector(ety, elems) =>
      var v := FlexReader.TypedVector(pos, w, ety);
      assert forall i :: 0 <= i < |elems| ==> Some(FixedTypedVectorAt(v, |elems|, i)) == ElemRef(c, pos, w, u, i);
  }

  lemma SameKeysListed(b: seq<byte>, c: seq<byte>, keys: TypedVector, n: nat, dom: set<seq<byte>>)
    requires KeysListed(b, keys, n, dom) && forall i :: 0 <= i < n ==> KeyAt(c, keys, i) == KeyAt(b, keys, i)
    ensures KeysListed(c, keys, n, dom)
  {
    hide KeyAt, KeysInOrder;
  }

  lemma MapShapeReads(b: seq<byte>, c: seq<byte>, pos: int, w: nat, t: Tree, u: Tree, s: iset<int>)
    requires Agree(b, c, s) && t.Map? && ReadsAt(b, pos, w, FBT_MAP, t) && FrameIn(b, pos, w, t, s) && SameShape(t, u)
    requires forall i :: 0 <= i < Count(t) ==> ElemReads(c, pos, w, u, i)
    ensures ReadsAt(c, pos, w, FBT_MAP, u)
  {
    hide Reads, In, Agree, KeyIn, FrameIn, KeyAt, Lookup, VectorAt, SizeAt, KeysOf, KeysListed;
    FrameAgrees(b, c, pos, w, FBT_MAP, t, s);
    KeysFrame(b, c, pos, w, t, s);
    var keys := KeysOf(b, pos, w).value;
    var n := |t.entries|;
    SameKeysListed(b, c, keys, n, t.entries.Keys);
    assert WalkReads(c, pos, w, keys, u) by {
      forall i | 0 <= i < n
        ensures KeyAt(c, keys, i).Some? && KeyAt(c, keys, i).value in u.entries && VectorAt(c, pos, w, i).Some?
        ensures Reads(c, VectorAt(c, pos, w, i).value, u.entries[KeyAt(c, keys, i).value])
      {
        assert ElemReads(c, pos, w, u, i);
      }
    }
    assert LookupsRead(c, pos, w, u) by {
      forall k | k in u.entries
        ensures Lookup(c, pos, w, k).Some? && Reads(c, Lookup(c, pos, w, k).value, u.entries[k])
      {
        FoundReads(b, c, pos, w, t, u, k, s);
      }
    }
    assert OthersAbsent(c, pos, w, u.entries.Keys) by {
      forall k | NulFree(k) && k !in u.entries.Keys
        ensures Lookup(c, pos, w, k) == Some(NULL_REFERENCE)
      {
        assert Lookup(b, pos, w, k) == Some(NULL_REFERENCE);
        LookupAgrees(b, c, pos, w, t, k, s);
      }
    }
  }

  lemma KeysFrame(b: seq<byte>, c: seq<byte>, pos: int, w: nat, t: Tree, s: iset<int>)
    requires Agree(b, c, s) && t.Map? && ReadsAt(b, pos, w, FBT_MAP, t) && FrameIn(b, pos, w, t, s)
    ensures KeysOf(c, pos, w) == KeysOf(b, pos, w) && KeysOf(b, pos, w).Some?
    ensures var keys := KeysOf(b, pos, w).value;
            && SizeAt(c, keys.data, keys.byteWidth) == SizeAt(b, keys.data, keys.byteWidth)
            && forall i :: 0 <= i < |t.entries| ==> KeyAt(c, keys, i) == KeyAt(b, keys, i)
  {
    hide Reads, In, Agree, KeyIn, KeyAt, KeysListed, WalkReads, LookupsRead, OthersAbsent;
    KeysAgree(b, c, pos, w, |t.entries|, s);
    var keys := KeysOf(b, pos, w).value;
    ScalarAgrees(b, c, s, keys.data - keys.byteWidth, keys.byteWidth);
  }

  lemma FoundReads(b: seq<byte>, c: seq<byte>, pos: int, w: nat, t: Tree, u: Tree, k: seq<byte>, s: iset<int>)
    requires Agree(b, c, s) && t.Map? && ReadsAt(b, pos, w, FBT_MAP, t) && FrameIn(b, pos, w, t, s) && SameShape(t, u)
    requires k in u.entries && forall i :: 0 <= i < Count(t) ==> ElemReads(c, pos, w, u, i)
    ensures Lookup(c, pos, w, k).Some? && Reads(c, Lookup(c, pos, w, k).value, u.entries[k])
  {
    hide In, Agree, KeyIn, FrameIn, KeyAt, Lookup, VectorAt, MapKey, KeysListed, WalkReads, OthersAbsent;
    assert Lookup(b, pos, w, k).Some? && Reads(b, Lookup(b, pos, w, k).value, t.entries[k]);
    LookupAgrees(b, c, pos, w, t, k, s);
    FrameAgrees(b, c, pos, w, FBT_MAP, t, s);
    if Lookup(b, pos, w, k) != Some(NULL_REFERENCE) {
      LookupIndex(b, pos, w, t, k);
      var i :| 0 <= i < |t.entries| && MapKey(b, pos, w, i) == Some(k)
               && ElemRef(b, pos, w, t, i) == Lookup(b, pos, w, k);
      assert ElemReads(c, pos, w, u, i);
      assert ElemRef(c, pos, w, u, i) == ElemRef(c, pos, w, t, i);
    } else {
      NullReads(b, t.entries[k]);
    }
  }

  lemma NullReads(b: seq<byte>, t: Tree)
    requires Reads(b, NULL_REFERENCE, t)
    ensures t.Null?
  {
  }
}
