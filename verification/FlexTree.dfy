/** What a FlexBuffer holds, as a tree, and what it means for the accessors to read a tree. */
module FlexTree {
  import opened Options
  import opened Bytes
  import opened FlexTypes
  import opened FlexReader

  datatype Tree =
    | Null
    | Bool(b: bool)
    | Int(i: int)
    | UInt(u: nat)
    | IndirectInt(i: int)
    | IndirectUInt(u: nat)
    | Key(k: seq<byte>)
    | Str(s: seq<byte>)
    | Blob(s: seq<byte>)
    | Vector(elems: seq<Tree>)
    | TypedVector(ety: Type, elems: seq<Tree>)
    | FixedVector(ety: Type, elems: seq<Tree>)
    | Map(entries: map<seq<byte>, Tree>)

  predicate NulFree(s: seq<byte>) { forall x :: x in s ==> x != 0 }

  /** The accessors, applied to the reference, read the tree. */
  ghost predicate Reads(b: seq<byte>, r: Reference, t: Tree)
    decreases t, 2
  {
    match t
    case Null => r.ty == FBT_NULL
    case Bool(v) => r.ty == FBT_BOOL && AsBool(b, r) == Some(v) && AsUInt64(b, r) == Some(if v then 1 else 0)
    case Int(i) => r.ty == FBT_INT && AsInt64(b, r) == Some(i)
    case UInt(u) => r.ty == FBT_UINT && AsUInt64(b, r) == Some(u)
    case _ =>
      && !IsInline(r.ty)
      && Target(b, r).Some?
      && ReadsAt(b, Target(b, r).value, r.byteWidth, r.ty, t)
  }

  /** The same for the value at a position that an offset of type `ty` leads to. */
  ghost predicate ReadsAt(b: seq<byte>, pos: int, w: nat, ty: Type, t: Tree)
    decreases t, 1
  {
    match t
    case IndirectInt(i) => ty == FBT_INDIRECT_INT && ReadInt64(b, pos, w) == Some(i)
    case IndirectUInt(u) => ty == FBT_INDIRECT_UINT && ReadUInt64(b, pos, w) == Some(u)
    case Key(k) => ty == FBT_KEY && CStr(b, pos) == Some(k)
    case Str(s) => ty == FBT_STRING && SizedBytes(b, pos, w) == Some(s)
    case Blob(s) => ty == FBT_BLOB && SizedBytes(b, pos, w) == Some(s)
    case Vector(elems) =>
      && ty == FBT_VECTOR
      && SizeAt(b, pos, w) == Some(|elems|)
      && forall i :: 0 <= i < |elems| ==>
           var r := VectorAt(b, pos, w, i);
           r.Some? && Reads(b, r.value, elems[i])
    case TypedVector(ety, elems) =>
      && IsTypedVector(ty) && ToTypedVectorElementType(ty) == ety
      && SizeAt(b, pos, w) == Some(|elems|)
      && forall i :: 0 <= i < |elems| ==>
           var r := TypedVectorAt(b, FlexReader.TypedVector(pos, w, ety), i);
           r.Some? && Reads(b, r.value, elems[i])
    case FixedVector(ety, elems) =>
      && IsFixedTypedVector(ty) && ToFixedTypedVectorElementType(ty) == (ety, |elems|)
      && forall i :: 0 <= i < |elems| ==>
           Reads(b, FixedTypedVectorAt(FlexReader.TypedVector(pos, w, ety), |elems|, i), elems[i])
    case Map(entries) =>
      && ty == FBT_MAP
      && SizeAt(b, pos, w) == Some(|entries|)
         // walking the entries: the i-th key belongs to the map and the i-th value is its value
      && KeysOf(b, pos, w).Some?
      && var keys := KeysOf(b, pos, w).value;
      && SizeAt(b, keys.data, keys.byteWidth) == Some(|entries|)
      && KeysListed(b, keys, |entries|, entries.Keys)
      && WalkReads(b, pos, w, keys, t)
         // looking keys up: present ones give their value, absent ones the null reference
      && LookupsRead(b, pos, w, t)
      && OthersAbsent(b, pos, w, entries.Keys)
    case _ => false
  }

  /** The i-th value of the map is the value of its i-th key. */
  ghost predicate WalkReads(b: seq<byte>, pos: int, w: nat, keys: TypedVector, t: Tree)
    requires t.Map?
    decreases t, 0
  {
    forall i :: 0 <= i < |t.entries| ==>
      var k := KeyAt(b, keys, i);
      var r := VectorAt(b, pos, w, i);
      k.Some? && k.value in t.entries && r.Some? && Reads(b, r.value, t.entries[k.value])
  }

  ghost predicate LookupsRead(b: seq<byte>, pos: int, w: nat, t: Tree)
    requires t.Map?
    decreases t, 0
  {
    forall k :: k in t.entries ==>
      var r := Lookup(b, pos, w, k);
      r.Some? && Reads(b, r.value, t.entries[k])
  }

  /** The first `n` keys are exactly the keys of the set, in dictionary order. */
  ghost predicate KeysListed(b: seq<byte>, keys: TypedVector, n: nat, dom: set<seq<byte>>) {
    && (forall i :: 0 <= i < n ==> KeyAt(b, keys, i).Some? && KeyAt(b, keys, i).value in dom)
    && (forall k :: k in dom ==> exists i :: 0 <= i < n && KeyAt(b, keys, i) == Some(k))
    && forall i, j :: 0 <= i < j < n ==> KeysInOrder(KeyAt(b, keys, i), KeyAt(b, keys, j))
  }

  ghost predicate KeysInOrder(k: Option<seq<byte>>, l: Option<seq<byte>>) {
    k.Some? && l.Some? && Precedes(k.value, l.value)
  }

  ghost predicate OthersAbsent(b: seq<byte>, pos: int, w: nat, dom: set<seq<byte>>) {
    forall k :: NulFree(k) && k !in dom ==> Lookup(b, pos, w, k) == Some(NULL_REFERENCE)
  }

  /** A key, a string or a blob is what the text accessors return; the others take it for empty. */
  lemma TextAccessors(b: seq<byte>, r: Reference, t: Tree)
    requires Reads(b, r, t)
    ensures t.Key? ==> AsKey(b, r) == AsString(b, r) == Some(t.k) && AsBlob(b, r) == Some([])
    ensures t.Str? ==> AsString(b, r) == AsBlob(b, r) == Some(t.s)
    ensures t.Blob? ==> AsBlob(b, r) == Some(t.s) && AsString(b, r) == AsKey(b, r) == Some([])
    ensures !t.Key? && !t.Str? && !t.Blob? ==> AsKey(b, r) == AsString(b, r) == AsBlob(b, r) == Some([])
  {
  }

  /** A number is what both number accessors return, as its two's complement bits. */
  lemma NumberAccessors(b: seq<byte>, r: Reference, t: Tree)
    requires Reads(b, r, t)
    ensures t.Int? || t.IndirectInt? ==> IsI64(t.i) && AsInt64(b, r) == Some(t.i) && AsUInt64(b, r) == Some(ToU64(t.i))
    ensures t.UInt? || t.IndirectUInt? ==>
      IsU64(t.u) && AsUInt64(b, r) == Some(t.u) && AsInt64(b, r) == Some(ToI64(t.u))
  {
  }

  /** A truth value counts as 1 or 0, an untyped vector as its length, and what is no number otherwise as 0. */
  lemma OtherNumbers(b: seq<byte>, r: Reference, t: Tree)
    requires Reads(b, r, t)
    ensures t.Bool? ==> AsUInt64(b, r) == AsInt64(b, r) == Some(if t.b then 1 else 0)
    ensures t.Vector? ==> AsUInt64(b, r) == Some(|t.elems|) && AsInt64(b, r) == Some(ToI64(|t.elems|))
    ensures t.Null? || t.Key? || t.Blob? || t.TypedVector? || t.FixedVector? || t.Map? ==>
              AsUInt64(b, r) == AsInt64(b, r) == Some(0)
  {
    hide FromLE, Lookup, KeyAt;
    Powers();
    if t.Vector? {
      assert ReadsAt(b, Target(b, r).value, r.byteWidth, r.ty, t);
    }
  }

  /** What is not 0 as a number counts as true. */
  lemma Truth(b: seq<byte>, r: Reference, t: Tree)
    requires Reads(b, r, t) && !t.Str?
    ensures AsBool(b, r) == Some(if t.Bool? then t.b
                                 else if t.Int? || t.IndirectInt? then t.i != 0
                                 else if t.UInt? || t.IndirectUInt? then t.u != 0
                                 else t.Vector? && t.elems != [])
  {
    hide FromLE, Lookup, KeyAt;
    NumberAccessors(b, r, t);
    OtherNumbers(b, r, t);
  }

  /** A reference that every accessor takes for nothing. */
  ghost predicate IsNothing(b: seq<byte>, r: Option<Reference>) {
    && r.Some? && Reads(b, r.value, Null)
    && AsInt64(b, r.value) == AsUInt64(b, r.value) == Some(0) && AsString(b, r.value) == Some([])
  }

  /** The operators of vectors return nothing for an index beyond the end. */
  lemma BeyondIsNothing(b: seq<byte>, pos: int, w: nat, ty: Type, t: Tree, i: nat)
    requires ReadsAt(b, pos, w, ty, t)
    ensures t.Vector? && i >= |t.elems| ==> IsNothing(b, VectorAt(b, pos, w, i))
    ensures t.TypedVector? && i >= |t.elems| ==>
              IsNothing(b, TypedVectorAt(b, FlexReader.TypedVector(pos, w, t.ety), i))
    ensures t.FixedVector? && i >= |t.elems| ==>
              IsNothing(b, Some(FixedTypedVectorAt(FlexReader.TypedVector(pos, w, t.ety), |t.elems|, i)))
  {
  }

  /** So does looking an absent key up. */
  lemma AbsentIsNothing(b: seq<byte>, pos: int, w: nat, ty: Type, t: Tree, k: seq<byte>)
    requires ReadsAt(b, pos, w, ty, t) && t.Map? && NulFree(k) && k !in t.entries
    ensures IsNothing(b, Lookup(b, pos, w, k))
  {
    hide Lookup, KeyAt, WalkReads, LookupsRead;
    assert k !in t.entries.Keys;
  }

  /** The keys of a map are listed in dictionary order, without doubles. */
  lemma KeysAscend(b: seq<byte>, pos: int, w: nat, ty: Type, t: Tree, i: nat, j: nat)
    requires ReadsAt(b, pos, w, ty, t) && t.Map? && i < j < |t.entries|
    ensures KeysOf(b, pos, w).Some?
    ensures var keys := KeysOf(b, pos, w).value;
            && KeyAt(b, keys, i).Some? && KeyAt(b, keys, j).Some?
            && Precedes(KeyAt(b, keys, i).value, KeyAt(b, keys, j).value)
  {
    hide Lookup, KeyAt, WalkReads, LookupsRead, Precedes;
    assert KeysInOrder(KeyAt(b, KeysOf(b, pos, w).value, i), KeyAt(b, KeysOf(b, pos, w).value, j));
  }

  // ---------------------------------------------------------------- growing the buffer

  lemma {:induction false} CStrGrows(b: seq<byte>, b': seq<byte>, pos: int)
    requires b <= b' && CStr(b, pos).Some?
    ensures CStr(b', pos) == CStr(b, pos)
    decreases |b| - pos
  {
    if b[pos] != 0 {
      CStrGrows(b, b', pos + 1);
    }
  }

  lemma ReadGrows(b: seq<byte>, b': seq<byte>, pos: int, w: nat)
    requires b <= b' && ReadUInt64(b, pos, w).Some?
    ensures ReadUInt64(b', pos, w) == ReadUInt64(b, pos, w)
    ensures ReadInt64(b', pos, w) == ReadInt64(b, pos, w)
  {
    var n := ScalarSize(w);
    assert b'[pos..pos + n] == b[pos..pos + n];
  }

  lemma SizedBytesGrows(b: seq<byte>, b': seq<byte>, pos: int, w: nat)
    requires b <= b' && SizedBytes(b, pos, w).Some?
    ensures SizedBytes(b', pos, w) == SizedBytes(b, pos, w)
  {
    ReadGrows(b, b', pos - w, w);
    var n := SizeAt(b, pos, w).value;
    assert b'[pos..pos + n] == b[pos..pos + n];
  }

  lemma VectorAtGrows(b: seq<byte>, b': seq<byte>, pos: int, w: nat, i: nat)
    requires b <= b' && VectorAt(b, pos, w, i).Some?
    ensures VectorAt(b', pos, w, i) == VectorAt(b, pos, w, i)
  {
    ReadGrows(b, b', pos - w, w);
  }

  lemma KeyAtGrows(b: seq<byte>, b': seq<byte>, keys: TypedVector, i: nat)
    requires b <= b' && KeyAt(b, keys, i).Some?
    ensures KeyAt(b', keys, i) == KeyAt(b, keys, i)
  {
    ReadGrows(b, b', keys.data + i * keys.byteWidth, keys.byteWidth);
    CStrGrows(b, b', Indirect(b, keys.data + i * keys.byteWidth, keys.byteWidth).value);
  }

  lemma KeysOfGrows(b: seq<byte>, b': seq<byte>, pos: int, w: nat)
    requires b <= b' && KeysOf(b, pos, w).Some?
    ensures KeysOf(b', pos, w) == KeysOf(b, pos, w)
  {
    ReadGrows(b, b', pos - w * 3, w);
    ReadGrows(b, b', pos - w * 3 + w, w);
  }

  lemma {:induction false} BinarySearchGrows(f: nat -> Option<seq<byte>>, g: nat -> Option<seq<byte>>, lo: nat,
                                             hi: nat, key: seq<byte>)
    requires lo <= hi && BinarySearch(f, lo, hi, key).Some?
    requires forall i: nat :: lo <= i < hi && f(i).Some? ==> g(i) == f(i)
    ensures BinarySearch(g, lo, hi, key) == BinarySearch(f, lo, hi, key)
    decreases hi - lo
  {
    if lo < hi {
      var mid := (lo + hi) / 2;
      var c := StrCmp(key, f(mid).value);
      if c < 0 {
        BinarySearchGrows(f, g, lo, mid, key);
      } else if c > 0 {
        BinarySearchGrows(f, g, mid + 1, hi, key);
      }
    }
  }

  lemma LookupGrows(b: seq<byte>, b': seq<byte>, pos: int, w: nat, key: seq<byte>)
    requires b <= b' && Lookup(b, pos, w, key).Some?
    ensures Lookup(b', pos, w, key) == Lookup(b, pos, w, key)
  {
    KeysOfGrows(b, b', pos, w);
    var keys := KeysOf(b, pos, w).value;
    ReadGrows(b, b', keys.data - keys.byteWidth, keys.byteWidth);
    var n := SizeAt(b, keys.data, keys.byteWidth).value;
    forall i: nat | KeyReader(b, keys)(i).Some?
      ensures KeyReader(b', keys)(i) == KeyReader(b, keys)(i)
    {
      KeyAtGrows(b, b', keys, i);
    }
    BinarySearchGrows(KeyReader(b, keys), KeyReader(b', keys), 0, n, key);
    var i := BinarySearch(KeyReader(b, keys), 0, n, key).value;
    if i != -1 {
      VectorAtGrows(b, b', pos, w, i);
    }
  }

  lemma KeysListedGrows(b: seq<byte>, b': seq<byte>, keys: TypedVector, n: nat, dom: set<seq<byte>>)
    requires b <= b' && KeysListed(b, keys, n, dom)
    ensures KeysListed(b', keys, n, dom)
  {
    forall i | 0 <= i < n
      ensures KeyAt(b', keys, i) == KeyAt(b, keys, i)
    {
      KeyAtGrows(b, b', keys, i);
    }
  }

  lemma OthersAbsentGrows(b: seq<byte>, b': seq<byte>, pos: int, w: nat, dom: set<seq<byte>>)
    requires b <= b' && OthersAbsent(b, pos, w, dom)
    ensures OthersAbsent(b', pos, w, dom)
  {
    forall k | NulFree(k) && k !in dom
      ensures Lookup(b', pos, w, k) == Some(NULL_REFERENCE)
    {
      LookupGrows(b, b', pos, w, k);
    }
  }

  /** Appending to the buffer changes nothing that could be read before. */
  lemma {:induction false} ReadsGrows(b: seq<byte>, b': seq<byte>, r: Reference, t: Tree)
    requires b <= b' && Reads(b, r, t)
    ensures Reads(b', r, t)
    decreases t, 2
  {
    hide ReadsAt, AsVector, SizeAt;
    if !t.Null? {
      ReadGrows(b, b', r.data, r.parentWidth);
      if !t.Bool? && !t.Int? && !t.UInt? {
        ReadsAtGrows(b, b', Target(b, r).value, r.byteWidth, r.ty, t);
      }
    }
  }

  lemma {:induction false} ReadsAtGrows(b: seq<byte>, b': seq<byte>, pos: int, w: nat, ty: Type, t: Tree)
    requires b <= b' && ReadsAt(b, pos, w, ty, t)
    ensures ReadsAt(b', pos, w, ty, t)
    decreases t, 1
  {
    match t
    case IndirectInt(_) => ReadGrows(b, b', pos, w);
    case IndirectUInt(_) => ReadGrows(b, b', pos, w);
    case Key(_) => CStrGrows(b, b', pos);
    case Str(_) => SizedBytesGrows(b, b', pos, w);
    case Blob(_) => SizedBytesGrows(b, b', pos, w);
    case Vector(elems) =>
      ReadGrows(b, b', pos - w, w);
      forall i | 0 <= i < |elems|
        ensures VectorAt(b', pos, w, i).Some? && Reads(b', VectorAt(b', pos, w, i).value, elems[i])
      {
        VectorAtGrows(b, b', pos, w, i);
        ReadsGrows(b, b', VectorAt(b, pos, w, i).value, elems[i]);
      }
    case TypedVector(ety, elems) =>
      ReadGrows(b, b', pos - w, w);
      var v := FlexReader.TypedVector(pos, w, ety);
      forall i | 0 <= i < |elems|
        ensures TypedVectorAt(b', v, i).Some? && Reads(b', TypedVectorAt(b', v, i).value, elems[i])
      {
        ReadsGrows(b, b', TypedVectorAt(b, v, i).value, elems[i]);
      }
    case FixedVector(ety, elems) =>
      var v := FlexReader.TypedVector(pos, w, ety);
      forall i | 0 <= i < |elems|
        ensures Reads(b', FixedTypedVectorAt(v, |elems|, i), elems[i])
      {
        ReadsGrows(b, b', FixedTypedVectorAt(v, |elems|, i), elems[i]);
      }
    case Map(entries) => MapReadsGrows(b, b', pos, w, t);
    case _ =>
  }

  lemma {:induction false} MapReadsGrows(b: seq<byte>, b': seq<byte>, pos: int, w: nat, t: Tree)
    requires t.Map? && b <= b' && ReadsAt(b, pos, w, FBT_MAP, t)
    ensures ReadsAt(b', pos, w, FBT_MAP, t)
    decreases t, 0
  {
    ReadGrows(b, b', pos - w, w);
    KeysOfGrows(b, b', pos, w);
    var keys := KeysOf(b, pos, w).value;
    ReadGrows(b, b', keys.data - keys.byteWidth, keys.byteWidth);
    KeysListedGrows(b, b', keys, |t.entries|, t.entries.Keys);
    OthersAbsentGrows(b, b', pos, w, t.entries.Keys);
    assert WalkReads(b', pos, w, keys, t) by {
      forall i | 0 <= i < |t.entries|
        ensures KeyAt(b', keys, i) == KeyAt(b, keys, i)
        ensures VectorAt(b', pos, w, i) == VectorAt(b, pos, w, i)
        ensures Reads(b', VectorAt(b, pos, w, i).value, t.entries[KeyAt(b, keys, i).value])
      {
        KeyAtGrows(b, b', keys, i);
        VectorAtGrows(b, b', pos, w, i);
        ReadsGrows(b, b', VectorAt(b, pos, w, i).value, t.entries[KeyAt(b, keys, i).value]);
      }
    }
    assert LookupsRead(b', pos, w, t) by {
      forall k | k in t.entries
        ensures Lookup(b', pos, w, k) == Lookup(b, pos, w, k)
        ensures Reads(b', Lookup(b, pos, w, k).value, t.entries[k])
      {
        LookupGrows(b, b', pos, w, k);
        ReadsGrows(b, b', Lookup(b, pos, w, k).value, t.entries[k]);
      }
    }
  }

  // ---------------------------------------------------------------- reading is deterministic

  /** A reference reads at most one tree, so a buffer cannot stand for two. */
  lemma {:induction false} ReadsUnique(b: seq<byte>, r: Reference, t: Tree, u: Tree)
    requires Reads(b, r, t) && Reads(b, r, u)
    ensures t == u
    decreases t, 2
  {
    if !IsInline(r.ty) {
      ReadsAtUnique(b, Target(b, r).value, r.byteWidth, r.ty, t, u);
    }
  }

  lemma {:induction false} ReadsAtUnique(b: seq<byte>, pos: int, w: nat, ty: Type, t: Tree, u: Tree)
    requires ReadsAt(b, pos, w, ty, t) && ReadsAt(b, pos, w, ty, u)
    ensures t == u
    decreases t, 1
  {
    match t
    case Vector(elems) =>
      forall i | 0 <= i < |elems|
        ensures elems[i] == u.elems[i]
      {
        ReadsUnique(b, VectorAt(b, pos, w, i).value, elems[i], u.elems[i]);
      }
    case TypedVector(ety, elems) =>
      forall i | 0 <= i < |elems|
        ensures elems[i] == u.elems[i]
      {
        ReadsUnique(b, TypedVectorAt(b, FlexReader.TypedVector(pos, w, ety), i).value, elems[i], u.elems[i]);
      }
    case FixedVector(ety, elems) =>
      forall i | 0 <= i < |elems|
        ensures elems[i] == u.elems[i]
      {
        ReadsUnique(b, FixedTypedVectorAt(FlexReader.TypedVector(pos, w, ety), |elems|, i), elems[i], u.elems[i]);
      }
    case Map(_) => MapUnique(b, pos, w, t, u);
    case _ =>
  }

  lemma KeysListedUnique(b: seq<byte>, keys: TypedVector, n: nat, d: set<seq<byte>>, e: set<seq<byte>>)
    requires KeysListed(b, keys, n, d) && KeysListed(b, keys, n, e)
    ensures d == e
  {
    assert d <= e && e <= d;
  }

  lemma {:induction false} MapUnique(b: seq<byte>, pos: int, w: nat, t: Tree, u: Tree)
    requires t.Map? && u.Map?
    requires ReadsAt(b, pos, w, FBT_MAP, t) && ReadsAt(b, pos, w, FBT_MAP, u)
    ensures t == u
    decreases t, 0
  {
    var keys := KeysOf(b, pos, w).value;
    KeysListedUnique(b, keys, |t.entries|, t.entries.Keys, u.entries.Keys);
    forall k | k in t.entries
      ensures t.entries[k] == u.entries[k]
    {
      ReadsUnique(b, Lookup(b, pos, w, k).value, t.entries[k], u.entries[k]);
    }
    assert t.entries == u.entries;
  }
}
