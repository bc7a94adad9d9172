/** Replacing one number of a tree: when its bytes belong to it alone, everything else still reads as before. */
module FlexReplace {
  import opened Options
  import opened Bytes
  import opened FlexTypes
  import opened FlexReader
  import opened FlexTree
  import opened FlexFootprint
  import opened FlexMutate

  // ---------------------------------------------------------------- paths

  /** How a reader gets from the root to a value: by index into vectors, by key into maps. */
  datatype Path = Here | Elem(i: nat, rest: Path) | Entry(k: seq<byte>, rest: Path)

  function Walk(b: seq<byte>, r: Reference, path: Path): Option<Reference>
    decreases path, 1
  {
    match path
    case Here => Some(r)
    case Elem(i, rest) => Onward(b, ElemOf(b, r, i), rest)
    case Entry(k, rest) => Onward(b, EntryOf(b, r, k), rest)
  }

  function Onward(b: seq<byte>, r: Option<Reference>, path: Path): Option<Reference>
    decreases path, 2
  {
    if r.Some? then Walk(b, r.value, path) else None
  }

  /** The entry of a map. */
  function EntryOf(b: seq<byte>, r: Reference, k: seq<byte>): Option<Reference> {
    if r.ty != FBT_MAP then None
    else
      var p :- Target(b, r);
      Lookup(b, p, r.byteWidth, k)
  }

  /** The i-th element, by the operator of the kind of vector that the reference is. */
  function ElemOf(b: seq<byte>, r: Reference, i: nat): Option<Reference> {
    var p :- Target(b, r);
    if r.ty == FBT_VECTOR then VectorAt(b, p, r.byteWidth, i)
    else if IsTypedVector(r.ty) then
      TypedVectorAt(b, FlexReader.TypedVector(p, r.byteWidth, ToTypedVectorElementType(r.ty)), i)
    else if IsFixedTypedVector(r.ty) then
      var (ety, len) := ToFixedTypedVectorElementType(r.ty);
      Some(FixedTypedVectorAt(FlexReader.TypedVector(p, r.byteWidth, ety), len, i))
    else None
  }

  function Next(b: seq<byte>, r: Reference, path: Path): Option<Reference>
    requires !path.Here?
  {
    if path.Elem? then ElemOf(b, r, path.i) else EntryOf(b, r, path.k)
  }

  /** The path leads to a number of the tree. */
  ghost predicate HasNumber(t: Tree, path: Path) {
    match path
    case Here => IsNumber(t)
    case Elem(i, rest) =>
      (t.Vector? || t.TypedVector? || t.FixedVector?) && i < |t.elems| && HasNumber(t.elems[i], rest)
    case Entry(k, rest) => t.Map? && k in t.entries && HasNumber(t.entries[k], rest)
  }

  ghost function NumberOf(t: Tree, path: Path): (n: Tree)
    requires HasNumber(t, path)
    ensures IsNumber(n)
  {
    match path
    case Here => t
    case Elem(i, rest) => NumberOf(t.elems[i], rest)
    case Entry(k, rest) => NumberOf(t.entries[k], rest)
  }

  /** The tree with the number at the path replaced. */
  ghost function Replaced(t: Tree, path: Path, n: Tree): (u: Tree)
    requires HasNumber(t, path)
  {
    match path
    case Here => n
    case Elem(i, rest) => WithElem(t, i, Replaced(t.elems[i], rest, n))
    case Entry(k, rest) => Map(t.entries[k := Replaced(t.entries[k], rest, n)])
  }

  ghost function WithElem(t: Tree, i: nat, e: Tree): Tree
    requires (t.Vector? || t.TypedVector? || t.FixedVector?) && i < |t.elems|
  {
    match t
    case Vector(elems) => Vector(elems[i := e])
    case TypedVector(ety, elems) => Tree.TypedVector(ety, elems[i := e])
    case FixedVector(ety, elems) => FixedVector(ety, elems[i := e])
  }

  // ---------------------------------------------------------------- bytes of numbers and of the rest

  ghost predicate Disjoint(ms: seq<iset<int>>) {
    forall i, j :: 0 <= i < j < |ms| ==> ms[i] !! ms[j]
  }

  /**
   * The numbers of the tree have widths that builders use and their bytes in `m`, no two of them a byte in common, and
   * everything else that is read for the tree is in `s`. Whatever has a width lies at a multiple of it.
   */
  ghost predicate Parted(b: seq<byte>, r: Reference, t: Tree, s: iset<int>, m: iset<int>)
    decreases t, 2
  {
    t.Null? ||
    if t.Int? || t.UInt? then
      IsWidth(r.parentWidth) && Lies(r.data, r.parentWidth) && In(r.data, ScalarSize(r.parentWidth), m)
    else
      && Lies(r.data, r.parentWidth)
      && In(r.data, ScalarSize(r.parentWidth), s)
      && (t.Bool? || (Target(b, r).Some? && PartedAt(b, Target(b, r).value, r.byteWidth, t, s, m)))
  }

  ghost predicate PartedAt(b: seq<byte>, pos: int, w: nat, t: Tree, s: iset<int>, m: iset<int>)
    decreases t, 1
  {
    && PlaceLies(b, pos, w, t)
    && if IsCompound(t) then
         FrameIn(b, pos, w, t, s) && exists ms: seq<iset<int>> :: ElemsParted(b, pos, w, t, s, m, ms)
       else (IsNumber(t) ==> IsWidth(w)) && LeafIn(pos, w, t, if IsNumber(t) then m else s)
  }

  /** A value at this position, and the keys vector of a map. */
  ghost predicate PlaceLies(b: seq<byte>, pos: int, w: nat, t: Tree) {
    (t.Key? || Lies(pos, w)) && (t.Map? ==> KeysLie(b, pos, w))
  }

  ghost predicate KeysLie(b: seq<byte>, pos: int, w: nat) {
    && KeysOf(b, pos, w).Some?
    && Lies(KeysOf(b, pos, w).value.data, KeysOf(b, pos, w).value.byteWidth)
  }

  ghost predicate ElemsParted(b: seq<byte>, pos: int, w: nat, t: Tree, s: iset<int>, m: iset<int>, ms: seq<iset<int>>)
    decreases t, 0, 1
  {
    && |ms| == Count(t) && Disjoint(ms)
    && forall i :: 0 <= i < Count(t) ==> ms[i] <= m && ElemParted(b, pos, w, t, i, s, ms[i])
  }

  ghost predicate ElemParted(b: seq<byte>, pos: int, w: nat, t: Tree, i: nat, s: iset<int>, m: iset<int>)
    decreases t, 0, 0
  {
    HasElem(b, pos, w, t, i) && Parted(b, ElemRef(b, pos, w, t, i).value, ElemTree(b, pos, w, t, i), s, m)
  }

  lemma FrameMore(b: seq<byte>, pos: int, w: nat, t: Tree, s: iset<int>, u: iset<int>)
    requires FrameIn(b, pos, w, t, s) && s <= u
    ensures FrameIn(b, pos, w, t, u)
  {
    if t.Map? {
      var keys := KeysOf(b, pos, w).value;
      forall i | 0 <= i < |t.entries|
        ensures KeyIn(b, keys, i, u)
      {
        assert KeyIn(b, keys, i, s);
      }
    }
  }

  /** All that is read is in the two sets together. */
  lemma {:induction false} PartedUses(b: seq<byte>, r: Reference, t: Tree, s: iset<int>, m: iset<int>, u: iset<int>)
    requires Parted(b, r, t, s, m) && s <= u && m <= u
    ensures Uses(b, r, t, u)
    decreases t, 2
  {
    if !t.Null? && !t.Bool? && !t.Int? && !t.UInt? {
      PartedAtUses(b, Target(b, r).value, r.byteWidth, t, s, m, u);
    }
  }

  lemma {:induction false} PartedAtUses(b: seq<byte>, pos: int, w: nat, t: Tree, s: iset<int>, m: iset<int>,
                                        u: iset<int>)
    requires PartedAt(b, pos, w, t, s, m) && s <= u && m <= u
    ensures UsesAt(b, pos, w, t, u)
    decreases t, 1
  {
    if IsCompound(t) {
      hide FrameIn;
      FrameMore(b, pos, w, t, s, u);
      var ms: seq<iset<int>> :| ElemsParted(b, pos, w, t, s, m, ms);
      forall i | 0 <= i < Count(t)
        ensures ElemUses(b, pos, w, t, i, u)
      {
        assert ElemParted(b, pos, w, t, i, s, ms[i]);
        PartedUses(b, ElemRef(b, pos, w, t, i).value, ElemTree(b, pos, w, t, i), s, ms[i], u);
      }
    }
  }

  /** Where the numbers are does not depend on the numbers. */
  lemma {:induction false} PartedAgrees(b: seq<byte>, c: seq<byte>, r: Reference, t: Tree, s: iset<int>, m: iset<int>)
    requires Agree(b, c, s) && Reads(b, r, t) && Parted(b, r, t, s, m)
    ensures Parted(c, r, t, s, m)
    decreases t, 2
  {
    hide In, Agree, ReadsAt, PartedAt;
    if !t.Null? && !t.Bool? && !t.Int? && !t.UInt? {
      OwnCellRead(b, r, t);
      ScalarAgrees(b, c, s, r.data, r.parentWidth);
      PartedAtAgrees(b, c, Target(b, r).value, r.byteWidth, r.ty, t, s, m);
    }
  }

  lemma {:induction false} PartedAtAgrees(b: seq<byte>, c: seq<byte>, pos: int, w: nat, ty: Type, t: Tree, s: iset<int>,
                                          m: iset<int>)
    requires Agree(b, c, s) && ReadsAt(b, pos, w, ty, t) && PartedAt(b, pos, w, t, s, m)
    ensures PartedAt(c, pos, w, t, s, m)
    decreases t, 1
  {
    if IsCompound(t) {
      hide FrameIn, ReadsAt, ElemsParted;
      FrameAgrees(b, c, pos, w, ty, t, s);
      var ms: seq<iset<int>> :| ElemsParted(b, pos, w, t, s, m, ms);
      ElemsPartedAgree(b, c, pos, w, ty, t, s, m, ms);
    }
  }

  lemma {:induction false} ElemsPartedAgree(b: seq<byte>, c: seq<byte>, pos: int, w: nat, ty: Type, t: Tree,
                                            s: iset<int>, m: iset<int>, ms: seq<iset<int>>)
    requires Agree(b, c, s) && IsCompound(t) && ReadsAt(b, pos, w, ty, t) && FrameIn(b, pos, w, t, s)
    requires ElemsParted(b, pos, w, t, s, m, ms)
    ensures ElemsParted(c, pos, w, t, s, m, ms)
    decreases t, 0
  {
    hide In, Agree, FrameIn, ReadsAt, Reads, Parted, ElemRef, MapKey, Disjoint;
    FrameAgrees(b, c, pos, w, ty, t, s);
    forall i | 0 <= i < Count(t)
      ensures ElemParted(c, pos, w, t, i, s, ms[i])
    {
      assert ElemParted(b, pos, w, t, i, s, ms[i]);
      ReadsElem(b, pos, w, ty, t, i);
      PartedAgrees(b, c, ElemRef(b, pos, w, t, i).value, ElemTree(b, pos, w, t, i), s, ms[i]);
    }
  }

  // ---------------------------------------------------------------- one step of a path

  /** The step taken by the path goes to the i-th element. */
  ghost predicate StepsTo(b: seq<byte>, r: Reference, t: Tree, path: Path, i: nat)
    requires !path.Here?
  {
    && Target(b, r).Some? && IsCompound(t)
    && var pos := Target(b, r).value;
       && ElemReads(b, pos, r.byteWidth, t, i)
       && (if path.Elem? then !t.Map? && i == path.i else t.Map? && MapKey(b, pos, r.byteWidth, i) == Some(path.k))
       && Walk(b, r, path) == Walk(b, ElemRef(b, pos, r.byteWidth, t, i).value, path.rest)
  }

  lemma Steps(b: seq<byte>, r: Reference, t: Tree, path: Path) returns (i: nat)
    requires Reads(b, r, t) && HasNumber(t, path) && !path.Here?
    ensures StepsTo(b, r, t, path, i)
    ensures var e := ElemTree(b, Target(b, r).value, r.byteWidth, t, i);
            HasNumber(e, path.rest) && NumberOf(t, path) == NumberOf(e, path.rest)
    ensures Next(b, r, path) == ElemRef(b, Target(b, r).value, r.byteWidth, t, i)
  {
    hide VectorAt, KeyAt, SizeAt, ElemRef, MapKey, Walk, ElemOf, EntryOf, Reads, Target;
    CompoundReads(b, r, t);
    var pos := Target(b, r).value;
    match path
    case Elem(j, _) =>
      i := j;
      ReadsElem(b, pos, r.byteWidth, r.ty, t, i);
      ElemOfIs(b, r, t, i);
      WalkOnward(b, r, path, ElemRef(b, pos, r.byteWidth, t, i).value);
    case Entry(k, rest) =>
      i := EntryIndex(b, r, t, k, rest);
      ReadsElem(b, pos, r.byteWidth, r.ty, t, i);
      WalkOnward(b, r, path, ElemRef(b, pos, r.byteWidth, t, i).value);
  }

  lemma CompoundReads(b: seq<byte>, r: Reference, t: Tree)
    requires Reads(b, r, t) && IsCompound(t)
    ensures Target(b, r).Some? && ReadsAt(b, Target(b, r).value, r.byteWidth, r.ty, t)
  {
  }

  lemma WalkOnward(b: seq<byte>, r: Reference, path: Path, e: Reference)
    requires !path.Here? && Next(b, r, path) == Some(e)
    ensures Walk(b, r, path) == Walk(b, e, path.rest)
  {
    hide ElemOf, EntryOf;
  }

  lemma ElemOfIs(b: seq<byte>, r: Reference, t: Tree, i: nat)
    requires Reads(b, r, t) && IsCompound(t) && !t.Map? && i < Count(t)
    ensures ElemOf(b, r, i) == ElemRef(b, Target(b, r).value, r.byteWidth, t, i)
  {
    hide VectorAt, KeyAt, SizeAt;
  }

  lemma EntryIndex(b: seq<byte>, r: Reference, t: Tree, k: seq<byte>, rest: Path) returns (i: nat)
    requires Reads(b, r, t) && t.Map? && k in t.entries && HasNumber(t.entries[k], rest)
    ensures i < |t.entries| && MapKey(b, Target(b, r).value, r.byteWidth, i) == Some(k)
    ensures ElemRef(b, Target(b, r).value, r.byteWidth, t, i) == EntryOf(b, r, k)
  {
    hide VectorAt, KeyAt, SizeAt, Lookup, MapKey, KeysListed, OthersAbsent, WalkReads;
    var pos := Target(b, r).value;
    assert ReadsAt(b, pos, r.byteWidth, r.ty, t);
    assert LookupsRead(b, pos, r.byteWidth, t);
    assert Lookup(b, pos, r.byteWidth, k).Some? && Reads(b, Lookup(b, pos, r.byteWidth, k).value, t.entries[k]);
    if Lookup(b, pos, r.byteWidth, k) == Some(NULL_REFERENCE) {
      NullReads(b, t.entries[k]);
      assert false;
    }
    LookupIndex(b, pos, r.byteWidth, t, k);
    i :| 0 <= i < |t.entries| && MapKey(b, pos, r.byteWidth, i) == Some(k)
         && ElemRef(b, pos, r.byteWidth, t, i) == Lookup(b, pos, r.byteWidth, k);
  }

  // ---------------------------------------------------------------- the number at the end of a path

  ghost predicate Within(k: int, p: int, n: nat) { p <= k < p + n }

  ghost function Range(p: int, n: nat): iset<int> { iset k | Within(k, p, n) }

  /** The bytes of a number. */
  ghost function NumberBytes(b: seq<byte>, r: Reference): iset<int>
    requires NumberAt(b, r).Some?
  {
    Range(NumberAt(b, r).value, ScalarSize(NumberWidth(r)))
  }

  lemma TheParts(b: seq<byte>, r: Reference, t: Tree, s: iset<int>, m: iset<int>) returns (ms: seq<iset<int>>)
    requires Parted(b, r, t, s, m) && IsCompound(t)
    ensures In(r.data, ScalarSize(r.parentWidth), s) && Target(b, r).Some?
    ensures Lies(r.data, r.parentWidth) && PlaceLies(b, Target(b, r).value, r.byteWidth, t)
    ensures FrameIn(b, Target(b, r).value, r.byteWidth, t, s)
    ensures ElemsParted(b, Target(b, r).value, r.byteWidth, t, s, m, ms)
  {
    hide In, FrameIn, PlaceLies, Lies;
    assert PartedAt(b, Target(b, r).value, r.byteWidth, t, s, m);
    ms :| ElemsParted(b, Target(b, r).value, r.byteWidth, t, s, m, ms);
  }

  /** Walking the path leads to a reference that reads the number, whose bytes are among those of numbers. */
  lemma {:induction false} WalkFinds(b: seq<byte>, r: Reference, t: Tree, path: Path, s: iset<int>, m: iset<int>)
    requires Reads(b, r, t) && Parted(b, r, t, s, m) && HasNumber(t, path)
    ensures Walk(b, r, path).Some? && Reads(b, Walk(b, r, path).value, NumberOf(t, path))
    ensures NumberAt(b, Walk(b, r, path).value).Some? && NumberBytes(b, Walk(b, r, path).value) <= m
    ensures Parted(b, Walk(b, r, path).value, NumberOf(t, path), s, m)
    decreases path
  {
    if !path.Here? {
      hide In, Parted, FrameIn, ReadsAt, Walk, ElemRef, MapKey, NumberBytes, NumberAt;
      var i := Steps(b, r, t, path);
      var pos, w := Target(b, r).value, r.byteWidth;
      var ms := TheParts(b, r, t, s, m);
      assert ElemParted(b, pos, w, t, i, s, ms[i]);
      WalkFinds(b, ElemRef(b, pos, w, t, i).value, ElemTree(b, pos, w, t, i), path.rest, s, ms[i]);
      NumberMore(b, Walk(b, r, path).value, NumberOf(t, path), s, ms[i], m);
    }
  }

  /** The operators take the same step in both buffers. */
  lemma StepAgrees(b: seq<byte>, c: seq<byte>, r: Reference, t: Tree, path: Path, s: iset<int>)
    requires Agree(b, c, s) && Reads(b, r, t) && HasNumber(t, path) && !path.Here? && Target(b, r).Some?
    requires In(r.data, ScalarSize(r.parentWidth), s) && FrameIn(b, Target(b, r).value, r.byteWidth, t, s)
    ensures Next(c, r, path) == Next(b, r, path)
  {
    hide In, Agree, FrameIn, VectorAt, Lookup, SizeAt, ReadsAt, Target, KeysOf;
    TargetAgrees(b, c, r, t, s);
    CompoundReads(b, r, t);
    var pos, w := Target(b, r).value, r.byteWidth;
    match path
    case Elem(i, _) =>
      FrameAgrees(b, c, pos, w, r.ty, t, s);
      ElemOfIs(b, r, t, i);
      assert ElemRef(c, pos, w, t, i) == ElemRef(b, pos, w, t, i);
      SameStep(b, c, r, t, i);
    case Entry(k, rest) =>
      MapType(b, pos, w, r.ty, t);
      var i := EntryIndex(b, r, t, k, rest);
      ReadsElem(b, pos, w, r.ty, t, i);
      LookupAgrees(b, c, pos, w, t, k, s);
  }

  lemma SameStep(b: seq<byte>, c: seq<byte>, r: Reference, t: Tree, i: nat)
    requires Reads(b, r, t) && IsCompound(t) && !t.Map? && i < Count(t) && Target(c, r) == Target(b, r)
    ensures ElemOf(c, r, i) == ElemRef(c, Target(b, r).value, r.byteWidth, t, i)
  {
    hide VectorAt, KeyAt, SizeAt;
  }

  /** Paths to numbers lead to the same references while everything but numbers stays. */
  lemma {:induction false} WalkAgrees(b: seq<byte>, c: seq<byte>, r: Reference, t: Tree, path: Path, s: iset<int>,
                                      m: iset<int>)
    requires Agree(b, c, s) && Reads(b, r, t) && Parted(b, r, t, s, m) && HasNumber(t, path)
    ensures Walk(c, r, path) == Walk(b, r, path)
    decreases path
  {
    if !path.Here? {
      hide In, Agree, Parted, FrameIn, ReadsAt, ElemRef, MapKey, Reads, Next, Walk, Target;
      var i := Steps(b, r, t, path);
      var pos, w := Target(b, r).value, r.byteWidth;
      var ms := TheParts(b, r, t, s, m);
      assert ElemParted(b, pos, w, t, i, s, ms[i]);
      StepAgrees(b, c, r, t, path, s);
      WalkOnward(c, r, path, ElemRef(b, pos, w, t, i).value);
      WalkAgrees(b, c, ElemRef(b, pos, w, t, i).value, ElemTree(b, pos, w, t, i), path.rest, s, ms[i]);
    }
  }

  lemma NumberMore(b: seq<byte>, r: Reference, t: Tree, s: iset<int>, m: iset<int>, m': iset<int>)
    requires IsNumber(t) && Parted(b, r, t, s, m) && m <= m'
    ensures Parted(b, r, t, s, m')
  {
  }

  /** The buffers differ at most in these bytes. */
  ghost predicate SameBut(b: seq<byte>, c: seq<byte>, x: iset<int>) {
    |c| == |b| && forall k :: 0 <= k < |b| && k !in x ==> c[k] == b[k]
  }

  lemma SameAgree(b: seq<byte>, c: seq<byte>, x: iset<int>, s: iset<int>)
    requires SameBut(b, c, x) && x !! s
    ensures Agree(b, c, s)
  {
  }

  /** A number replaced at the reference itself. */
  lemma NumberReplaced(b: seq<byte>, c: seq<byte>, r: Reference, t: Tree, n: Tree, s: iset<int>, m: iset<int>)
    requires Reads(b, r, t) && Parted(b, r, t, s, m) && s !! m && IsNumber(t)
    requires NumberAt(b, r).Some? && SameBut(b, c, NumberBytes(b, r)) && IsNumber(n) && Reads(c, r, n)
    ensures Parted(c, r, n, s, m)
  {
    if IsIndirect(r.ty) {
      WalkFinds(b, r, t, Here, s, m);
      SameAgree(b, c, NumberBytes(b, r), s);
      OwnCellRead(b, r, t);
      ScalarAgrees(b, c, s, r.data, r.parentWidth);
    }
  }

  lemma ReplacedShape(t: Tree, path: Path, n: Tree)
    requires HasNumber(t, path) && !path.Here?
    ensures IsCompound(t) && SameShape(t, Replaced(t, path, n))
  {
    if t.Map? {
      assert Replaced(t, path, n).entries.Keys == t.entries.Keys;
    }
  }

  /** Only the element stepped to has changed. */
  lemma ReplacedElem(b: seq<byte>, c: seq<byte>, r: Reference, t: Tree, path: Path, n: Tree, i: nat, j: nat)
    requires Reads(b, r, t) && HasNumber(t, path) && !path.Here? && StepsTo(b, r, t, path, i)
    requires var pos, w := Target(b, r).value, r.byteWidth;
             && j < Count(t) && ElemRef(c, pos, w, t, j) == ElemRef(b, pos, w, t, j)
             && (t.Map? ==> MapKey(c, pos, w, j) == MapKey(b, pos, w, j))
    ensures
      var pos, w, u := Target(b, r).value, r.byteWidth, Replaced(t, path, n);
      && HasElem(b, pos, w, t, i) && HasElem(b, pos, w, t, j) && HasNumber(ElemTree(b, pos, w, t, i), path.rest)
      && HasElem(c, pos, w, u, j) && ElemRef(c, pos, w, u, j) == ElemRef(b, pos, w, t, j)
      && ElemTree(c, pos, w, u, j) == if j == i then Replaced(ElemTree(b, pos, w, t, i), path.rest, n)
                                      else ElemTree(b, pos, w, t, j)
  {
    hide VectorAt, KeyAt, SizeAt, MapKey, Walk, Reads, Target;
    var pos, w := Target(b, r).value, r.byteWidth;
    ReplacedShape(t, path, n);
    CompoundReads(b, r, t);
    ReadsElem(b, pos, w, r.ty, t, j);
    if t.Map? && j != i {
      OtherKey(b, pos, w, r.ty, t, i, j);
    }
  }

  lemma OtherKey(b: seq<byte>, pos: int, w: nat, ty: Type, t: Tree, i: nat, j: nat)
    requires t.Map? && ReadsAt(b, pos, w, ty, t) && i < |t.entries| && j < |t.entries| && i != j
    ensures MapKey(b, pos, w, i) != MapKey(b, pos, w, j)
  {
    hide KeyAt, SizeAt, Reads, WalkReads, LookupsRead, OthersAbsent;
    assert |t.entries.Keys| == |t.entries|;
    if MapKey(b, pos, w, i) == MapKey(b, pos, w, j) {
      KeysDiffer(b, KeysOf(b, pos, w).value, t.entries.Keys, i, j);
    }
  }

  lemma {:induction false} ReplacedHas(t: Tree, path: Path, n: Tree)
    requires HasNumber(t, path) && IsNumber(n)
    ensures HasNumber(Replaced(t, path, n), path) && NumberOf(Replaced(t, path, n), path) == n
  {
    match path
    case Here =>
    case Elem(i, rest) => ReplacedHas(t.elems[i], rest, n);
    case Entry(k, rest) => ReplacedHas(t.entries[k], rest, n);
  }

  lemma TargetAgrees(b: seq<byte>, c: seq<byte>, r: Reference, t: Tree, s: iset<int>)
    requires Agree(b, c, s) && Reads(b, r, t) && IsCompound(t) && In(r.data, ScalarSize(r.parentWidth), s)
    ensures Target(c, r) == Target(b, r)
  {
    hide In, Agree;
    OwnCellRead(b, r, t);
    ScalarAgrees(b, c, s, r.data, r.parentWidth);
  }

  lemma OtherPart(ms: seq<iset<int>>, i: nat, j: nat)
    requires Disjoint(ms) && i < |ms| && j < |ms| && i != j
    ensures ms[i] !! ms[j]
  {
  }

  /** An element whose bytes are apart from the change. */
  lemma ElemStays(b: seq<byte>, c: seq<byte>, e: Reference, t: Tree, s: iset<int>, m: iset<int>, x: iset<int>)
    requires Reads(b, e, t) && Parted(b, e, t, s, m) && SameBut(b, c, x) && x !! s && x !! m
    ensures Reads(c, e, t) && Parted(c, e, t, s, m)
  {
    hide Reads, Parted, SameBut, Agree, Uses;
    SameAgree(b, c, x, s);
    SameAgree(b, c, x, s + m);
    PartedUses(b, e, t, s, m, s + m);
    ReadsAgree(b, c, e, t, s + m);
    PartedAgrees(b, c, e, t, s, m);
  }

  lemma SameFrame(c: seq<byte>, pos: int, w: nat, t: Tree, u: Tree, s: iset<int>)
    requires SameShape(t, u) && FrameIn(c, pos, w, t, s)
    ensures FrameIn(c, pos, w, u, s)
  {
  }

  lemma Assembled(c: seq<byte>, r: Reference, u: Tree, s: iset<int>, m: iset<int>, ms: seq<iset<int>>)
    requires IsCompound(u) && In(r.data, ScalarSize(r.parentWidth), s) && Target(c, r).Some? && !IsInline(r.ty)
    requires Lies(r.data, r.parentWidth) && PlaceLies(c, Target(c, r).value, r.byteWidth, u)
    requires FrameIn(c, Target(c, r).value, r.byteWidth, u, s) && ReadsAt(c, Target(c, r).value, r.byteWidth, r.ty, u)
    requires ElemsParted(c, Target(c, r).value, r.byteWidth, u, s, m, ms)
    ensures Reads(c, r, u) && Parted(c, r, u, s, m)
  {
    hide In, FrameIn, ReadsAt, ElemsParted, PlaceLies, Lies;
    assert PartedAt(c, Target(c, r).value, r.byteWidth, u, s, m);
  }

  lemma PlaceStays(b: seq<byte>, c: seq<byte>, pos: int, w: nat, t: Tree, u: Tree)
    requires PlaceLies(b, pos, w, t) && SameShape(t, u) && (t.Map? ==> KeysOf(c, pos, w) == KeysOf(b, pos, w))
    ensures PlaceLies(c, pos, w, u)
  {
    hide KeysOf, Lies;
  }

  lemma NotInline(b: seq<byte>, r: Reference, t: Tree)
    requires Reads(b, r, t) && IsCompound(t)
    ensures !IsInline(r.ty)
  {
  }

  lemma StepStays(b: seq<byte>, c: seq<byte>, r: Reference, t: Tree, path: Path, n: Tree, i: nat)
    requires HasNumber(t, path) && IsNumber(n) && !path.Here? && StepsTo(b, r, t, path, i)
    requires Reads(c, r, Replaced(t, path, n)) && Target(c, r) == Target(b, r)
    requires var pos, w := Target(b, r).value, r.byteWidth;
             && ElemRef(c, pos, w, Replaced(t, path, n), i) == ElemRef(b, pos, w, t, i)
             && (t.Map? ==> MapKey(c, pos, w, i) == MapKey(b, pos, w, i))
             && Walk(c, ElemRef(b, pos, w, t, i).value, path.rest) == Walk(b, ElemRef(b, pos, w, t, i).value, path.rest)
    ensures Walk(c, r, path) == Walk(b, r, path)
  {
    hide Reads, Target, Walk, ElemRef, MapKey, ReadsAt;
    var u := Replaced(t, path, n);
    ReplacedHas(t, path, n);
    ReplacedShape(t, path, n);
    var j := Steps(c, r, u, path);
    if t.Map? && j != i {
      CompoundReads(c, r, u);
      MapType(c, Target(c, r).value, r.byteWidth, r.ty, u);
      OtherKey(c, Target(c, r).value, r.byteWidth, r.ty, u, i, j);
    }
  }

  /**
   * When only the bytes of a number change, and they read as a new number now, the whole tree reads with that number
   * replaced; its bytes are still apart, and the path still leads there.
   */
  lemma {:induction false} ReplaceReads(b: seq<byte>, c: seq<byte>, r: Reference, t: Tree, path: Path, n: Tree,
                                        s: iset<int>, m: iset<int>)
    requires Reads(b, r, t) && Parted(b, r, t, s, m) && s !! m && HasNumber(t, path) && IsNumber(n)
    requires Walk(b, r, path).Some? && NumberAt(b, Walk(b, r, path).value).Some?
    requires SameBut(b, c, NumberBytes(b, Walk(b, r, path).value)) && Reads(c, Walk(b, r, path).value, n)
    ensures Reads(c, r, Replaced(t, path, n)) && Parted(c, r, Replaced(t, path, n), s, m)
    ensures Walk(c, r, path) == Walk(b, r, path)
    decreases path
  {
    if path.Here? {
      NumberReplaced(b, c, r, t, n, s, m);
    } else {
      hide In, Agree, FrameIn, ReadsAt, Walk, ElemRef, MapKey, NumberBytes, NumberAt, SameBut, Parted, Reads, Target,
        Disjoint, Replaced, WithElem, StepsTo, PlaceLies, Lies;
      var i := Steps(b, r, t, path);
      var ms := TheParts(b, r, t, s, m);
      Replacing(b, c, r, t, path, n, s, m, i, ms);
    }
  }

  lemma {:induction false} Replacing(b: seq<byte>, c: seq<byte>, r: Reference, t: Tree, path: Path, n: Tree,
                                     s: iset<int>, m: iset<int>, i: nat, ms: seq<iset<int>>)
    requires Reads(b, r, t) && Parted(b, r, t, s, m) && s !! m && HasNumber(t, path) && IsNumber(n) && !path.Here?
    requires Walk(b, r, path).Some? && NumberAt(b, Walk(b, r, path).value).Some?
    requires SameBut(b, c, NumberBytes(b, Walk(b, r, path).value)) && Reads(c, Walk(b, r, path).value, n)
    requires StepsTo(b, r, t, path, i)
    requires HasNumber(ElemTree(b, Target(b, r).value, r.byteWidth, t, i), path.rest)
    requires In(r.data, ScalarSize(r.parentWidth), s) && FrameIn(b, Target(b, r).value, r.byteWidth, t, s)
    requires Lies(r.data, r.parentWidth) && PlaceLies(b, Target(b, r).value, r.byteWidth, t)
    requires ElemsParted(b, Target(b, r).value, r.byteWidth, t, s, m, ms)
    ensures Reads(c, r, Replaced(t, path, n)) && Parted(c, r, Replaced(t, path, n), s, m)
    ensures Walk(c, r, path) == Walk(b, r, path)
    decreases path, 0
  {
    hide In, Agree, FrameIn, ReadsAt, Walk, ElemRef, MapKey, NumberBytes, NumberAt, SameBut, Parted, Reads, Target,
      Replaced, WithElem, PlaceLies, Lies;
    var pos, w := Target(b, r).value, r.byteWidth;
    var e, te, x := ElemRef(b, pos, w, t, i).value, ElemTree(b, pos, w, t, i), NumberBytes(b, Walk(b, r, path).value);
    var u := Replaced(t, path, n);
    assert ElemParted(b, pos, w, t, i, s, ms[i]);
    WalkFinds(b, e, te, path.rest, s, ms[i]);
    SameAgree(b, c, x, s);
    TargetAgrees(b, c, r, t, s);
    ReplaceReads(b, c, e, te, path.rest, n, s, ms[i]);
    CompoundReads(b, r, t);
    FrameAgrees(b, c, pos, w, r.ty, t, s);
    ReplacedShape(t, path, n);
    forall j | 0 <= j < Count(u)
      ensures ElemReads(c, pos, w, u, j) && ElemParted(c, pos, w, u, j, s, ms[j])
    {
      ReplacedElem(b, c, r, t, path, n, i, j);
      if j != i {
        assert ElemParted(b, pos, w, t, j, s, ms[j]);
        ReadsElem(b, pos, w, r.ty, t, j);
        OtherPart(ms, i, j);
        ElemStays(b, c, ElemRef(b, pos, w, t, j).value, ElemTree(b, pos, w, t, j), s, ms[j], x);
      }
    }
    ShapeReads(b, c, pos, w, r.ty, t, u, s);
    SameFrame(c, pos, w, t, u, s);
    assert ElemsParted(c, pos, w, u, s, m, ms);
    NotInline(b, r, t);
    PlaceStays(b, c, pos, w, t, u);
    Assembled(c, r, u, s, m, ms);
    ReplacedElem(b, c, r, t, path, n, i, i);
    StepStays(b, c, r, t, path, n, i);
  }
}
