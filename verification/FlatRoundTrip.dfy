/** Building a document depth-first, finishing it, verifying it and reading it back. */
module FlatRoundTrip {
  import opened Options
  import opened Bytes
  import opened VectorDownward
  import opened FlatReader
  import opened FlatObject
  import opened FlatVTable
  import opened FlatState
  import opened FlatBuilder
  import opened FlatVerifier
  import opened FlatAccess
  import opened FlatAccepts

  /** What a caller builds; the fields of a table come in the order in which they are added. */
  datatype Doc =
    | Text(s: seq<byte>)
    | Numbers(size: nat, elems: seq<nat>)
    | List(items: seq<Doc>)
    | Record(fields: seq<Part>)

  datatype Part =
    | Scalar(id: nat, size: nat, e: nat, def: nat)
    | Struct(id: nat, align: nat, bytes: seq<byte>)
    | Child(id: nat, doc: Doc)

  ghost predicate WellFormed(d: Doc, force: bool)
    decreases d, 1
  {
    match d
    case Text(_) => true
    case Numbers(size, elems) => IsScalarSize(size) && forall i :: 0 <= i < |elems| ==> elems[i] < Pow256(size)
    case List(elems) => forall i :: 0 <= i < |elems| ==> WellFormed(elems[i], force)
    case Record(fields) =>
      && (forall i :: 0 <= i < |fields| ==> IsField(fields[i].id) && PartOk(fields[i], force))
      && (forall i, j :: 0 <= i < j < |fields| ==> fields[i].id != fields[j].id)
      && Fits(fields, force)
  }

  ghost predicate PartOk(p: Part, force: bool)
    decreases p, 0
  {
    Shaped(p) && (p.Child? ==> WellFormed(p.doc, force))
  }

  predicate Shaped(p: Part) {
    match p
    case Scalar(_, size, e, _) => IsScalarSize(size) && e < Pow256(size)
    case Struct(_, align, bytes) => IsAlignment(align) && bytes != [] && Aligned(|bytes|, align)
    case Child(_, _) => true
  }

  predicate Skipped(p: Part, force: bool) { p.Scalar? && p.e == p.def && !force }

  /** The size of the buffer after a field is added to it at the size `at`. */
  ghost function PartEnd(p: Part, at: nat, force: bool): (end: nat)
    requires Shaped(p)
    ensures end <= at + PartWeight(p)
  {
    match p
    case Scalar(_, size, _, _) => if Skipped(p, force) then at else Padded(at, size) + size
    case Struct(_, align, bytes) => Padded(at, align) + |bytes|
    case Child(_, _) => Padded(at, 4) + 4
  }

  ghost function BodyEnd(fields: seq<Part>, at: nat, force: bool): (end: nat)
    requires forall i :: 0 <= i < |fields| ==> Shaped(fields[i])
    ensures end <= at + BodyWeight(fields)
  {
    if fields == [] then at
    else
      var n := |fields| - 1;
      PartEnd(fields[n], BodyEnd(fields[..n], at, force), force)
  }

  /** With the offset of the vtable in front, the table is smaller than 64K, wherever it starts. */
  ghost predicate Fits(fields: seq<Part>, force: bool) {
    && (forall i :: 0 <= i < |fields| ==> Shaped(fields[i]))
    && forall at: nat :: at < 16 ==> Padded(BodyEnd(fields, at, force), 4) + 4 < at + 0x1_0000
  }

  /** Padding repeats every 16 bytes, the largest alignment. */
  lemma {:induction false} BodyRepeats(fields: seq<Part>, at: nat, force: bool)
    requires forall i :: 0 <= i < |fields| ==> Shaped(fields[i])
    ensures BodyEnd(fields, at + 16, force) == BodyEnd(fields, at, force) + 16
    decreases |fields|
  {
    hide Padded;
    if fields != [] {
      var n := |fields| - 1;
      BodyRepeats(fields[..n], at, force);
      var end := BodyEnd(fields[..n], at, force);
      match fields[n] {
        case Scalar(_, size, _, _) => PaddedRepeats(end, size);
        case Struct(_, align, _) => PaddedRepeats(end, align);
        case Child(_, _) => PaddedRepeats(end, 4);
      }
    }
  }

  lemma {:induction false} FitsAnywhere(fields: seq<Part>, at: nat, force: bool)
    requires Fits(fields, force)
    ensures Padded(BodyEnd(fields, at, force), 4) + 4 < at + 0x1_0000
    decreases at
  {
    hide Padded, BodyEnd;
    if at >= 16 {
      FitsAnywhere(fields, at - 16, force);
      BodyRepeats(fields, at - 16, force);
      PaddedRepeats(BodyEnd(fields, at - 16, force), 4);
    }
  }

  /** A bound on the bytes that the fields take in the table, with their padding. */
  ghost function BodyWeight(fields: seq<Part>): nat {
    if fields == [] then 0 else BodyWeight(fields[..|fields| - 1]) + PartWeight(fields[|fields| - 1])
  }

  ghost function PartWeight(p: Part): nat {
    match p
    case Scalar(_, size, _, _) => 2 * size
    case Struct(_, align, bytes) => |bytes| + align
    case Child(_, _) => 8
  }

  /** The place of the last field in the vtable. */
  ghost function LastId(fields: seq<Part>): (n: nat)
    ensures forall i :: 0 <= i < |fields| ==> fields[i].id <= n
  {
    if fields == [] then 0 else Max(LastId(fields[..|fields| - 1]), fields[|fields| - 1].id)
  }

  /** A bound on the bytes that building the document takes: for a table its fields and its vtable. */
  ghost function Weight(d: Doc): nat
    decreases d, 2
  {
    match d
    case Text(s) => |s| + 16
    case Numbers(size, elems) => if IsAlignment(size) then Stride(|elems|, size) + 32 else 0
    case List(elems) => ListWeight(elems) + 4 * |elems| + 32
    case Record(fields) => ChildrenWeight(fields) + BodyWeight(fields) + LastId(fields) + 16
  }

  ghost function ListWeight(elems: seq<Doc>): nat
    decreases elems, 1
  {
    if elems == [] then 0 else ListWeight(elems[..|elems| - 1]) + Weight(elems[|elems| - 1])
  }

  ghost function ChildrenWeight(fields: seq<Part>): nat
    decreases fields, 1
  {
    if fields == [] then 0 else ChildrenWeight(fields[..|fields| - 1]) + ChildWeight(fields[|fields| - 1])
  }

  ghost function ChildWeight(p: Part): nat
    decreases p, 0
  {
    if p.Child? then Weight(p.doc) else 0
  }

  /** The object that the document stands for; scalars with their default value are not stored unless forced. */
  ghost function ObjOf(d: Doc, force: bool): Obj
    decreases d, 2
  {
    match d
    case Text(s) => Str(s)
    case Numbers(size, elems) => Scalars(size, elems)
    case List(elems) => Offsets(ObjsOf(elems, force))
    case Record(fields) => Table(FieldsOf(fields, force))
  }

  ghost function ObjsOf(elems: seq<Doc>, force: bool): (os: seq<Obj>)
    ensures |os| == |elems| && forall i :: 0 <= i < |elems| ==> os[i] == ObjOf(elems[i], force)
    decreases elems, 1
  {
    seq(|elems|, i requires 0 <= i < |elems| => ObjOf(elems[i], force))
  }

  ghost function FieldsOf(fields: seq<Part>, force: bool): map<nat, Field>
    decreases fields, 1
  {
    if fields == [] then map[]
    else
      var n := |fields| - 1;
      var rest := FieldsOf(fields[..n], force);
      if Skipped(fields[n], force) then rest else rest[fields[n].id := FieldOf(fields[n], force)]
  }

  ghost function FieldOf(p: Part, force: bool): Field
    decreases p, 0
  {
    match p
    case Scalar(_, size, e, _) => Inline(size, ToLE(e, size))
    case Struct(_, align, bytes) => Inline(align, bytes)
    case Child(_, doc) => Ref(ObjOf(doc, force))
  }

  // ---------------------------------------------------------------- bookkeeping

  lemma {:induction false} ListWeightUpTo(elems: seq<Doc>, k: nat)
    requires k < |elems|
    ensures ListWeight(elems[..k]) + Weight(elems[k]) == ListWeight(elems[..k + 1]) <= ListWeight(elems)
    decreases |elems|
  {
    var n := |elems| - 1;
    assert elems[..k + 1][..k] == elems[..k];
    if k < n {
      ListWeightUpTo(elems[..n], k);
      assert elems[..n][..k] == elems[..k] && elems[..n][..k + 1] == elems[..k + 1];
    } else {
      assert elems[..k + 1] == elems;
    }
  }

  lemma {:induction false} FieldsUpTo(fields: seq<Part>, k: nat, force: bool)
    requires k < |fields|
    ensures ChildrenWeight(fields[..k]) + ChildWeight(fields[k]) ==
      ChildrenWeight(fields[..k + 1]) <= ChildrenWeight(fields)
    ensures BodyWeight(fields[..k + 1]) <= BodyWeight(fields)
    ensures FieldsOf(fields[..k + 1], force)
         == if Skipped(fields[k], force) then FieldsOf(fields[..k], force)
            else FieldsOf(fields[..k], force)[fields[k].id := FieldOf(fields[k], force)]
    decreases |fields|
  {
    var n := |fields| - 1;
    assert fields[..k + 1][..k] == fields[..k];
    if k < n {
      FieldsUpTo(fields[..n], k, force);
      assert fields[..n][..k] == fields[..k] && fields[..n][..k + 1] == fields[..k + 1];
    } else {
      assert fields[..k + 1] == fields;
    }
  }

  lemma {:induction false} FieldsOfIds(fields: seq<Part>, force: bool, f: nat) returns (i: nat)
    requires f in FieldsOf(fields, force)
    ensures i < |fields| && fields[i].id == f
    decreases |fields|
  {
    var n := |fields| - 1;
    if fields[n].id == f {
      i := n;
    } else {
      i := FieldsOfIds(fields[..n], force, f);
    }
  }

  // ---------------------------------------------------------------- what the accessors return

  /** From the object at `pos` the accessors return the document; a scalar reads as it was given, stored or not. */
  ghost predicate DocReads(b: seq<byte>, pos: int, d: Doc)
    decreases d, 1
  {
    match d
    case Text(s) => StringBytes(b, pos) == Some(s)
    case Numbers(size, elems) =>
      && IsScalarSize(size) && VectorSize(b, pos) == Some(|elems|)
      && forall i :: 0 <= i < |elems| ==> VectorGet(b, pos, i, size) == Some(elems[i])
    case List(elems) =>
      && VectorSize(b, pos) == Some(|elems|)
      && forall i :: 0 <= i < |elems| ==> ItemReads(b, pos, i, elems[i])
    case Record(fields) =>
      && (forall i :: 0 <= i < |fields| ==> PartReads(b, pos, fields[i]))
      && forall f :: IsField(f) && (forall i :: 0 <= i < |fields| ==> fields[i].id != f) ==>
        GetPointer(b, pos, f) == Some(None)
  }

  ghost predicate ItemReads(b: seq<byte>, pos: int, i: nat, d: Doc)
    decreases d, 2
  {
    VectorGetOffset(b, pos, i).Some? && DocReads(b, VectorGetOffset(b, pos, i).value, d)
  }

  ghost predicate PartReads(b: seq<byte>, pos: int, p: Part)
    decreases p, 0
  {
    match p
    case Scalar(id, size, e, def) => GetField(b, pos, id, size, def) == Some(e)
    case Struct(id, _, bytes) =>
      GetAddressOf(b, pos, id).Some? && GetAddressOf(b, pos, id).value.Some?
      && HasBytes(b, GetAddressOf(b, pos, id).value.value, bytes)
    case Child(id, doc) =>
      GetPointer(b, pos, id).Some? && GetPointer(b, pos, id).value.Some?
      && DocReads(b, GetPointer(b, pos, id).value.value, doc)
  }

  /** Each part has its own place, which is empty if the part is not stored. */
  lemma {:induction false} FieldsOfAt(fields: seq<Part>, force: bool, i: nat)
    requires i < |fields| && forall j, k :: 0 <= j < k < |fields| ==> fields[j].id != fields[k].id
    ensures if Skipped(fields[i], force) then fields[i].id !in FieldsOf(fields, force)
            else fields[i].id in FieldsOf(fields, force)
                 && FieldsOf(fields, force)[fields[i].id] == FieldOf(fields[i], force)
    decreases |fields|
  {
    hide FieldOf;
    var n := |fields| - 1;
    if i < n {
      FieldsOfAt(fields[..n], force, i);
    } else if fields[n].id in FieldsOf(fields[..n], force) {
      var j := FieldsOfIds(fields[..n], force, fields[n].id);
    }
  }

  /** Where the document's object is stored, the accessors return the document. */
  lemma {:induction false} StoredReads(b: seq<byte>, off: nat, d: Doc, force: bool)
    requires WellFormed(d, force) && Stored(b, off, ObjOf(d, force))
    ensures DocReads(b, |b| - off, d)
    decreases d, 1
  {
    hide Stored, VTableStored, GetOptionalFieldOffset, FieldsOf, Fits, GetField, GetPointer, GetAddressOf, VectorGet,
      VectorGetOffset, StringBytes;
    match d
    case Text(s) => StringReadsBack(b, off, s);
    case Numbers(size, elems) =>
      NumbersRead(b, off, size, elems);
    case List(elems) =>
      ListSize(b, off, ObjsOf(elems, force));
      forall i | 0 <= i < |elems|
        ensures ItemReads(b, |b| - off, i, elems[i])
      {
        OffsetsReadBack(b, off, ObjsOf(elems, force), i);
        var q := VectorGetOffset(b, |b| - off, i).value;
        StoredReads(b, |b| - q, elems[i], force);
        assert |b| - (|b| - q) == q;
      }
    case Record(fields) =>
      forall i | 0 <= i < |fields|
        ensures PartReads(b, |b| - off, fields[i])
      {
        StoredPartReads(b, off, fields, i, force);
      }
      forall f | IsField(f) && (forall i :: 0 <= i < |fields| ==> fields[i].id != f)
        ensures GetPointer(b, |b| - off, f) == Some(None)
      {
        if f in FieldsOf(fields, force) {
          var i := FieldsOfIds(fields, force, f);
        }
        AbsentReadsDefault(b, off, FieldsOf(fields, force), f, 1, 0);
      }
  }

  lemma {:induction false} StoredPartReads(b: seq<byte>, off: nat, fields: seq<Part>, i: nat, force: bool)
    requires i < |fields| && WellFormed(Record(fields), force) && Stored(b, off, Table(FieldsOf(fields, force)))
    ensures PartReads(b, |b| - off, fields[i])
    decreases fields, 0
  {
    hide Stored, VTableStored, GetOptionalFieldOffset, FieldsOf, Fits, GetField, GetPointer, GetAddressOf;
    FieldsOfAt(fields, force, i);
    var flds := FieldsOf(fields, force);
    assert PartOk(fields[i], force);
    match fields[i]
    case Scalar(id, size, e, def) =>
      if Skipped(fields[i], force) {
        AbsentReadsDefault(b, off, flds, id, size, def);
      } else {
        ScalarReadsBack(b, off, flds, id, size, e, def);
      }
    case Struct(id, _, bytes) => StructReadsBack(b, off, flds, id);
    case Child(id, doc) =>
      RefReadsBack(b, off, flds, id);
      StoredReads(b, |b| - GetPointer(b, |b| - off, id).value.value, doc, force);
  }

  lemma NumbersRead(b: seq<byte>, off: nat, size: nat, elems: seq<nat>)
    requires Stored(b, off, Scalars(size, elems))
    ensures DocReads(b, |b| - off, Numbers(size, elems))
  {
    hide VectorGet, VectorSize, Aligned;
  }

  lemma ListSize(b: seq<byte>, off: nat, children: seq<Obj>)
    requires Stored(b, off, Offsets(children))
    ensures VectorSize(b, |b| - off) == Some(|children|)
  {
    hide RefStored, VectorSize;
  }

  lemma FieldMapSnoc(locs: seq<FieldLoc>, flds: seq<Field>, l: FieldLoc, fld: Field)
    requires |locs| == |flds|
    ensures FieldMap(locs + [l], flds + [fld]) == FieldMap(locs, flds)[l.id := fld]
  {
    assert (locs + [l])[..|locs|] == locs && (flds + [fld])[..|flds|] == flds;
  }

  lemma {:induction false} FieldMapKeys(locs: seq<FieldLoc>, flds: seq<Field>, i: nat)
    requires |locs| == |flds| && i < |locs|
    ensures locs[i].id in FieldMap(locs, flds)
    decreases |locs|
  {
    var n := |locs| - 1;
    if i < n {
      FieldMapKeys(locs[..n], flds[..n], i);
    }
  }

  ghost predicate DistinctIds(locs: seq<FieldLoc>) {
    forall i, j :: 0 <= i < j < |locs| ==> locs[i].id != locs[j].id
  }

  ghost predicate SubMap(small: map<nat, Obj>, large: map<nat, Obj>) {
    forall off :: off in small ==> off in large && large[off] == small[off]
  }

  // ---------------------------------------------------------------- building

  /** Room for the weight, and for what single steps ask for besides. */
  ghost predicate Ready(b: FlatBufferBuilder, weight: nat)
    reads b, b.buf, b.buf.buf
  {
    b.Valid() && !b.nested && b.HasRoom(weight + 64)
  }

  /** Making a part keeps all that was made before, and takes no more than its weight. */
  twostate predicate Grown(b: FlatBufferBuilder, weight: nat)
    requires old(b.buf.Valid())
    reads b, b.buf, b.buf.buf
  {
    && b.Valid() && !b.nested && b.buf.Kept() && b.GetSize() <= old(b.GetSize()) + weight
    && SubMap(old(b.known).objs, b.known.objs)
  }

  method EmitText(b: FlatBufferBuilder, s: seq<byte>, share: bool) returns (off: nat)
    requires Ready(b, |s| + 16)
    modifies b, b.buf, b.buf.buf
    ensures Grown(b, |s| + 16) && off in b.known.objs && b.known.objs[off] == Str(s)
    ensures b.forceDefaults == old(b.forceDefaults)
  {
    hide VectorDownward.Data, VectorDownward.Scratch, Knows, PoolOk, Extends;
    if share {
      off := b.CreateSharedString(s);
    } else {
      off := b.CreateString(s);
    }
  }

  method Emit(b: FlatBufferBuilder, d: Doc, share: bool) returns (off: nat)
    requires WellFormed(d, b.forceDefaults) && Ready(b, Weight(d))
    modifies b, b.buf, b.buf.buf
    ensures Grown(b, Weight(d)) && b.forceDefaults == old(b.forceDefaults)
    ensures off in b.known.objs && b.known.objs[off] == ObjOf(d, b.forceDefaults)
    decreases d, 2
  {
    hide VectorDownward.Data, VectorDownward.Scratch, Knows, PoolOk, Extends;
    match d
    case Text(s) => off := EmitText(b, s, share);
    case Numbers(size, elems) => off := b.CreateVector(elems, size);
    case List(items) => off := EmitList(b, items, share);
    case Record(fields) => off := EmitRecord(b, fields, share);
  }

  method EmitList(b: FlatBufferBuilder, items: seq<Doc>, share: bool) returns (off: nat)
    requires WellFormed(List(items), b.forceDefaults) && Ready(b, Weight(List(items)))
    modifies b, b.buf, b.buf.buf
    ensures Grown(b, Weight(List(items))) && b.forceDefaults == old(b.forceDefaults)
    ensures off in b.known.objs && b.known.objs[off] == ObjOf(List(items), b.forceDefaults)
    decreases items, 1
  {
    hide VectorDownward.Data, VectorDownward.Scratch, Knows, PoolOk, Extends, ListWeight;
    var offs := EmitItems(b, items, share);
    assert Children(b.known.objs, offs) == ObjsOf(items, b.forceDefaults);
    off := b.CreateVectorOfOffsets(offs);
  }

  method EmitItems(b: FlatBufferBuilder, items: seq<Doc>, share: bool) returns (offs: seq<nat>)
    requires (forall i :: 0 <= i < |items| ==> WellFormed(items[i], b.forceDefaults)) && Ready(b, ListWeight(items))
    modifies b, b.buf, b.buf.buf
    ensures Grown(b, ListWeight(items)) && b.forceDefaults == old(b.forceDefaults) && |offs| == |items|
    ensures forall i :: 0 <= i < |items| ==>
      offs[i] in b.known.objs && b.known.objs[offs[i]] == ObjOf(items[i], b.forceDefaults)
    decreases items, 0
  {
    hide VectorDownward.Data, VectorDownward.Scratch, Knows, PoolOk, Extends, Weight, ObjOf, WellFormed;
    offs := [];
    var i := 0;
    while i < |items|
      invariant 0 <= i <= |items| && Grown(b, ListWeight(items[..i])) && b.forceDefaults == old(b.forceDefaults)
      invariant |offs| == i
      invariant forall j :: 0 <= j < i ==>
        offs[j] in b.known.objs && b.known.objs[offs[j]] == ObjOf(items[j], b.forceDefaults)
    {
      ListWeightUpTo(items, i);
      var off := Emit(b, items[i], share);
      offs := offs + [off];
      i := i + 1;
    }
    assert items[..i] == items;
  }

  method EmitChild(b: FlatBufferBuilder, part: Part, share: bool) returns (off: nat)
    requires PartOk(part, b.forceDefaults) && part.Child? && Ready(b, ChildWeight(part))
    modifies b, b.buf, b.buf.buf
    ensures Grown(b, ChildWeight(part)) && b.forceDefaults == old(b.forceDefaults)
    ensures off in b.known.objs && b.known.objs[off] == ObjOf(part.doc, b.forceDefaults)
    decreases part, 3
  {
    off := Emit(b, part.doc, share);
  }

  /** The objects that the fields refer to, before the table is begun; 0 stands for no object. */
  method EmitChildren(b: FlatBufferBuilder, fields: seq<Part>, share: bool) returns (offs: seq<nat>)
    requires (forall i :: 0 <= i < |fields| ==> PartOk(fields[i], b.forceDefaults)) && Ready(b, ChildrenWeight(fields))
    modifies b, b.buf, b.buf.buf
    ensures Grown(b, ChildrenWeight(fields)) && b.forceDefaults == old(b.forceDefaults) && |offs| == |fields|
    ensures forall i :: 0 <= i < |fields| && fields[i].Child? ==>
              offs[i] in b.known.objs && b.known.objs[offs[i]] == ObjOf(fields[i].doc, b.forceDefaults)
    decreases fields, 0
  {
    hide VectorDownward.Data, VectorDownward.Scratch, Knows, PoolOk, Extends, Weight, ObjOf, WellFormed, BodyWeight,
      FieldsOf, Shaped, ChildWeight, PartWeight, PartEnd, BodyEnd, DocReads, FieldOf, ObjsOf;
    offs := [];
    var i := 0;
    while i < |fields|
      invariant 0 <= i <= |fields| && Grown(b, ChildrenWeight(fields[..i])) && b.forceDefaults == old(b.forceDefaults)
      invariant |offs| == i
      invariant forall j :: 0 <= j < i && fields[j].Child? ==>
                  offs[j] in b.known.objs && b.known.objs[offs[j]] == ObjOf(fields[j].doc, b.forceDefaults)
    {
      FieldsUpTo(fields, i, b.forceDefaults);
      var off := 0;
      if fields[i].Child? {
        off := EmitChild(b, fields[i], share);
      }
      offs := offs + [off];
      i := i + 1;
    }
    assert fields[..i] == fields;
  }

  lemma KnownOffset(b: FlatBufferBuilder, off: nat)
    requires b.Valid() && off in b.known.objs
    ensures 4 <= off <= b.GetSize()
  {
    StoredWithin(b.buf.Data(), off, b.known.objs[off]);
  }

  lemma KnownField(b: FlatBufferBuilder)
    requires b.Valid()
    ensures |b.known.locs| == |b.known.flds| && b.maxVOffset < 0xFFFE
  {
  }

  method AddPart(b: FlatBufferBuilder, part: Part, off: nat)
    requires b.Valid() && b.nested && IsField(part.id) && Shaped(part) && b.HasRoom(PartWeight(part) + 32)
    requires part.Child? ==> off in b.known.objs && b.known.objs[off] == ObjOf(part.doc, b.forceDefaults)
    modifies b, b.buf, b.buf.buf
    ensures b.Valid() && b.nested && b.buf.Kept() && b.forceDefaults == old(b.forceDefaults)
    ensures b.GetSize() == PartEnd(part, old(b.GetSize()), b.forceDefaults)
    ensures b.maxVOffset <= Max(old(b.maxVOffset), part.id)
    ensures if Skipped(part, b.forceDefaults) then b.known == old(b.known)
            else b.known == old(b.known).(locs := old(b.known).locs + [FieldLoc(b.GetSize(), part.id)],
                                          flds := old(b.known).flds + [FieldOf(part, b.forceDefaults)])
  {
    hide VectorDownward.Data, VectorDownward.Scratch, Knows, PoolOk, Extends, ObjOf, WellFormed, ToLE, Padded;
    match part
    case Scalar(id, size, e, def) => b.AddElement(id, size, e, def);
    case Struct(id, align, bytes) => b.AddStruct(id, align, bytes);
    case Child(id, doc) =>
      KnownOffset(b, off);
      b.AddOffset(id, off);
  }

  lemma NewField(fields: seq<Part>, i: nat, force: bool, locs: seq<FieldLoc>, flds: seq<Field>, l: FieldLoc, fld: Field)
    requires i < |fields| && (forall j, k :: 0 <= j < k < |fields| ==> fields[j].id != fields[k].id)
    requires |locs| == |flds| && DistinctIds(locs) && FieldMap(locs, flds) == FieldsOf(fields[..i], force)
    requires l.id == fields[i].id
    ensures DistinctIds(locs + [l]) && FieldMap(locs + [l], flds + [fld]) == FieldsOf(fields[..i], force)[l.id := fld]
  {
    FieldMapSnoc(locs, flds, l, fld);
    forall k | 0 <= k < |locs|
      ensures locs[k].id != l.id
    {
      FieldMapKeys(locs, flds, k);
      var j := FieldsOfIds(fields[..i], force, locs[k].id);
    }
  }

  /** The first `i` fields have been added to the table. */
  ghost predicate AddedUpTo(k: Knowledge, k0: Knowledge, fields: seq<Part>, i: nat, force: bool)
    requires i <= |fields|
  {
    && k.objs == k0.objs && k.start == k0.start
    && |k.locs| == |k.flds| && DistinctIds(k.locs) && FieldMap(k.locs, k.flds) == FieldsOf(fields[..i], force)
  }

  lemma AddedNext(k: Knowledge, k0: Knowledge, fields: seq<Part>, i: nat, force: bool, after: Knowledge, at: nat)
    requires i < |fields| && (forall j, l :: 0 <= j < l < |fields| ==> fields[j].id != fields[l].id)
    requires AddedUpTo(k, k0, fields, i, force)
    requires if Skipped(fields[i], force) then after == k
             else after == k.(locs := k.locs + [FieldLoc(at, fields[i].id)],
                              flds := k.flds + [FieldOf(fields[i], force)])
    ensures AddedUpTo(after, k0, fields, i + 1, force)
  {
    hide FieldsOf, FieldMap, FieldOf, Skipped, DistinctIds;
    FieldsUpTo(fields, i, force);
    if !Skipped(fields[i], force) {
      NewField(fields, i, force, k.locs, k.flds, FieldLoc(at, fields[i].id), FieldOf(fields[i], force));
    }
  }

  /** How far the first `i` fields reach, and how much room the next one needs at most. */
  lemma BodyNext(fields: seq<Part>, i: nat, at: nat, force: bool)
    requires i < |fields| && forall j :: 0 <= j < |fields| ==> Shaped(fields[j])
    ensures BodyEnd(fields[..i + 1], at, force) == PartEnd(fields[i], BodyEnd(fields[..i], at, force), force)
    ensures BodyEnd(fields[..i], at, force) + PartWeight(fields[i]) <= at + BodyWeight(fields)
  {
    hide PartEnd, PartWeight;
    assert fields[..i + 1][..i] == fields[..i];
    FieldsUpTo(fields, i, force);
  }

  method AddFields(b: FlatBufferBuilder, fields: seq<Part>, offs: seq<nat>)
    requires b.Valid() && b.nested && b.known.locs == [] && b.maxVOffset == 0 && |offs| == |fields|
    requires forall i :: 0 <= i < |fields| ==> IsField(fields[i].id) && Shaped(fields[i])
    requires forall i, j :: 0 <= i < j < |fields| ==> fields[i].id != fields[j].id
    requires b.HasRoom(BodyWeight(fields) + 32)
    requires forall i :: 0 <= i < |fields| && fields[i].Child? ==>
               offs[i] in b.known.objs && b.known.objs[offs[i]] == ObjOf(fields[i].doc, b.forceDefaults)
    modifies b, b.buf, b.buf.buf
    ensures b.Valid() && b.nested && b.buf.Kept() && b.forceDefaults == old(b.forceDefaults)
    ensures b.GetSize() == BodyEnd(fields, old(b.GetSize()), b.forceDefaults) && b.maxVOffset <= LastId(fields)
    ensures AddedUpTo(b.known, old(b.known), fields, |fields|, b.forceDefaults)
  {
    hide VectorDownward.Data, VectorDownward.Scratch, Knows, PoolOk, ObjOf, FieldOf, FieldMap, Shaped, PartWeight,
      FieldsOf, BodyWeight, WellFormed, DistinctIds, Skipped, AddedUpTo, LastId, BodyEnd, PartEnd;
    ghost var force, k0, at := b.forceDefaults, b.known, b.GetSize();
    KnownField(b);
    NoFields(k0, fields, at, force);
    var i := 0;
    while i < |fields|
      invariant 0 <= i <= |fields|
      invariant b.Valid() && b.nested && b.buf.Kept() && b.maxVOffset <= LastId(fields)
      invariant b.GetSize() == BodyEnd(fields[..i], at, force)
      invariant b.known.objs == k0.objs && b.forceDefaults == force && AddedUpTo(b.known, k0, fields, i, force)
    {
      BodyNext(fields, i, at, force);
      ghost var k := b.known;
      AddPart(b, fields[i], offs[i]);
      AddedNext(k, k0, fields, i, force, b.known, b.GetSize());
      i := i + 1;
    }
    assert fields[..i] == fields;
  }

  lemma NoFields(k: Knowledge, fields: seq<Part>, at: nat, force: bool)
    requires k.locs == [] && k.flds == []
    ensures AddedUpTo(k, k, fields, 0, force) && BodyEnd(fields[..0], at, force) == at
  {
  }

  lemma AddedAll(k: Knowledge, k0: Knowledge, fields: seq<Part>, force: bool)
    requires AddedUpTo(k, k0, fields, |fields|, force)
    ensures k.objs == k0.objs && k.start == k0.start && |k.locs| == |k.flds| && DistinctIds(k.locs)
    ensures Table(FieldMap(k.locs, k.flds)) == ObjOf(Record(fields), force)
  {
    hide FieldsOf, FieldMap, DistinctIds;
    assert fields[..|fields|] == fields;
  }

  /** The table itself, with everything that it refers to made before. */
  method EmitTable(b: FlatBufferBuilder, fields: seq<Part>, offs: seq<nat>) returns (off: nat)
    requires Ready(b, BodyWeight(fields) + LastId(fields) + 16) && |offs| == |fields| && Fits(fields, b.forceDefaults)
    requires forall i :: 0 <= i < |fields| ==> IsField(fields[i].id) && Shaped(fields[i])
    requires forall i, j :: 0 <= i < j < |fields| ==> fields[i].id != fields[j].id
    requires forall i :: 0 <= i < |fields| && fields[i].Child? ==>
               offs[i] in b.known.objs && b.known.objs[offs[i]] == ObjOf(fields[i].doc, b.forceDefaults)
    modifies b, b.buf, b.buf.buf
    ensures Grown(b, BodyWeight(fields) + LastId(fields) + 16) && b.forceDefaults == old(b.forceDefaults)
    ensures off in b.known.objs && b.known.objs[off] == ObjOf(Record(fields), b.forceDefaults)
  {
    hide VectorDownward.Data, VectorDownward.Scratch, Knows, PoolOk, Extends, BodyWeight, FieldsOf, FieldMap, ObjOf,
      AddedUpTo, PaddingBytes, TableEnds, Shaped, BodyEnd, Padded, LastId;
    var start := b.StartTable();
    ghost var k0 := b.known;
    AddFields(b, fields, offs);
    KnownField(b);
    AddedAll(b.known, k0, fields, b.forceDefaults);
    FitsAnywhere(fields, start, b.forceDefaults);
    PaddedIs(b.GetSize(), 4);
    ghost var b0, k, n := b.buf.Data(), b.known, Max(b.maxVOffset + 2, 4);
    off := b.EndTable(start);
    EndTableKnown(b0, k, b.buf.Data(), b.known, off, n, b.dedupVTables);
  }

  method EmitRecord(b: FlatBufferBuilder, fields: seq<Part>, share: bool) returns (off: nat)
    requires WellFormed(Record(fields), b.forceDefaults) && Ready(b, Weight(Record(fields)))
    modifies b, b.buf, b.buf.buf
    ensures Grown(b, Weight(Record(fields))) && b.forceDefaults == old(b.forceDefaults)
    ensures off in b.known.objs && b.known.objs[off] == ObjOf(Record(fields), b.forceDefaults)
    decreases fields, 1
  {
    hide VectorDownward.Data, VectorDownward.Scratch, Knows, PoolOk, Extends, ChildrenWeight, BodyWeight, ObjOf,
      Shaped, LastId, Fits;
    var offs := EmitChildren(b, fields, share);
    off := EmitTable(b, fields, offs);
  }

  // ---------------------------------------------------------------- the whole round trip

  /** Every matching schema and every sufficient limit: the verifier accepts the buffer. */
  ghost predicate AcceptedBy(buffer: seq<byte>, o: Obj, identifier: Option<seq<byte>>, sizePrefix: bool,
                             schema: Schema, lim: Limits, t: nat)
    requires |buffer| < MAX_BUFFER_SIZE && (identifier.Some? ==> |identifier.value| == FILE_IDENTIFIER_LENGTH)
  {
    SchemaOk(schema) && t < |schema| && Conforms(o, schema, t)
    && DepthWithin(o, schema, t, lim.maxDepth) && Visits(o, schema, t) <= lim.maxTables ==>
      FinishedVerdict(buffer, schema, lim, t, identifier, sizePrefix)
  }

  /**
   * Whatever the options, GetRoot finds the root of the finished buffer, the accessors return the document from there,
   * all of it is aligned from the start, and the verifier accepts it.
   */
  method Serialize(d: Doc, shareStrings: bool, dedup: bool, force: bool, identifier: Option<seq<byte>>,
                   sizePrefix: bool)
    returns (buffer: seq<byte>, ghost root: nat)
    requires WellFormed(d, force) && Weight(d) + 64 < MAX_BUFFER_SIZE
    requires identifier.Some? ==> |identifier.value| == FILE_IDENTIFIER_LENGTH
    ensures |buffer| < MAX_BUFFER_SIZE && root <= |buffer|
    ensures (if sizePrefix then GetSizePrefixedRoot(buffer) else GetRoot(buffer)) == Some(|buffer| - root)
    ensures Stored(buffer, root, ObjOf(d, force)) && StartAligned(buffer, root, ObjOf(d, force))
    ensures DocReads(buffer, |buffer| - root, d)
    ensures identifier.Some? ==> GetBufferIdentifier(buffer, sizePrefix) == identifier
    ensures forall schema, lim, t: nat :: AcceptedBy(buffer, ObjOf(d, force), identifier, sizePrefix, schema, lim, t)
  {
    hide VectorDownward.Data, VectorDownward.Scratch, Knows, PoolOk, Weight, ObjOf, WellFormed, Stored, StartAligned,
      IsFinished, AcceptedBy, DocReads;
    var b := new FlatBufferBuilder(1024, 8);
    b.ForceDefaults(force);
    b.DedupVTables(dedup);
    root := Write(b, d, shareStrings, identifier, sizePrefix);
    buffer := b.buf.Data();
    FinishedRoot(buffer, root, identifier, sizePrefix);
    StoredReads(buffer, root, d, force);
  }

  lemma FinishedRoot(b: seq<byte>, root: nat, identifier: Option<seq<byte>>, sizePrefix: bool)
    requires IsFinished(b, root, identifier, sizePrefix)
    ensures root <= |b| && (if sizePrefix then GetSizePrefixedRoot(b) else GetRoot(b)) == Some(|b| - root)
    ensures identifier.Some? ==> GetBufferIdentifier(b, sizePrefix) == identifier
  {
  }

  method Write(b: FlatBufferBuilder, d: Doc, share: bool, identifier: Option<seq<byte>>, sizePrefix: bool)
    returns (ghost root: nat)
    requires WellFormed(d, b.forceDefaults) && Ready(b, Weight(d))
    requires identifier.Some? ==> |identifier.value| == FILE_IDENTIFIER_LENGTH
    modifies b, b.buf, b.buf.buf
    ensures b.Valid() && b.GetSize() < MAX_BUFFER_SIZE && IsFinished(b.buf.Data(), root, identifier, sizePrefix)
    ensures Stored(b.buf.Data(), root, ObjOf(d, old(b.forceDefaults)))
    ensures StartAligned(b.buf.Data(), root, ObjOf(d, old(b.forceDefaults)))
    ensures forall schema, lim, t: nat ::
              AcceptedBy(b.buf.Data(), ObjOf(d, old(b.forceDefaults)), identifier, sizePrefix, schema, lim, t)
  {
    hide VectorDownward.Data, VectorDownward.Scratch, PoolOk, Extends, IsFinished, Weight, ObjOf, WellFormed, Stored,
      StartAligned, AlignsWithin, Aligned, VTablesKnown, PendingOk, FinishedVerdict, Conforms, DepthWithin, Visits;
    var off := Emit(b, d, share);
    root := off;
    ghost var b0, o := b.buf.Data(), b.known.objs[off];
    b.Finish(off, identifier, sizePrefix);
    ghost var c := b.buf.Data();
    AlignedFromStart(c, off, o, b.minalign);
    AlignedDown(|c|, 4, b.minalign);
    AlignedFour(|c|);
    forall schema, lim, t: nat
      ensures AcceptedBy(c, o, identifier, sizePrefix, schema, lim, t)
    {
      if SchemaOk(schema) && t < |schema| && Conforms(o, schema, t)
         && DepthWithin(o, schema, t, lim.maxDepth) && Visits(o, schema, t) <= lim.maxTables {
        FinishedAccepted(c, b0, off, o, identifier, sizePrefix, schema, lim, t);
      }
    }
  }
}
