/** The traversal itself: it reads addresses in a buffer, knows the type tables, and reports to a visitor. */
module MiniTraversal {
  import opened Options
  import opened Bytes
  import opened FlatReader
  import opened FlatObject
  import opened FlatAccess
  import opened MiniReflect

  method FindEnum(enumVal: int, values: Option<seq<int>>, n: nat) returns (r: int)
    requires values.Some? ==> n <= |values.value|
    ensures r == LookupEnum(enumVal, values, n)
  {
    if values.None? {
      return enumVal;
    }
    for i := 0 to n
      invariant LookupFrom(enumVal, values.value, 0, n) == LookupFrom(enumVal, values.value, i, n)
    {
      if enumVal == values.value[i] {
        return i;
      }
    }
    return -1;
  }

  // ---------------------------------------------------------------- structs

  /** One more announcement and what it announces, after what was reported. */
  lemma Reported(before: seq<Event>, start: Event, front: seq<Event>, e: Event, y: seq<Event>)
    ensures before + ([start] + front) + [e] + y == before + ([start] + (front + ([e] + y)))
  {
  }

  /** A struct has all its fields, at the places that its type table gives. */
  method IterateStruct(env: Env, b: seq<byte>, obj: int, s: nat, v: Visitor, ghost bytes: seq<byte>, ghost fuel: nat)
    requires EnvOk(env) && s < |env| && StructFits(env, s, fuel)
    requires |bytes| == InlineSize(env, Sequence, Some(s)) && HasBytes(b, obj, bytes)
    modifies v
    ensures v.events == old(v.events) + StructEvents(env, s, bytes, fuel)
    decreases fuel
  {
    hide StructFieldFits, StructFits, FromLE;
    v.Report(StartSequence);
    var tt := env[s];
    var i := 0;
    while i < |tt.codes|
      invariant i <= |tt.codes|
      invariant v.events == old(v.events) + ([StartSequence] + StructUpTo(env, s, bytes, i, fuel))
    {
      var c := tt.codes[i];
      var ref := RefOf(tt, c);
      StructPart(env, s, i, fuel);
      var at := tt.values.value[i];
      var val := obj + at;
      v.Report(FieldSeen(i, i, c.baseType, c.isVector, ref, true));
      if IsScalar(c.baseType) {
        LEPart(b, obj, bytes, at, ScalarSize(c.baseType));
        v.Report(Scalar(c.baseType, ReadUInt(b, val, ScalarSize(c.baseType)).Extract()));
      } else {
        ghost var part := bytes[at..at + InlineSize(env, Sequence, ref)];
        HasBytesPart(b, obj, bytes, at, |part|);
        HasBytesSlice(b, val, part);
        IterateStruct(env, b, val, ref.value, v, part, fuel - 1);
      }
      Reported(old(v.events), StartSequence, StructUpTo(env, s, bytes, i, fuel),
               FieldSeen(i, i, c.baseType, c.isVector, ref, true), StructFieldEvents(env, s, bytes, i, fuel));
      i := i + 1;
    }
    v.Report(EndSequence);
  }

  // ---------------------------------------------------------------- values

  /** The union type that goes with a value: the byte in front of it, or an element of the vector in front. */
  function UnionType(b: seq<byte>, prev: Option<int>, vectorIndex: int): Option<nat> {
    var p :- prev;
    if vectorIndex >= 0 then VectorGet(b, p, vectorIndex, 1) else ReadUInt(b, p, 1)
  }

  method IterateValue(env: Env, ty: ElementaryType, b: seq<byte>, val: int, ref: Option<nat>, prev: Option<int>,
                      vectorIndex: int, v: Visitor, ghost fld: Field, ghost utype: Option<nat>, ghost parent: Obj)
    requires EnvOk(env) && (ref.Some? ==> ref.value < |env|)
    requires FieldStored(b, |b| - val, fld) && ValueFits(env, ty, ref, fld, utype)
    requires IsUnion(env, ty, ref) ==> UnionType(b, prev, vectorIndex) == utype
    requires fld.Ref? ==> fld.child < parent
    modifies v
    ensures v.events == old(v.events) + ValueEvents(env, ty, ref, fld, utype)
    decreases parent, 3
  {
    if IsScalar(ty) {
      v.Report(Scalar(ty, ReadUInt(b, val, ScalarSize(ty)).Extract()));
    } else if ty == Sequence && env[ref.value].st == StructType {
      HasBytesSlice(b, val, fld.bytes);
      IterateStruct(env, b, val, ref.value, v, fld.bytes, |env|);
    } else {
      var at := val + ReadUInt(b, val, 4).Extract();
      if ty == String {
        StringReadsBack(b, |b| - at, fld.child.s);
        v.Report(Text(StringBytes(b, at).Extract()));
      } else if env[ref.value].st == TableType {
        IterateObject(env, b, at, ref.value, v, fld.child);
      } else {
        var u := UnionType(b, prev, vectorIndex).Extract();
        IterateUnion(env, b, at, ref.value, u, v, fld.child);
      }
    }
  }

  method IterateUnion(env: Env, b: seq<byte>, at: int, u: nat, unionType: nat, v: Visitor, ghost o: Obj)
    requires EnvOk(env) && u < |env| && UnionFits(env, u, o, unionType) && Stored(b, |b| - at, o)
    modifies v
    ensures v.events == old(v.events) + UnionEvents(env, u, o, unionType)
    decreases o, 6
  {
    var tt := env[u];
    var i := FindEnum(unionType, tt.values, |tt.codes|);
    if 0 <= i < |tt.codes| {
      var c := tt.codes[i];
      match c.baseType
      case Sequence => IterateObject(env, b, at, tt.refs[c.sequenceRef], v, o);
      case String => v.Report(Text(StringBytes(b, at).Extract()));
      case _ => v.Report(Unknown);
    } else {
      v.Report(Unknown);
    }
  }

  // ---------------------------------------------------------------- vectors

  /** The field that the j-th element amounts to. */
  ghost function ElementField(o: Obj, j: nat): Field
    requires j < VectorLength(o)
  {
    if o.Scalars? then Inline(1, ToLE(o.elems[j], o.size)) else Ref(o.children[j])
  }

  ghost function ElementSize(o: Obj): nat {
    if o.Scalars? then o.size else 4
  }

  lemma {:induction false} VectorShape(env: Env, b: seq<byte>, off: int, ty: ElementaryType, ref: Option<nat>, o: Obj,
                                       before: Option<Field>)
    requires EnvOk(env) && (ref.Some? ==> ref.value < |env|) && VectorFits(env, ty, ref, o, before) && Stored(b, off, o)
    ensures VectorSize(b, |b| - off) == Some(VectorLength(o))
    ensures VectorLength(o) > 0 ==> InlineSize(env, ty, ref) == ElementSize(o)
    ensures IsUnion(env, ty, ref) ==> TypesBefore(before).Some? && |TypesBefore(before).value| == VectorLength(o)
  {
    hide StructFits, ObjFits, UnionFits;
    if o.Offsets? && |o.children| > 0 {
      assert RefFits(env, ty, ref, o.children[0], ElemType(env, ty, ref, before, 0));
    }
  }

  /** Where the j-th element is. */
  lemma {:induction false} ElementStored(b: seq<byte>, off: int, o: Obj, j: nat)
    requires Stored(b, off, o) && j < VectorLength(o)
    ensures FieldStored(b, off - 4 - j * ElementSize(o), ElementField(o, j))
  {
    if o.Scalars? {
      ScalarElement(b, off, o.size, o.elems, j);
    } else {
      assert RefStored(b, off - 4 - 4 * j, o.children[j]);
    }
  }

  lemma ScalarElement(b: seq<byte>, off: int, size: nat, elems: seq<nat>, j: nat)
    requires ScalarsStored(b, off, size, elems) && j < |elems|
    ensures FieldStored(b, off - 4 - j * size, Inline(1, ToLE(elems[j], size)))
  {
    hide ToLE, FromLE, StringStored;
    assert VectorGet(b, |b| - off, j, size) == Some(elems[j]);
    StrideIs(j, size);
    hide Stride;
    var p := VectorData(|b| - off) + Stride(j, size);
    ToFromLE(b[p..p + size]);
  }

  /** What is reported of the j-th element. */
  lemma {:induction false} ElementStep(env: Env, ty: ElementaryType, ref: Option<nat>, o: Obj, before: Option<Field>,
                                       j: nat, b: seq<byte>, off: int)
    requires EnvOk(env) && (ref.Some? ==> ref.value < |env|) && VectorFits(env, ty, ref, o, before)
    requires j < VectorLength(o) && Stored(b, off, o)
    ensures ElementField(o, j).Ref? ==> ElementField(o, j).child < o
    ensures ValueFits(env, ty, ref, ElementField(o, j), ElemType(env, ty, ref, before, j))
    ensures ElemsUpTo(env, ty, ref, o, before, j + 1) ==
            ElemsUpTo(env, ty, ref, o, before, j)
            + ([Element(j, ty, ref)] + ValueEvents(env, ty, ref, ElementField(o, j), ElemType(env, ty, ref, before, j)))
  {
    hide StructFits, ObjFits, UnionFits;
    if o.Scalars? {
      assert VectorGet(b, |b| - off, j, o.size) == Some(o.elems[j]);
      FromToLE(o.elems[j], o.size);
    } else {
      assert RefFits(env, ty, ref, o.children[j], ElemType(env, ty, ref, before, j));
    }
  }

  lemma NothingYet(env: Env, ty: ElementaryType, ref: Option<nat>, o: Obj, before: Option<Field>)
    requires EnvOk(env) && (ref.Some? ==> ref.value < |env|) && VectorFits(env, ty, ref, o, before)
    ensures ElemsUpTo(env, ty, ref, o, before, 0) == []
  {
  }

  lemma ElementTyped(env: Env, ty: ElementaryType, b: seq<byte>, ref: Option<nat>, prev: Option<int>,
                     before: Option<Field>, j: nat, n: nat)
    requires (ref.Some? ==> ref.value < |env|) && PrevOk(b, prev, before) && j < n
    requires IsUnion(env, ty, ref) ==> TypesBefore(before).Some? && |TypesBefore(before).value| == n
    ensures IsUnion(env, ty, ref) ==> UnionType(b, prev, j) == ElemType(env, ty, ref, before, j)
  {
  }

  /** The element pointer moves on by the inline size of the type. */
  method IterateVector(env: Env, ty: ElementaryType, b: seq<byte>, vec: int, ref: Option<nat>, prev: Option<int>,
                       v: Visitor, ghost o: Obj, ghost before: Option<Field>)
    requires EnvOk(env) && (ref.Some? ==> ref.value < |env|) && VectorFits(env, ty, ref, o, before)
    requires Stored(b, |b| - vec, o) && PrevOk(b, prev, before)
    modifies v
    ensures v.events == old(v.events) + VectorEvents(env, ty, ref, o, before)
    decreases o, 9
  {
    hide ElementField, RefFits, FieldStored, RefStored, StringStored, ScalarsStored, ValueFits, ValueEvents, StructFits,
      ReadUInt, ElementSize, VectorFits, ElemsUpTo, ElemType, InlineSize;
    v.Report(StartVector);
    VectorShape(env, b, |b| - vec, ty, ref, o, before);
    assert ElemsUpTo(env, ty, ref, o, before, 0) == [] by {
      NothingYet(env, ty, ref, o, before);
    }
    var elemPtr := VectorData(vec);
    var n := VectorSize(b, vec).Extract();
    var j := 0;
    while j < n
      invariant j <= n && elemPtr == VectorData(vec) + j * ElementSize(o)
      invariant v.events == old(v.events) + ([StartVector] + ElemsUpTo(env, ty, ref, o, before, j))
    {
      ElementStored(b, |b| - vec, o, j);
      ElementStep(env, ty, ref, o, before, j, b, |b| - vec);
      ElementTyped(env, ty, b, ref, prev, before, j, n);
      v.Report(Element(j, ty, ref));
      IterateValue(env, ty, b, elemPtr, ref, prev, j, v, ElementField(o, j), ElemType(env, ty, ref, before, j), o);
      elemPtr := elemPtr + InlineSize(env, ty, ref);
      j := j + 1;
    }
    v.Report(EndVector);
  }

  // ---------------------------------------------------------------- tables

  /** What is needed of the address of the field in front, or of the vector it leads to. */
  ghost predicate PrevOk(b: seq<byte>, prev: Option<int>, before: Option<Field>) {
    && (before.Some? && before.value.Inline? && |before.value.bytes| == 1 ==>
          UnionType(b, prev, -1) == Some(before.value.bytes[0]))
    && (TypesBefore(before).Some? ==>
          forall j :: 0 <= j < |TypesBefore(before).value| ==>
            UnionType(b, prev, j) == Some(TypesBefore(before).value[j]))
  }

  /**
   * Visits the fields in the order of the schema, and reports exactly what is stored; `setIndex` counts the fields
   * that were present before.
   */
  method IterateObject(env: Env, b: seq<byte>, obj: int, t: nat, v: Visitor, ghost o: Obj)
    requires EnvOk(env) && t < |env| && ObjFits(env, t, o) && Stored(b, |b| - obj, o)
    modifies v
    ensures v.events == old(v.events) + ObjEvents(env, t, o)
    decreases o, 5
  {
    hide RefFits, FieldStored, RefStored, Stored, ValueFits, ValueEvents, VectorFits, VectorEvents, StructFits,
      ReadUInt,
      PrevOk, FieldsUpTo, FieldEvents, FieldFits, ObjFits, GetAddressOf, PresentUpTo, TypeBefore, Before, RefOf,
      GetOptionalFieldOffset;
    ObjStart(env, b, t, o);
    v.Report(StartSequence);
    var prev: Option<int> := None;
    var setIndex := 0;
    var tt := env[t];
    var i := 0;
    while i < |tt.codes|
      invariant i <= |tt.codes| && setIndex == PresentUpTo(o.fields, i) && PrevOk(b, prev, Before(o.fields, i))
      invariant v.events == old(v.events) + ([StartSequence] + FieldsUpTo(env, t, o, i))
    {
      var c := tt.codes[i];
      var ref := RefOf(tt, c);
      FieldRead(env, b, |b| - obj, t, o, i);
      FieldStep(env, b, t, o, i, prev);
      var val := GetAddressOf(b, obj, FieldIndexToOffset(i)).Extract();
      v.Report(FieldSeen(i, setIndex, c.baseType, c.isVector, ref, val.Some?));
      if val.Some? {
        setIndex := setIndex + 1;
        ghost var fld := o.fields[Place(i)];
        if c.isVector {
          RefLeads(b, |b| - val.value, fld);
          val := Some(val.value + ReadUInt(b, val.value, 4).Extract());
          IterateVector(env, c.baseType, b, val.value, ref, prev, v, fld.child, Before(o.fields, i));
        } else {
          IterateValue(env, c.baseType, b, val.value, ref, prev, -1, v, fld, TypeBefore(o.fields, i), o);
        }
      }
      PrevNext(env, b, t, o, i, val);
      prev := val;
      i := i + 1;
    }
    v.Report(EndSequence);
  }

  method IterateFlatBuffer(env: Env, b: seq<byte>, t: nat, v: Visitor, ghost o: Obj)
    requires EnvOk(env) && t < |env| && ObjFits(env, t, o)
    requires GetRoot(b).Some? && Stored(b, |b| - GetRoot(b).value, o)
    modifies v
    ensures v.events == old(v.events) + ObjEvents(env, t, o)
  {
    IterateObject(env, b, GetRoot(b).Extract(), t, v, o);
  }

  lemma {:induction false} FieldTyped(env: Env, t: nat, o: Obj, i: nat)
    requires EnvOk(env) && t < |env| && ObjFits(env, t, o) && i < |env[t].codes| && Place(i) in o.fields
    ensures
      var c := env[t].codes[i];
      if c.isVector then o.fields[Place(i)].Ref?
      else
        && (o.fields[Place(i)].Ref? ==> !o.fields[Place(i)].child.Scalars?)
        && (IsUnion(env, c.baseType, RefOf(env[t], c)) ==> TypeBefore(o.fields, i).Some?)
  {
    hide StructFits;
    assert FieldFits(env, t, o, i);
    var c, fld := env[t].codes[i], o.fields[Place(i)];
    if !c.isVector && fld.Ref? {
      assert RefFits(env, c.baseType, RefOf(env[t], c), fld.child, TypeBefore(o.fields, i));
    }
  }

  lemma ObjStart(env: Env, b: seq<byte>, t: nat, o: Obj)
    requires EnvOk(env) && t < |env| && ObjFits(env, t, o)
    ensures o.Table? && env[t].st == TableType
    ensures FieldsUpTo(env, t, o, 0) == [] && PresentUpTo(o.fields, 0) == 0 && PrevOk(b, None, Before(o.fields, 0))
    ensures ObjEvents(env, t, o) == [StartSequence] + FieldsUpTo(env, t, o, |env[t].codes|) + [EndSequence]
  {
  }

  /** What is reported of the i-th field. */
  lemma {:induction false} FieldStep(env: Env, b: seq<byte>, t: nat, o: Obj, i: nat, prev: Option<int>)
    requires EnvOk(env) && t < |env| && ObjFits(env, t, o) && i < |env[t].codes|
    requires PrevOk(b, prev, Before(o.fields, i))
    ensures RefOf(env[t], env[t].codes[i]).Some? ==> RefOf(env[t], env[t].codes[i]).value < |env|
    ensures PresentUpTo(o.fields, i + 1) == PresentUpTo(o.fields, i) + if Place(i) in o.fields then 1 else 0
    ensures
      var c := env[t].codes[i];
      var ref := RefOf(env[t], c);
      FieldsUpTo(env, t, o, i + 1) ==
      FieldsUpTo(env, t, o, i)
      + ([FieldSeen(i, PresentUpTo(o.fields, i), c.baseType, c.isVector, ref, Place(i) in o.fields)]
         + FieldEvents(env, t, o, i))
    ensures Place(i) !in o.fields ==> FieldEvents(env, t, o, i) == []
    ensures
      var c := env[t].codes[i];
      var ref := RefOf(env[t], c);
      Place(i) in o.fields ==>
        var fld := o.fields[Place(i)];
        && (fld.Ref? ==> fld.child < o)
        && if c.isVector then
             && fld.Ref? && VectorFits(env, c.baseType, ref, fld.child, Before(o.fields, i))
             && FieldEvents(env, t, o, i) == VectorEvents(env, c.baseType, ref, fld.child, Before(o.fields, i))
           else
             && ValueFits(env, c.baseType, ref, fld, TypeBefore(o.fields, i))
             && FieldEvents(env, t, o, i) == ValueEvents(env, c.baseType, ref, fld, TypeBefore(o.fields, i))
             && (IsUnion(env, c.baseType, ref) ==> UnionType(b, prev, -1) == TypeBefore(o.fields, i))
  {
    hide ValueFits, ValueEvents, VectorFits, VectorEvents, StructFits;
    assert FieldFits(env, t, o, i);
    if Place(i) in o.fields {
      FieldTyped(env, t, o, i);
    }
  }

  lemma RefLeads(b: seq<byte>, off: int, fld: Field)
    requires fld.Ref? && FieldStored(b, off, fld)
    ensures ReadUInt(b, |b| - off, 4).Some? && Stored(b, off - ReadUInt(b, |b| - off, 4).value, fld.child)
  {
  }

  /** The address kept from one field serves the next. */
  lemma {:induction false} PrevNext(env: Env, b: seq<byte>, t: nat, o: Obj, i: nat, val: Option<int>)
    requires EnvOk(env) && t < |env| && ObjFits(env, t, o) && i < |env[t].codes|
    requires Place(i) in o.fields && env[t].codes[i].isVector ==>
               val.Some? && o.fields[Place(i)].Ref? && Stored(b, |b| - val.value, o.fields[Place(i)].child)
    requires Place(i) in o.fields && !env[t].codes[i].isVector ==>
               val.Some? && FieldStored(b, |b| - val.value, o.fields[Place(i)])
    ensures PrevOk(b, val, Before(o.fields, i + 1))
  {
    hide RefFits, StructFits;
    if Place(i) in o.fields {
      FieldTyped(env, t, o, i);
    }
  }

  lemma {:induction false} FieldRead(env: Env, b: seq<byte>, off: int, t: nat, o: Obj, i: nat)
    requires EnvOk(env) && t < |env| && ObjFits(env, t, o) && i < |env[t].codes| && Stored(b, off, o)
    ensures FieldIndexToOffset(i) == Place(i) && FieldFits(env, t, o, i)
    ensures GetAddressOf(b, |b| - off, Place(i)) ==
            Some(if Place(i) in o.fields then Some(|b| - off + FieldAt(b, off, Place(i))) else None)
    ensures Place(i) in o.fields ==> FieldStored(b, off - FieldAt(b, off, Place(i)), o.fields[Place(i)])
  {
    hide GetOptionalFieldOffset, FieldStored, VTableStored;
    TableOffset(b, off, o.fields, Place(i));
  }
}
