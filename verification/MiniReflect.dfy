/** A second reader, driven by type tables: it visits an object and reports every value that it finds. */
module MiniReflect {
  import opened Options
  import opened Bytes
  import opened FlatObject

  datatype SequenceType = TableType | StructType | UnionType | EnumType

  datatype ElementaryType =
    | UType | Bool | Char | UChar | Short | UShort | Int | UInt | Long | ULong | Float | Double | String | Sequence

  /** `sequenceRef` is an index into the `refs` of the type table, or -1. */
  datatype TypeCode = TypeCode(baseType: ElementaryType, isVector: bool, sequenceRef: int)

  /** Each entry of `refs` is the number of another type table. */
  datatype TypeTable = TypeTable(st: SequenceType, codes: seq<TypeCode>, refs: seq<nat>, values: Option<seq<int>>)

  type Env = seq<TypeTable>

  /** What a visitor is told; scalars are reported by their bits. */
  datatype Event =
    | StartSequence
    | EndSequence
    | FieldSeen(index: nat, setIndex: nat, ty: ElementaryType, isVector: bool, ref: Option<nat>, present: bool)
    | StartVector
    | EndVector
    | Element(j: nat, ty: ElementaryType, ref: Option<nat>)
    | Scalar(ty: ElementaryType, bits: nat)
    | Text(s: seq<byte>)
    | Unknown

  class Visitor {
    var events: seq<Event>

    constructor ()
      ensures events == []
    {
      events := [];
    }

    method Report(e: Event)
      modifies this
      ensures events == old(events) + [e]
    {
      events := events + [e];
    }
  }

  // ---------------------------------------------------------------- types

  predicate IsScalar(ty: ElementaryType) { !ty.String? && !ty.Sequence? }

  function ScalarSize(ty: ElementaryType): (n: nat)
    requires IsScalar(ty)
    ensures IsScalarSize(n)
  {
    match ty
    case UType | Bool | Char | UChar => 1
    case Short | UShort => 2
    case Int | UInt | Float => 4
    case _ => 8
  }

  lemma ScalarSizes()
    ensures ScalarSize(UType) == ScalarSize(Bool) == ScalarSize(Char) == ScalarSize(UChar) == 1
    ensures ScalarSize(Short) == ScalarSize(UShort) == 2
    ensures ScalarSize(Int) == ScalarSize(UInt) == ScalarSize(Float) == 4
    ensures ScalarSize(Long) == ScalarSize(ULong) == ScalarSize(Double) == 8
  {
  }

  ghost predicate EnvOk(env: Env) {
    forall t :: 0 <= t < |env| ==> TableOk(env, env[t])
  }

  ghost predicate TableOk(env: Env, tt: TypeTable) {
    && |tt.codes| < 0x7FF0
    && (forall i :: 0 <= i < |tt.codes| ==> tt.codes[i].sequenceRef < |tt.refs|)
    && (forall i :: 0 <= i < |tt.refs| ==> tt.refs[i] < |env|)
    && (tt.st == StructType ==> tt.values.Some? && |tt.values.value| == |tt.codes| + 1)
  }

  /** The type table that a code refers to. */
  function RefOf(tt: TypeTable, c: TypeCode): Option<nat>
    requires c.sequenceRef < |tt.refs|
  {
    if c.sequenceRef >= 0 then Some(tt.refs[c.sequenceRef]) else None
  }

  /** The bytes an element takes in a vector or a struct; types without a size are not asked for. */
  function InlineSize(env: Env, ty: ElementaryType, ref: Option<nat>): int
    requires ref.Some? ==> ref.value < |env| && (env[ref.value].st == StructType ==>
               env[ref.value].values.Some? && |env[ref.value].values.value| == |env[ref.value].codes| + 1)
  {
    if IsScalar(ty) then ScalarSize(ty)
    else if ty == String then 4
    else if ref.None? then 1
    else
      match env[ref.value].st
      case TableType | UnionType => 4
      case StructType => env[ref.value].values.value[|env[ref.value].codes|]
      case EnumType => 1
  }

  /** The first index of an enum's value: the value itself if the values are consecutive, -1 if it is unknown. */
  function LookupEnum(enumVal: int, values: Option<seq<int>>, n: nat): (i: int)
    requires values.Some? ==> n <= |values.value|
    ensures values.Some? ==> if i == -1 then forall k :: 0 <= k < n ==> values.value[k] != enumVal
                             else 0 <= i < n && values.value[i] == enumVal
                                  && forall k :: 0 <= k < i ==> values.value[k] != enumVal
    ensures values.None? ==> i == enumVal
  {
    if values.None? then enumVal else LookupFrom(enumVal, values.value, 0, n)
  }

  function LookupFrom(enumVal: int, values: seq<int>, i: nat, n: nat): (r: int)
    requires i <= n <= |values|
    ensures if r == -1 then forall k :: i <= k < n ==> values[k] != enumVal
            else i <= r < n && values[r] == enumVal && forall k :: i <= k < r ==> values[k] != enumVal
    decreases n - i
  {
    if i == n then -1 else if enumVal == values[i] then i else LookupFrom(enumVal, values, i + 1, n)
  }

  // ---------------------------------------------------------------- objects that match their type table

  function Place(i: nat): nat { 4 + 2 * i }

  ghost predicate StructFits(env: Env, s: nat, fuel: nat)
    requires EnvOk(env) && s < |env|
    decreases fuel
  {
    var tt := env[s];
    && fuel > 0 && tt.st == StructType && 0 <= tt.values.value[|tt.codes|]
    && forall i :: 0 <= i < |tt.codes| ==> StructFieldFits(env, s, i, fuel)
  }

  ghost predicate StructFieldFits(env: Env, s: nat, i: nat, fuel: nat)
    requires EnvOk(env) && s < |env| && fuel > 0 && env[s].st == StructType && i < |env[s].codes|
    decreases fuel, 0
  {
    var tt, c := env[s], env[s].codes[i];
    var ref := RefOf(tt, c);
    && !c.isVector && 0 <= tt.values.value[i]
    && (IsScalar(c.baseType) || (c.baseType == Sequence && ref.Some? && StructFits(env, ref.value, fuel - 1)))
    && tt.values.value[i] + InlineSize(env, c.baseType, ref) <= tt.values.value[|tt.codes|]
  }

  lemma StructPart(env: Env, s: nat, i: nat, fuel: nat)
    requires EnvOk(env) && s < |env| && StructFits(env, s, fuel) && i < |env[s].codes|
    ensures fuel > 0 && env[s].st == StructType && StructFieldFits(env, s, i, fuel)
    ensures var c := env[s].codes[i];
            var ref := RefOf(env[s], c);
            && 0 <= env[s].values.value[i] && 0 <= InlineSize(env, c.baseType, ref)
            && env[s].values.value[i] + InlineSize(env, c.baseType, ref) <= InlineSize(env, Sequence, Some(s))
            && (!IsScalar(c.baseType) ==> c.baseType == Sequence && ref.Some? && StructFits(env, ref.value, fuel - 1))
  {
    assert StructFieldFits(env, s, i, fuel);
    var c := env[s].codes[i];
    if !IsScalar(c.baseType) {
      assert StructFits(env, RefOf(env[s], c).value, fuel - 1);
    }
  }

  ghost predicate ObjFits(env: Env, t: nat, o: Obj)
    requires EnvOk(env) && t < |env|
    decreases o, 5
  {
    o.Table? && env[t].st == TableType && forall i :: 0 <= i < |env[t].codes| ==> FieldFits(env, t, o, i)
  }

  ghost predicate FieldFits(env: Env, t: nat, o: Obj, i: nat)
    requires EnvOk(env) && t < |env| && o.Table? && i < |env[t].codes|
    decreases o, 4
  {
    Place(i) in o.fields ==>
      var c := env[t].codes[i];
      if c.isVector then
        && o.fields[Place(i)].Ref?
        && VectorFits(env, c.baseType, RefOf(env[t], c), o.fields[Place(i)].child, Before(o.fields, i))
      else ValueFits(env, c.baseType, RefOf(env[t], c), o.fields[Place(i)], TypeBefore(o.fields, i))
  }

  /** The field in front of the i-th one. */
  ghost function Before(fields: map<nat, Field>, i: nat): Option<Field> {
    if i > 0 && Place(i - 1) in fields then Some(fields[Place(i - 1)]) else None
  }

  /** The union type stored in the field in front. */
  ghost function TypeBefore(fields: map<nat, Field>, i: nat): Option<nat> {
    var f := Before(fields, i);
    if f.Some? && f.value.Inline? && |f.value.bytes| == 1 then Some(f.value.bytes[0]) else None
  }

  ghost function TypesBefore(f: Option<Field>): Option<seq<nat>> {
    if f.Some? && f.value.Ref? && f.value.child.Scalars? && f.value.child.size == 1 then Some(f.value.child.elems)
    else None
  }

  ghost predicate ValueFits(env: Env, ty: ElementaryType, ref: Option<nat>, fld: Field, utype: Option<nat>)
    requires EnvOk(env) && (ref.Some? ==> ref.value < |env|)
    decreases fld, 3
  {
    if IsScalar(ty) then fld.Inline? && |fld.bytes| == ScalarSize(ty)
    else if ty == Sequence && ref.Some? && env[ref.value].st == StructType then
      fld.Inline? && StructFits(env, ref.value, |env|) && |fld.bytes| == InlineSize(env, ty, ref)
    else fld.Ref? && RefFits(env, ty, ref, fld.child, utype)
  }

  ghost predicate RefFits(env: Env, ty: ElementaryType, ref: Option<nat>, o: Obj, utype: Option<nat>)
    requires EnvOk(env) && (ref.Some? ==> ref.value < |env|)
    decreases o, 7
  {
    if ty == String then o.Str?
    else
      && ty == Sequence && ref.Some?
      && match env[ref.value].st
         case TableType => ObjFits(env, ref.value, o)
         case UnionType => utype.Some? && UnionFits(env, ref.value, o, utype.value)
         case _ => false
  }

  /** The code of the union's member, if the type is known. */
  function Member(tt: TypeTable, utype: nat): Option<TypeCode>
    requires tt.values.Some? ==> |tt.codes| <= |tt.values.value|
  {
    var i := LookupEnum(utype, tt.values, |tt.codes|);
    if 0 <= i < |tt.codes| then Some(tt.codes[i]) else None
  }

  ghost predicate UnionFits(env: Env, u: nat, o: Obj, utype: nat)
    requires EnvOk(env) && u < |env|
    decreases o, 6
  {
    && (o.Table? || o.Str?)
    && (env[u].values.Some? ==> |env[u].codes| <= |env[u].values.value|)
    && var m := Member(env[u], utype);
       m.Some? ==>
         match m.value.baseType
         case Sequence => RefOf(env[u], m.value).Some? && ObjFits(env, RefOf(env[u], m.value).value, o)
         case String => o.Str?
         case _ => true
  }

  ghost predicate VectorFits(env: Env, ty: ElementaryType, ref: Option<nat>, o: Obj, before: Option<Field>)
    requires EnvOk(env) && (ref.Some? ==> ref.value < |env|)
    decreases o, 8
  {
    if IsScalar(ty) then o.Scalars? && o.size == ScalarSize(ty)
    else
      && o.Offsets? && |o.children| < 0x1_0000_0000
      && (IsUnion(env, ty, ref) ==> TypesBefore(before).Some? && |TypesBefore(before).value| == |o.children|)
      && forall j :: 0 <= j < |o.children| ==> RefFits(env, ty, ref, o.children[j], ElemType(env, ty, ref, before, j))
  }

  predicate IsUnion(env: Env, ty: ElementaryType, ref: Option<nat>)
    requires ref.Some? ==> ref.value < |env|
  {
    ty == Sequence && ref.Some? && env[ref.value].st == UnionType
  }

  ghost function ElemType(env: Env, ty: ElementaryType, ref: Option<nat>, before: Option<Field>, j: nat): Option<nat>
    requires ref.Some? ==> ref.value < |env|
  {
    var types := TypesBefore(before);
    if IsUnion(env, ty, ref) && types.Some? && j < |types.value| then Some(types.value[j]) else None
  }

  // ---------------------------------------------------------------- what a visitor should be told

  ghost function StructEvents(env: Env, s: nat, bytes: seq<byte>, fuel: nat): seq<Event>
    requires EnvOk(env) && s < |env| && StructFits(env, s, fuel) && |bytes| == InlineSize(env, Sequence, Some(s))
    decreases fuel, 1, 0
  {
    [StartSequence] + StructUpTo(env, s, bytes, |env[s].codes|, fuel) + [EndSequence]
  }

  ghost function StructUpTo(env: Env, s: nat, bytes: seq<byte>, i: nat, fuel: nat): seq<Event>
    requires EnvOk(env) && s < |env| && StructFits(env, s, fuel) && |bytes| == InlineSize(env, Sequence, Some(s))
    requires i <= |env[s].codes|
    decreases fuel, 0, i
  {
    if i == 0 then []
    else
      var c := env[s].codes[i - 1];
      StructPart(env, s, i - 1, fuel);
      StructUpTo(env, s, bytes, i - 1, fuel)
      + ([FieldSeen(i - 1, i - 1, c.baseType, false, RefOf(env[s], c), true)]
         + StructFieldEvents(env, s, bytes, i - 1, fuel))
  }

  ghost function StructFieldEvents(env: Env, s: nat, bytes: seq<byte>, i: nat, fuel: nat): seq<Event>
    requires EnvOk(env) && s < |env| && StructFits(env, s, fuel) && |bytes| == InlineSize(env, Sequence, Some(s))
    requires i < |env[s].codes|
    decreases fuel, 0, 0
  {
    var tt, c := env[s], env[s].codes[i];
    var ref := RefOf(tt, c);
    StructPart(env, s, i, fuel);
    var at := tt.values.value[i];
    if IsScalar(c.baseType) then [Scalar(c.baseType, LE(bytes, at, ScalarSize(c.baseType)))]
    else StructEvents(env, ref.value, bytes[at..at + InlineSize(env, Sequence, ref)], fuel - 1)
  }

  ghost function ObjEvents(env: Env, t: nat, o: Obj): seq<Event>
    requires EnvOk(env) && t < |env| && ObjFits(env, t, o)
    decreases o, 5, 0
  {
    [StartSequence] + FieldsUpTo(env, t, o, |env[t].codes|) + [EndSequence]
  }

  /** How many of the first `i` fields are present. */
  ghost function PresentUpTo(fields: map<nat, Field>, i: nat): nat {
    if i == 0 then 0 else PresentUpTo(fields, i - 1) + if Place(i - 1) in fields then 1 else 0
  }

  /** Fields in the order of the schema, each with the number of fields present before it. */
  ghost function FieldsUpTo(env: Env, t: nat, o: Obj, i: nat): seq<Event>
    requires EnvOk(env) && t < |env| && ObjFits(env, t, o) && i <= |env[t].codes|
    decreases o, 4, i
  {
    if i == 0 then []
    else
      var c := env[t].codes[i - 1];
      FieldsUpTo(env, t, o, i - 1)
      + ([FieldSeen(i - 1, PresentUpTo(o.fields, i - 1), c.baseType, c.isVector, RefOf(env[t], c),
                    Place(i - 1) in o.fields)]
         + FieldEvents(env, t, o, i - 1))
  }

  ghost function FieldEvents(env: Env, t: nat, o: Obj, i: nat): seq<Event>
    requires EnvOk(env) && t < |env| && ObjFits(env, t, o) && i < |env[t].codes|
    decreases o, 4, 0
  {
    var c := env[t].codes[i];
    assert FieldFits(env, t, o, i);
    if Place(i) !in o.fields then []
    else if c.isVector then
      VectorEvents(env, c.baseType, RefOf(env[t], c), o.fields[Place(i)].child, Before(o.fields, i))
    else ValueEvents(env, c.baseType, RefOf(env[t], c), o.fields[Place(i)], TypeBefore(o.fields, i))
  }

  ghost function ValueEvents(env: Env, ty: ElementaryType, ref: Option<nat>, fld: Field, utype: Option<nat>): seq<Event>
    requires EnvOk(env) && (ref.Some? ==> ref.value < |env|) && ValueFits(env, ty, ref, fld, utype)
    decreases fld, 3, 0
  {
    if IsScalar(ty) then [Scalar(ty, FromLE(fld.bytes))]
    else if ty == Sequence && ref.Some? && env[ref.value].st == StructType then
      StructEvents(env, ref.value, fld.bytes, |env|)
    else RefEvents(env, ty, ref, fld.child, utype)
  }

  ghost function RefEvents(env: Env, ty: ElementaryType, ref: Option<nat>, o: Obj, utype: Option<nat>): seq<Event>
    requires EnvOk(env) && (ref.Some? ==> ref.value < |env|) && RefFits(env, ty, ref, o, utype)
    decreases o, 7, 0
  {
    if ty == String then [Text(o.s)]
    else if env[ref.value].st == TableType then ObjEvents(env, ref.value, o)
    else UnionEvents(env, ref.value, o, utype.value)
  }

  /** A union is reported as its member; a member of an unknown type as unknown. */
  ghost function UnionEvents(env: Env, u: nat, o: Obj, utype: nat): seq<Event>
    requires EnvOk(env) && u < |env| && UnionFits(env, u, o, utype)
    decreases o, 6, 0
  {
    var m := Member(env[u], utype);
    if m.None? then [Unknown]
    else
      match m.value.baseType
      case Sequence => ObjEvents(env, RefOf(env[u], m.value).value, o)
      case String => [Text(o.s)]
      case _ => [Unknown]
  }

  ghost function VectorEvents(env: Env, ty: ElementaryType, ref: Option<nat>, o: Obj, before: Option<Field>): seq<Event>
    requires EnvOk(env) && (ref.Some? ==> ref.value < |env|) && VectorFits(env, ty, ref, o, before)
    decreases o, 9, 0
  {
    [StartVector] + ElemsUpTo(env, ty, ref, o, before, VectorLength(o)) + [EndVector]
  }

  ghost function VectorLength(o: Obj): nat {
    if o.Scalars? then |o.elems| else if o.Offsets? then |o.children| else 0
  }

  ghost function ElemsUpTo(env: Env, ty: ElementaryType, ref: Option<nat>, o: Obj, before: Option<Field>, j: nat)
    : seq<Event>
    requires EnvOk(env) && (ref.Some? ==> ref.value < |env|) && VectorFits(env, ty, ref, o, before)
    requires j <= VectorLength(o)
    decreases o, 8, j
  {
    if j == 0 then []
    else
      ElemsUpTo(env, ty, ref, o, before, j - 1)
      + ([Element(j - 1, ty, ref)]
         + if IsScalar(ty) then [Scalar(ty, o.elems[j - 1])]
           else RefEvents(env, ty, ref, o.children[j - 1], ElemType(env, ty, ref, before, j - 1)))
  }
}
