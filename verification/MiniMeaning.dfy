/** What a visitor is told determines what the object holds. */
module MiniMeaning {
  import opened Options
  import opened Bytes
  import opened FlatObject
  import opened MiniReflect
  import opened MiniEvents

  // ---------------------------------------------------------------- objects that agree on what their type lists

  ghost predicate SameStruct(env: Env, s: nat, bytes: seq<byte>, other: seq<byte>, fuel: nat)
    requires EnvOk(env) && s < |env| && StructFits(env, s, fuel)
    requires |bytes| == |other| == InlineSize(env, Sequence, Some(s))
    decreases fuel, 1
  {
    forall i :: 0 <= i < |env[s].codes| ==> SameStructField(env, s, bytes, other, i, fuel)
  }

  ghost predicate SameStructField(env: Env, s: nat, bytes: seq<byte>, other: seq<byte>, i: nat, fuel: nat)
    requires EnvOk(env) && s < |env| && StructFits(env, s, fuel) && i < |env[s].codes|
    requires |bytes| == |other| == InlineSize(env, Sequence, Some(s))
    decreases fuel, 0
  {
    var tt, c := env[s], env[s].codes[i];
    var ref := RefOf(tt, c);
    StructPart(env, s, i, fuel);
    var at := tt.values.value[i];
    if IsScalar(c.baseType) then
      bytes[at..at + ScalarSize(c.baseType)] == other[at..at + ScalarSize(c.baseType)]
    else
      var n := InlineSize(env, Sequence, ref);
      SameStruct(env, ref.value, bytes[at..at + n], other[at..at + n], fuel - 1)
  }

  /** The same fields are present, and they hold the same. */
  ghost predicate SameObj(env: Env, t: nat, o: Obj, p: Obj)
    requires EnvOk(env) && t < |env| && ObjFits(env, t, o) && ObjFits(env, t, p)
    decreases o, 5
  {
    forall i :: 0 <= i < |env[t].codes| ==> SameField(env, t, o, p, i)
  }

  ghost predicate SameField(env: Env, t: nat, o: Obj, p: Obj, i: nat)
    requires EnvOk(env) && t < |env| && ObjFits(env, t, o) && ObjFits(env, t, p) && i < |env[t].codes|
    decreases o, 4
  {
    FieldOf(env, t, o, i);
    FieldOf(env, t, p, i);
    && (Place(i) in o.fields <==> Place(i) in p.fields)
    && (Place(i) in o.fields ==>
          var c, f, g := env[t].codes[i], o.fields[Place(i)], p.fields[Place(i)];
          if c.isVector then
            SameVector(env, c.baseType, RefOf(env[t], c), f.child, g.child, Before(o.fields, i), Before(p.fields, i))
          else
            SameValue(env, c.baseType, RefOf(env[t], c), f, g, TypeBefore(o.fields, i), TypeBefore(p.fields, i)))
  }

  ghost predicate SameValue(env: Env, ty: ElementaryType, ref: Option<nat>, f: Field, g: Field, utype: Option<nat>,
                            other: Option<nat>)
    requires EnvOk(env) && (ref.Some? ==> ref.value < |env|)
    requires ValueFits(env, ty, ref, f, utype) && ValueFits(env, ty, ref, g, other)
    decreases f, 3
  {
    if IsScalar(ty) then f.bytes == g.bytes
    else if ty == Sequence && ref.Some? && env[ref.value].st == StructType then
      SameStruct(env, ref.value, f.bytes, g.bytes, |env|)
    else SameRef(env, ty, ref, f.child, g.child, utype, other)
  }

  ghost predicate SameRef(env: Env, ty: ElementaryType, ref: Option<nat>, o: Obj, p: Obj, utype: Option<nat>,
                          other: Option<nat>)
    requires EnvOk(env) && (ref.Some? ==> ref.value < |env|)
    requires RefFits(env, ty, ref, o, utype) && RefFits(env, ty, ref, p, other)
    decreases o, 7
  {
    if ty == String then o.s == p.s
    else if env[ref.value].st == TableType then SameObj(env, ref.value, o, p)
    else utype == other ==> SameUnion(env, ref.value, o, p, utype.value)
  }

  /** Members of one type; nothing is said of a type that the table does not list. */
  ghost predicate SameUnion(env: Env, u: nat, o: Obj, p: Obj, utype: nat)
    requires EnvOk(env) && u < |env| && UnionFits(env, u, o, utype) && UnionFits(env, u, p, utype)
    decreases o, 6
  {
    var m := Member(env[u], utype);
    m.Some? ==>
      match m.value.baseType
      case Sequence => SameObj(env, RefOf(env[u], m.value).value, o, p)
      case String => o.s == p.s
      case _ => true
  }

  ghost predicate SameVector(env: Env, ty: ElementaryType, ref: Option<nat>, o: Obj, p: Obj, before: Option<Field>,
                             other: Option<Field>)
    requires EnvOk(env) && (ref.Some? ==> ref.value < |env|)
    requires VectorFits(env, ty, ref, o, before) && VectorFits(env, ty, ref, p, other)
    decreases o, 9
  {
    && VectorLength(o) == VectorLength(p)
    && forall j :: 0 <= j < VectorLength(o) ==> SameElem(env, ty, ref, o, p, before, other, j)
  }

  ghost predicate SameElem(env: Env, ty: ElementaryType, ref: Option<nat>, o: Obj, p: Obj, before: Option<Field>,
                           other: Option<Field>, j: nat)
    requires EnvOk(env) && (ref.Some? ==> ref.value < |env|)
    requires VectorFits(env, ty, ref, o, before) && VectorFits(env, ty, ref, p, other)
    requires j < VectorLength(o) && j < VectorLength(p)
    decreases o, 8
  {
    if IsScalar(ty) then o.elems[j] == p.elems[j]
    else
      SameRef(env, ty, ref, o.children[j], p.children[j], ElemType(env, ty, ref, before, j),
              ElemType(env, ty, ref, other, j))
  }

  // ---------------------------------------------------------------- the same events

  lemma Peel(x: seq<Event>, e: Event, y: seq<Event>, r: seq<Event>)
    ensures x + ([e] + y) + r == x + ([e] + (y + r))
  {
  }

  lemma Heads(e: Event, y: seq<Event>, f: Event, z: seq<Event>)
    requires [e] + y == [f] + z
    ensures e == f && y == z
  {
    assert e == ([e] + y)[0] && f == ([f] + z)[0];
    assert y == ([e] + y)[1..] && z == ([f] + z)[1..];
  }

  lemma Unbracket(open: Event, x: seq<Event>, y: seq<Event>, close: Event)
    requires [open] + x + [close] == [open] + y + [close]
    ensures x == y
  {
    assert |x| == |y|;
    assert x == ([open] + x + [close])[1..|x| + 1] && y == ([open] + y + [close])[1..|y| + 1];
  }

  lemma {:induction false} StructTells(env: Env, s: nat, bytes: seq<byte>, other: seq<byte>, fuel: nat)
    requires EnvOk(env) && s < |env| && StructFits(env, s, fuel)
    requires |bytes| == |other| == InlineSize(env, Sequence, Some(s))
    requires StructEvents(env, s, bytes, fuel) == StructEvents(env, s, other, fuel)
    ensures SameStruct(env, s, bytes, other, fuel)
    decreases fuel, 2, 0
  {
    hide SameStructField, StructFits, StructUpTo;
    var n := |env[s].codes|;
    Unbracket(StartSequence, StructUpTo(env, s, bytes, n, fuel), StructUpTo(env, s, other, n, fuel), EndSequence);
    StructUpToTells(env, s, bytes, other, n, fuel, [], []);
  }

  lemma {:induction false} StructUpToTells(env: Env, s: nat, bytes: seq<byte>, other: seq<byte>, i: nat, fuel: nat,
                                           r: seq<Event>, q: seq<Event>)
    requires EnvOk(env) && s < |env| && StructFits(env, s, fuel) && i <= |env[s].codes|
    requires |bytes| == |other| == InlineSize(env, Sequence, Some(s))
    requires StructUpTo(env, s, bytes, i, fuel) + r == StructUpTo(env, s, other, i, fuel) + q
    ensures r == q && forall k :: 0 <= k < i ==> SameStructField(env, s, bytes, other, k, fuel)
    decreases fuel, 1, i
  {
    hide SameStructField, StructFits, StructFieldEvents, OneValue;
    if i == 0 {
      assert [] + r == r && [] + q == q;
    } else {
      var c := env[s].codes[i - 1];
      StructPart(env, s, i - 1, fuel);
      var seen := FieldSeen(i - 1, i - 1, c.baseType, false, RefOf(env[s], c), true);
      var y, z := StructFieldEvents(env, s, bytes, i - 1, fuel), StructFieldEvents(env, s, other, i - 1, fuel);
      Peel(StructUpTo(env, s, bytes, i - 1, fuel), seen, y, r);
      Peel(StructUpTo(env, s, other, i - 1, fuel), seen, z, q);
      StructUpToTells(env, s, bytes, other, i - 1, fuel, [seen] + (y + r), [seen] + (z + q));
      Heads(seen, y + r, seen, z + q);
      StructFieldIsValue(env, s, bytes, i - 1, fuel);
      StructFieldIsValue(env, s, other, i - 1, fuel);
      SameValueFirst(y, z, r, q);
      StructFieldTells(env, s, bytes, other, i - 1, fuel);
    }
  }

  lemma {:induction false} StructFieldTells(env: Env, s: nat, bytes: seq<byte>, other: seq<byte>, i: nat, fuel: nat)
    requires EnvOk(env) && s < |env| && StructFits(env, s, fuel) && i < |env[s].codes|
    requires |bytes| == |other| == InlineSize(env, Sequence, Some(s))
    requires StructFieldEvents(env, s, bytes, i, fuel) == StructFieldEvents(env, s, other, i, fuel)
    ensures SameStructField(env, s, bytes, other, i, fuel)
    decreases fuel, 1, 0
  {
    hide StructFits, StructEvents, SameStruct, FromLE;
    var tt, c := env[s], env[s].codes[i];
    var ref := RefOf(tt, c);
    StructPart(env, s, i, fuel);
    var at := tt.values.value[i];
    if IsScalar(c.baseType) {
      var n := ScalarSize(c.baseType);
      assert LE(bytes, at, n) == LE(other, at, n);
      SameNumber(bytes[at..at + n], other[at..at + n]);
    } else {
      var n := InlineSize(env, Sequence, ref);
      StructTells(env, ref.value, bytes[at..at + n], other[at..at + n], fuel - 1);
    }
  }

  /** Bytes of one length are determined by their number. */
  lemma SameNumber(x: seq<byte>, y: seq<byte>)
    requires |x| == |y| && FromLE(x) == FromLE(y)
    ensures x == y
  {
    hide FromLE;
    ToFromLE(x);
    ToFromLE(y);
  }

  /** Two objects of one type of which the same is reported agree on every field that the type lists. */
  lemma {:induction false} ObjTells(env: Env, t: nat, o: Obj, p: Obj)
    requires EnvOk(env) && t < |env| && ObjFits(env, t, o) && ObjFits(env, t, p)
    requires ObjEvents(env, t, o) == ObjEvents(env, t, p)
    ensures SameObj(env, t, o, p)
    decreases o, 5, 0
  {
    hide SameField, FieldsUpTo, ObjFits;
    var n := |env[t].codes|;
    Unbracket(StartSequence, FieldsUpTo(env, t, o, n), FieldsUpTo(env, t, p, n), EndSequence);
    FieldsTell(env, t, o, p, n, [], []);
  }

  lemma {:induction false} FieldsTell(env: Env, t: nat, o: Obj, p: Obj, i: nat, r: seq<Event>, q: seq<Event>)
    requires EnvOk(env) && t < |env| && ObjFits(env, t, o) && ObjFits(env, t, p) && i <= |env[t].codes|
    requires FieldsUpTo(env, t, o, i) + r == FieldsUpTo(env, t, p, i) + q
    ensures r == q && forall k :: 0 <= k < i ==> SameField(env, t, o, p, k)
    decreases o, 4, i
  {
    hide SameField, ObjFits, FieldEvents, OneValue, PresentUpTo, RefOf;
    if i == 0 {
      assert [] + r == r && [] + q == q;
    } else {
      FieldOf(env, t, o, i - 1);
      FieldOf(env, t, p, i - 1);
      var e, f := SeenAt(env, t, o, i - 1), SeenAt(env, t, p, i - 1);
      var y, z := FieldEvents(env, t, o, i - 1), FieldEvents(env, t, p, i - 1);
      Peel(FieldsUpTo(env, t, o, i - 1), e, y, r);
      Peel(FieldsUpTo(env, t, p, i - 1), f, z, q);
      FieldsTell(env, t, o, p, i - 1, [e] + (y + r), [f] + (z + q));
      Heads(e, y + r, f, z + q);
      FieldNeutral(env, t, o, i - 1);
      FieldNeutral(env, t, p, i - 1);
      if Place(i - 1) in o.fields {
        SameValueFirst(y, z, r, q);
      } else {
        AbsentSilent(env, t, o, i - 1);
        AbsentSilent(env, t, p, i - 1);
        assert [] + r == r && [] + q == q;
      }
      FieldTells(env, t, o, p, i - 1);
    }
  }

  lemma AbsentSilent(env: Env, t: nat, o: Obj, i: nat)
    requires EnvOk(env) && t < |env| && ObjFits(env, t, o) && i < |env[t].codes| && Place(i) !in o.fields
    ensures FieldEvents(env, t, o, i) == []
  {
  }

  lemma {:induction false} FieldTells(env: Env, t: nat, o: Obj, p: Obj, i: nat)
    requires EnvOk(env) && t < |env| && ObjFits(env, t, o) && ObjFits(env, t, p) && i < |env[t].codes|
    requires Place(i) in o.fields <==> Place(i) in p.fields
    requires FieldEvents(env, t, o, i) == FieldEvents(env, t, p, i)
    ensures SameField(env, t, o, p, i)
    decreases o, 4, 0
  {
    hide ObjFits, ValueFits, ValueEvents, VectorFits, VectorEvents, SameValue, SameVector;
    FieldOf(env, t, o, i);
    FieldOf(env, t, p, i);
    if Place(i) in o.fields {
      var c, f, g := env[t].codes[i], o.fields[Place(i)], p.fields[Place(i)];
      var ref := RefOf(env[t], c);
      if c.isVector {
        VectorTells(env, c.baseType, ref, f.child, g.child, Before(o.fields, i), Before(p.fields, i));
      } else {
        ValueTells(env, c.baseType, ref, f, g, TypeBefore(o.fields, i), TypeBefore(p.fields, i));
      }
    }
  }

  lemma {:induction false} ValueTells(env: Env, ty: ElementaryType, ref: Option<nat>, f: Field, g: Field,
                                      utype: Option<nat>, other: Option<nat>)
    requires EnvOk(env) && (ref.Some? ==> ref.value < |env|)
    requires ValueFits(env, ty, ref, f, utype) && ValueFits(env, ty, ref, g, other)
    requires ValueEvents(env, ty, ref, f, utype) == ValueEvents(env, ty, ref, g, other)
    ensures SameValue(env, ty, ref, f, g, utype, other)
    decreases f, 3, 0
  {
    hide StructFits, StructEvents, RefFits, RefEvents, SameStruct, SameRef, FromLE;
    if IsScalar(ty) {
      SameNumber(f.bytes, g.bytes);
    } else if ty == Sequence && ref.Some? && env[ref.value].st == StructType {
      StructTells(env, ref.value, f.bytes, g.bytes, |env|);
    } else {
      RefTells(env, ty, ref, f.child, g.child, utype, other);
    }
  }

  lemma {:induction false} RefTells(env: Env, ty: ElementaryType, ref: Option<nat>, o: Obj, p: Obj, utype: Option<nat>,
                                    other: Option<nat>)
    requires EnvOk(env) && (ref.Some? ==> ref.value < |env|)
    requires RefFits(env, ty, ref, o, utype) && RefFits(env, ty, ref, p, other)
    requires RefEvents(env, ty, ref, o, utype) == RefEvents(env, ty, ref, p, other)
    ensures SameRef(env, ty, ref, o, p, utype, other)
    decreases o, 7, 0
  {
    hide ObjFits, ObjEvents, UnionEvents, SameObj, SameUnion, UnionFits;
    if ty == String {
      assert [Text(o.s)][0] == [Text(p.s)][0];
    } else if env[ref.value].st == TableType {
      ObjTells(env, ref.value, o, p);
    } else if utype == other {
      UnionTells(env, ref.value, o, p, utype.value);
    }
  }

  lemma {:induction false} UnionTells(env: Env, u: nat, o: Obj, p: Obj, utype: nat)
    requires EnvOk(env) && u < |env| && UnionFits(env, u, o, utype) && UnionFits(env, u, p, utype)
    requires UnionEvents(env, u, o, utype) == UnionEvents(env, u, p, utype)
    ensures SameUnion(env, u, o, p, utype)
    decreases o, 6, 0
  {
    hide ObjFits, ObjEvents, SameObj;
    var m := Member(env[u], utype);
    if m.Some? && m.value.baseType == Sequence {
      ObjTells(env, RefOf(env[u], m.value).value, o, p);
    } else if m.Some? && m.value.baseType == String {
      assert [Text(o.s)][0] == [Text(p.s)][0];
    }
  }

  lemma {:induction false} VectorTells(env: Env, ty: ElementaryType, ref: Option<nat>, o: Obj, p: Obj,
                                       before: Option<Field>, other: Option<Field>)
    requires EnvOk(env) && (ref.Some? ==> ref.value < |env|)
    requires VectorFits(env, ty, ref, o, before) && VectorFits(env, ty, ref, p, other)
    requires VectorEvents(env, ty, ref, o, before) == VectorEvents(env, ty, ref, p, other)
    ensures SameVector(env, ty, ref, o, p, before, other)
    decreases o, 9, 0
  {
    hide VectorFits, ElemsUpTo, SameElem, VectorLength, VectorEvents;
    var n, k := VectorLength(o), VectorLength(p);
    VectorInside(env, ty, ref, o, p, before, other);
    var m := if n < k then n else k;
    var r := ElemsFrom(env, ty, ref, o, before, m, n);
    var q := ElemsFrom(env, ty, ref, p, other, m, k);
    ElemsTell(env, ty, ref, o, p, before, other, m, r, q);
  }

  lemma VectorInside(env: Env, ty: ElementaryType, ref: Option<nat>, o: Obj, p: Obj, before: Option<Field>,
                     other: Option<Field>)
    requires EnvOk(env) && (ref.Some? ==> ref.value < |env|)
    requires VectorFits(env, ty, ref, o, before) && VectorFits(env, ty, ref, p, other)
    requires VectorEvents(env, ty, ref, o, before) == VectorEvents(env, ty, ref, p, other)
    ensures ElemsUpTo(env, ty, ref, o, before, VectorLength(o)) == ElemsUpTo(env, ty, ref, p, other, VectorLength(p))
  {
    hide VectorFits, ElemsUpTo, VectorLength;
    Unbracket(StartVector, ElemsUpTo(env, ty, ref, o, before, VectorLength(o)),
              ElemsUpTo(env, ty, ref, p, other, VectorLength(p)), EndVector);
  }

  /** The reports of the elements after the first `m`. */
  lemma {:induction false} ElemsFrom(env: Env, ty: ElementaryType, ref: Option<nat>, o: Obj, before: Option<Field>,
                                     m: nat, n: nat) returns (r: seq<Event>)
    requires EnvOk(env) && (ref.Some? ==> ref.value < |env|) && VectorFits(env, ty, ref, o, before)
    requires m <= n <= VectorLength(o)
    ensures ElemsUpTo(env, ty, ref, o, before, n) == ElemsUpTo(env, ty, ref, o, before, m) + r
    ensures r == [] <==> m == n
    decreases n
  {
    hide VectorFits, RefEvents, RefFits;
    if m == n {
      r := [];
    } else {
      var front := ElemsFrom(env, ty, ref, o, before, m, n - 1);
      var last := [Element(n - 1, ty, ref)] + ElemEvents(env, ty, ref, o, before, n - 1);
      Assoc(ElemsUpTo(env, ty, ref, o, before, m), front, last);
      r := front + last;
    }
  }

  lemma {:induction false} ElemsTell(env: Env, ty: ElementaryType, ref: Option<nat>, o: Obj, p: Obj,
                                     before: Option<Field>, other: Option<Field>, j: nat, r: seq<Event>, q: seq<Event>)
    requires EnvOk(env) && (ref.Some? ==> ref.value < |env|)
    requires VectorFits(env, ty, ref, o, before) && VectorFits(env, ty, ref, p, other)
    requires j <= VectorLength(o) && j <= VectorLength(p)
    requires ElemsUpTo(env, ty, ref, o, before, j) + r == ElemsUpTo(env, ty, ref, p, other, j) + q
    ensures r == q && forall k :: 0 <= k < j ==> SameElem(env, ty, ref, o, p, before, other, k)
    decreases o, 8, j
  {
    hide SameElem, VectorFits, RefEvents, RefFits, OneValue;
    if j == 0 {
      assert [] + r == r && [] + q == q;
    } else {
      var e := Element(j - 1, ty, ref);
      var y, z := ElemEvents(env, ty, ref, o, before, j - 1), ElemEvents(env, ty, ref, p, other, j - 1);
      Peel(ElemsUpTo(env, ty, ref, o, before, j - 1), e, y, r);
      Peel(ElemsUpTo(env, ty, ref, p, other, j - 1), e, z, q);
      ElemsTell(env, ty, ref, o, p, before, other, j - 1, [e] + (y + r), [e] + (z + q));
      Heads(e, y + r, e, z + q);
      ElemIsValue(env, ty, ref, o, before, j - 1);
      ElemIsValue(env, ty, ref, p, other, j - 1);
      SameValueFirst(y, z, r, q);
      ElemTells(env, ty, ref, o, p, before, other, j - 1);
    }
  }

  lemma {:induction false} ElemTells(env: Env, ty: ElementaryType, ref: Option<nat>, o: Obj, p: Obj,
                                     before: Option<Field>, other: Option<Field>, j: nat)
    requires EnvOk(env) && (ref.Some? ==> ref.value < |env|)
    requires VectorFits(env, ty, ref, o, before) && VectorFits(env, ty, ref, p, other)
    requires j < VectorLength(o) && j < VectorLength(p)
    requires ElemEvents(env, ty, ref, o, before, j) == ElemEvents(env, ty, ref, p, other, j)
    ensures SameElem(env, ty, ref, o, p, before, other, j)
    decreases o, 8, 0
  {
    hide RefEvents, RefFits, SameRef, ElemType;
    if IsScalar(ty) {
      assert [Scalar(ty, o.elems[j])][0] == [Scalar(ty, p.elems[j])][0];
    } else {
      RefTells(env, ty, ref, o.children[j], p.children[j], ElemType(env, ty, ref, before, j),
               ElemType(env, ty, ref, other, j));
    }
  }
}
