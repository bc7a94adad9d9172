/** The numbers and texts that a visitor is told are exactly those that the object holds, in the order of the schema. */
module MiniLeaves {
  import opened Options
  import opened Bytes
  import opened FlatObject
  import opened MiniReflect
  import opened MiniEvents

  function LeafOf(e: Event): seq<Event> { if e.Scalar? || e.Text? || e.Unknown? then [e] else [] }

  /** Without the brackets and announcements. */
  function Leaves(es: seq<Event>): seq<Event> {
    if es == [] then [] else LeafOf(es[0]) + Leaves(es[1..])
  }

  lemma {:induction false} LeavesOfBoth(x: seq<Event>, y: seq<Event>)
    ensures Leaves(x + y) == Leaves(x) + Leaves(y)
  {
    hide LeafOf;
    if x == [] {
      assert x + y == y;
    } else {
      LeavesOfBoth(x[1..], y);
      assert (x + y)[0] == x[0] && (x + y)[1..] == x[1..] + y;
      Assoc(LeafOf(x[0]), Leaves(x[1..]), Leaves(y));
    }
  }

  lemma LeafItself(e: Event)
    ensures Leaves([e]) == LeafOf(e)
  {
  }

  lemma LeavesInside(open: Event, x: seq<Event>, close: Event)
    requires Nesting(open) != 0 && Nesting(close) != 0
    ensures Leaves([open] + x + [close]) == Leaves(x)
  {
    LeavesOfBoth([open] + x, [close]);
    LeavesOfBoth([open], x);
    LeafItself(open);
    LeafItself(close);
  }

  /** An announcement and what it announces. */
  lemma LeavesAfter(x: seq<Event>, e: Event, y: seq<Event>)
    requires e.FieldSeen? || e.Element?
    ensures Leaves(x + ([e] + y)) == Leaves(x) + Leaves(y)
  {
    LeavesOfBoth(x, [e] + y);
    LeavesOfBoth([e], y);
    LeafItself(e);
  }

  // ---------------------------------------------------------------- what an object holds

  ghost function StructLeaves(env: Env, s: nat, bytes: seq<byte>, i: nat, fuel: nat): seq<Event>
    requires EnvOk(env) && s < |env| && StructFits(env, s, fuel) && |bytes| == InlineSize(env, Sequence, Some(s))
    requires i <= |env[s].codes|
    decreases fuel, |env[s].codes| - i + 1
  {
    if i == |env[s].codes| then []
    else StructFieldLeaves(env, s, bytes, i, fuel) + StructLeaves(env, s, bytes, i + 1, fuel)
  }

  ghost function StructFieldLeaves(env: Env, s: nat, bytes: seq<byte>, i: nat, fuel: nat): seq<Event>
    requires EnvOk(env) && s < |env| && StructFits(env, s, fuel) && |bytes| == InlineSize(env, Sequence, Some(s))
    requires i < |env[s].codes|
    decreases fuel, 0
  {
    StructPart(env, s, i, fuel);
    var c, at, ref := env[s].codes[i], env[s].values.value[i], RefOf(env[s], env[s].codes[i]);
    if IsScalar(c.baseType) then [Scalar(c.baseType, FromLE(bytes[at..at + ScalarSize(c.baseType)]))]
    else StructLeaves(env, ref.value, bytes[at..at + InlineSize(env, Sequence, ref)], 0, fuel - 1)
  }

  /** The leaves of the fields from the i-th on. */
  ghost function ObjLeaves(env: Env, t: nat, o: Obj, i: nat): seq<Event>
    requires EnvOk(env) && t < |env| && ObjFits(env, t, o) && i <= |env[t].codes|
    decreases o, 5, |env[t].codes| - i
  {
    if i == |env[t].codes| then []
    else FieldLeaves(env, t, o, i) + ObjLeaves(env, t, o, i + 1)
  }

  ghost function FieldLeaves(env: Env, t: nat, o: Obj, i: nat): seq<Event>
    requires EnvOk(env) && t < |env| && ObjFits(env, t, o) && i < |env[t].codes|
    decreases o, 4
  {
    FieldOf(env, t, o, i);
    if Place(i) !in o.fields then []
    else
      var c, f := env[t].codes[i], o.fields[Place(i)];
      var ref := RefOf(env[t], c);
      if c.isVector then VectorLeaves(env, c.baseType, ref, f.child, Before(o.fields, i), 0)
      else
        match f
        case Inline(_, bytes) =>
          if IsScalar(c.baseType) then [Scalar(c.baseType, FromLE(bytes))]
          else StructLeaves(env, ref.value, bytes, 0, |env|)
        case Ref(child) => RefLeaves(env, c.baseType, ref, child, TypeBefore(o.fields, i))
  }

  /** A string is a text, whether by its type or as the member of a union. */
  ghost function RefLeaves(env: Env, ty: ElementaryType, ref: Option<nat>, o: Obj, utype: Option<nat>): seq<Event>
    requires EnvOk(env) && (ref.Some? ==> ref.value < |env|) && RefFits(env, ty, ref, o, utype)
    decreases o, 7
  {
    if ty == Sequence && env[ref.value].st == UnionType then
      assert UnionFits(env, ref.value, o, utype.value);
      var m := Member(env[ref.value], utype.value);
      if m.None? || IsScalar(m.value.baseType) then [Unknown]
      else if o.Str? then [Text(o.s)]
      else ObjLeaves(env, RefOf(env[ref.value], m.value).value, o, 0)
    else if o.Str? then [Text(o.s)]
    else ObjLeaves(env, ref.value, o, 0)
  }

  ghost function VectorLeaves(env: Env, ty: ElementaryType, ref: Option<nat>, o: Obj, before: Option<Field>, j: nat)
    : seq<Event>
    requires EnvOk(env) && (ref.Some? ==> ref.value < |env|) && VectorFits(env, ty, ref, o, before)
    requires j <= VectorLength(o)
    decreases o, 8, VectorLength(o) - j
  {
    if j == VectorLength(o) then []
    else
      (if o.Scalars? then [Scalar(ty, o.elems[j])]
       else RefLeaves(env, ty, ref, o.children[j], ElemType(env, ty, ref, before, j)))
      + VectorLeaves(env, ty, ref, o, before, j + 1)
  }

  // ---------------------------------------------------------------- is what is reported

  lemma {:induction false} StructReports(env: Env, s: nat, bytes: seq<byte>, fuel: nat)
    requires EnvOk(env) && s < |env| && StructFits(env, s, fuel) && |bytes| == InlineSize(env, Sequence, Some(s))
    ensures Leaves(StructEvents(env, s, bytes, fuel)) == StructLeaves(env, s, bytes, 0, fuel)
    decreases fuel, 2
  {
    hide StructFits, StructUpTo, StructLeaves;
    var n := |env[s].codes|;
    LeavesInside(StartSequence, StructUpTo(env, s, bytes, n, fuel), EndSequence);
    StructReportsFrom(env, s, bytes, n, fuel);
    StructLeavesEnd(env, s, bytes, fuel);
  }

  lemma StructLeavesEnd(env: Env, s: nat, bytes: seq<byte>, fuel: nat)
    requires EnvOk(env) && s < |env| && StructFits(env, s, fuel) && |bytes| == InlineSize(env, Sequence, Some(s))
    ensures StructLeaves(env, s, bytes, |env[s].codes|, fuel) == []
  {
  }

  lemma {:induction false} StructReportsFrom(env: Env, s: nat, bytes: seq<byte>, i: nat, fuel: nat)
    requires EnvOk(env) && s < |env| && StructFits(env, s, fuel) && |bytes| == InlineSize(env, Sequence, Some(s))
    requires i <= |env[s].codes|
    ensures Leaves(StructUpTo(env, s, bytes, i, fuel)) + StructLeaves(env, s, bytes, i, fuel)
            == StructLeaves(env, s, bytes, 0, fuel)
    decreases fuel, 1, i
  {
    hide StructFits, Leaves, StructFieldLeaves, StructFieldEvents;
    if i == 0 {
      LeavesOfNone();
    } else {
      StructPart(env, s, i - 1, fuel);
      var c := env[s].codes[i - 1];
      StructReportsFrom(env, s, bytes, i - 1, fuel);
      StructFieldReports(env, s, bytes, i - 1, fuel);
      var x, y := StructUpTo(env, s, bytes, i - 1, fuel), StructFieldEvents(env, s, bytes, i - 1, fuel);
      LeavesAfter(x, FieldSeen(i - 1, i - 1, c.baseType, false, RefOf(env[s], c), true), y);
    }
  }

  lemma {:induction false} StructFieldReports(env: Env, s: nat, bytes: seq<byte>, i: nat, fuel: nat)
    requires EnvOk(env) && s < |env| && StructFits(env, s, fuel) && |bytes| == InlineSize(env, Sequence, Some(s))
    requires i < |env[s].codes|
    ensures Leaves(StructFieldEvents(env, s, bytes, i, fuel)) == StructFieldLeaves(env, s, bytes, i, fuel)
    decreases fuel, 1, 0
  {
    hide StructFits, Leaves, FromLE, StructLeaves, StructEvents;
    StructPart(env, s, i, fuel);
    var c, at, ref := env[s].codes[i], env[s].values.value[i], RefOf(env[s], env[s].codes[i]);
    if IsScalar(c.baseType) {
      LeafItself(Scalar(c.baseType, LE(bytes, at, ScalarSize(c.baseType))));
    } else {
      StructReports(env, ref.value, bytes[at..at + InlineSize(env, Sequence, ref)], fuel - 1);
    }
  }

  lemma LeavesOfNone()
    ensures Leaves([]) == []
  {
  }

  /** The reported leaves of an object are the leaves that it holds. */
  lemma {:induction false} ObjReports(env: Env, t: nat, o: Obj)
    requires EnvOk(env) && t < |env| && ObjFits(env, t, o)
    ensures Leaves(ObjEvents(env, t, o)) == ObjLeaves(env, t, o, 0)
    decreases o, 5, 0
  {
    hide ObjFits, FieldsUpTo, FieldLeaves;
    var n := |env[t].codes|;
    LeavesInside(StartSequence, FieldsUpTo(env, t, o, n), EndSequence);
    ObjReportsFrom(env, t, o, n);
  }

  lemma {:induction false} ObjReportsFrom(env: Env, t: nat, o: Obj, i: nat)
    requires EnvOk(env) && t < |env| && ObjFits(env, t, o) && i <= |env[t].codes|
    ensures Leaves(FieldsUpTo(env, t, o, i)) + ObjLeaves(env, t, o, i) == ObjLeaves(env, t, o, 0)
    decreases o, 4, i
  {
    hide ObjFits, FieldLeaves, FieldEvents, Leaves, PresentUpTo, RefOf;
    if i == 0 {
      LeavesOfNone();
    } else {
      FieldOf(env, t, o, i - 1);
      ObjReportsFrom(env, t, o, i - 1);
      FieldReports(env, t, o, i - 1);
      LeavesAfter(FieldsUpTo(env, t, o, i - 1), SeenAt(env, t, o, i - 1), FieldEvents(env, t, o, i - 1));
    }
  }

  lemma {:induction false} FieldReports(env: Env, t: nat, o: Obj, i: nat)
    requires EnvOk(env) && t < |env| && ObjFits(env, t, o) && i < |env[t].codes|
    ensures Leaves(FieldEvents(env, t, o, i)) == FieldLeaves(env, t, o, i)
    decreases o, 4, 0
  {
    hide ObjFits, Leaves, VectorFits, VectorEvents, VectorLeaves, RefFits, RefEvents, RefLeaves, StructFits,
      StructEvents, StructLeaves, FromLE;
    FieldOf(env, t, o, i);
    if Place(i) !in o.fields {
      LeavesOfNone();
    } else {
      var c, f := env[t].codes[i], o.fields[Place(i)];
      var ref := RefOf(env[t], c);
      if c.isVector {
        VectorReports(env, c.baseType, ref, f.child, Before(o.fields, i));
      } else if IsScalar(c.baseType) {
        LeafItself(Scalar(c.baseType, FromLE(f.bytes)));
      } else if c.baseType == Sequence && ref.Some? && env[ref.value].st == StructType {
        StructReports(env, ref.value, f.bytes, |env|);
      } else {
        RefReports(env, c.baseType, ref, f.child, TypeBefore(o.fields, i));
      }
    }
  }

  lemma {:induction false} RefReports(env: Env, ty: ElementaryType, ref: Option<nat>, o: Obj, utype: Option<nat>)
    requires EnvOk(env) && (ref.Some? ==> ref.value < |env|) && RefFits(env, ty, ref, o, utype)
    ensures Leaves(RefEvents(env, ty, ref, o, utype)) == RefLeaves(env, ty, ref, o, utype)
    decreases o, 7, 0
  {
    hide Leaves, ObjEvents, ObjLeaves;
    if ty == String {
      LeafItself(Text(o.s));
    } else if env[ref.value].st == TableType {
      ObjReports(env, ref.value, o);
    } else {
      var m := Member(env[ref.value], utype.value);
      if m.Some? && m.value.baseType == Sequence {
        ObjReports(env, RefOf(env[ref.value], m.value).value, o);
      } else if m.Some? && m.value.baseType == String {
        LeafItself(Text(o.s));
      } else {
        LeafItself(Unknown);
      }
    }
  }

  lemma {:induction false} VectorReports(env: Env, ty: ElementaryType, ref: Option<nat>, o: Obj, before: Option<Field>)
    requires EnvOk(env) && (ref.Some? ==> ref.value < |env|) && VectorFits(env, ty, ref, o, before)
    ensures Leaves(VectorEvents(env, ty, ref, o, before)) == VectorLeaves(env, ty, ref, o, before, 0)
    decreases o, 9, 0
  {
    hide Leaves, VectorFits, ElemsUpTo, RefLeaves;
    var n := VectorLength(o);
    LeavesInside(StartVector, ElemsUpTo(env, ty, ref, o, before, n), EndVector);
    VectorReportsFrom(env, ty, ref, o, before, n);
  }

  lemma {:induction false} VectorReportsFrom(env: Env, ty: ElementaryType, ref: Option<nat>, o: Obj,
                                             before: Option<Field>, j: nat)
    requires EnvOk(env) && (ref.Some? ==> ref.value < |env|) && VectorFits(env, ty, ref, o, before)
    requires j <= VectorLength(o)
    ensures Leaves(ElemsUpTo(env, ty, ref, o, before, j)) + VectorLeaves(env, ty, ref, o, before, j)
            == VectorLeaves(env, ty, ref, o, before, 0)
    decreases o, 8, j
  {
    hide Leaves, RefFits, RefEvents, RefLeaves, ElemType;
    if j == 0 {
      LeavesOfNone();
    } else {
      VectorReportsFrom(env, ty, ref, o, before, j - 1);
      var x, y := ElemsUpTo(env, ty, ref, o, before, j - 1), ElemEvents(env, ty, ref, o, before, j - 1);
      LeavesAfter(x, Element(j - 1, ty, ref), y);
      if IsScalar(ty) {
        LeafItself(Scalar(ty, o.elems[j - 1]));
      } else {
        RefReports(env, ty, ref, o.children[j - 1], ElemType(env, ty, ref, before, j - 1));
      }
    }
  }
}
