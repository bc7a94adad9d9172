/** The events of a traversal can be told apart: where the report of a value ends shows from the events alone. */
module MiniEvents {
  import opened Options
  import opened Bytes
  import opened FlatObject
  import opened MiniReflect

  // ---------------------------------------------------------------- where a report ends

  /** How an event changes the nesting. */
  function Nesting(e: Event): int {
    if e.StartSequence? || e.StartVector? then 1 else if e.EndSequence? || e.EndVector? then -1 else 0
  }

  /** What follows when `d` open brackets have been closed. */
  function After(es: seq<Event>, d: nat): seq<Event> {
    if d == 0 then es else if es == [] then [] else After(es[1..], d + Nesting(es[0]))
  }

  /** What follows the report of one value. */
  function Skip(es: seq<Event>): seq<Event> {
    if es == [] then [] else if Nesting(es[0]) == 1 then After(es[1..], 1) else es[1..]
  }

  /** Inside brackets the events are passed over as a whole. */
  ghost predicate Neutral(x: seq<Event>) {
    forall d: nat, r: seq<Event> :: d > 0 ==> After(x + r, d) == After(r, d)
  }

  lemma NeutralIs(x: seq<Event>, r: seq<Event>, d: nat)
    requires Neutral(x) && d > 0
    ensures After(x + r, d) == After(r, d)
  {
  }

  lemma NothingNeutral()
    ensures Neutral([])
  {
    forall d: nat, r: seq<Event> | d > 0
      ensures After([] + r, d) == After(r, d)
    {
      assert [] + r == r;
    }
  }

  lemma PlainNeutral(e: Event)
    requires Nesting(e) == 0
    ensures Neutral([e])
  {
    forall d: nat, r: seq<Event> | d > 0
      ensures After([e] + r, d) == After(r, d)
    {
      assert ([e] + r)[1..] == r;
    }
  }

  lemma BothNeutral(x: seq<Event>, y: seq<Event>)
    requires Neutral(x) && Neutral(y)
    ensures Neutral(x + y)
  {
    forall d: nat, r: seq<Event> | d > 0
      ensures After(x + y + r, d) == After(r, d)
    {
      assert x + y + r == x + (y + r);
    }
  }

  lemma Inside(open: Event, x: seq<Event>, close: Event, r: seq<Event>, d: nat)
    requires Neutral(x) && Nesting(close) == -1
    ensures After(([open] + x + [close] + r)[1..], d + 1) == After(r, d)
  {
    assert ([open] + x + [close] + r)[1..] == x + ([close] + r);
    NeutralIs(x, [close] + r, d + 1);
    assert ([close] + r)[1..] == r;
  }

  /** Brackets around neutral events make one value. */
  lemma Bracketed(open: Event, x: seq<Event>, close: Event)
    requires Nesting(open) == 1 && Neutral(x) && Nesting(close) == -1
    ensures Neutral([open] + x + [close])
    ensures forall r :: Skip([open] + x + [close] + r) == r
  {
    var block := [open] + x + [close];
    forall d: nat, r: seq<Event> | d > 0
      ensures After(block + r, d) == After(r, d)
    {
      Inside(open, x, close, r, d);
    }
    forall r
      ensures Skip(block + r) == r
    {
      Inside(open, x, close, r, 0);
    }
  }

  /** One value: passed over as a whole wherever it stands. */
  ghost predicate OneValue(x: seq<Event>) {
    Neutral(x) && x != [] && forall r :: Skip(x + r) == r
  }

  lemma PlainValue(e: Event)
    requires Nesting(e) == 0
    ensures OneValue([e])
  {
    hide Neutral;
    PlainNeutral(e);
    forall r
      ensures Skip([e] + r) == r
    {
      assert ([e] + r)[1..] == r;
    }
  }

  lemma BracketedValue(open: Event, x: seq<Event>, close: Event)
    requires Nesting(open) == 1 && Neutral(x) && Nesting(close) == -1
    ensures OneValue([open] + x + [close])
  {
    hide Neutral;
    Bracketed(open, x, close);
  }

  lemma ValueNeutral(x: seq<Event>)
    requires OneValue(x)
    ensures Neutral(x)
  {
  }

  /** Two values at the front of the same events are the same, and so is what follows. */
  lemma SameValueFirst(x: seq<Event>, y: seq<Event>, r: seq<Event>, q: seq<Event>)
    requires OneValue(x) && OneValue(y) && x + r == y + q
    ensures x == y && r == q
  {
    assert Skip(x + r) == r && Skip(y + q) == q;
    assert |x| == |y|;
    assert x == (x + r)[..|x|] && y == (y + q)[..|y|];
  }

  // ---------------------------------------------------------------- every report is one value

  lemma {:induction false} StructIsValue(env: Env, s: nat, bytes: seq<byte>, fuel: nat)
    requires EnvOk(env) && s < |env| && StructFits(env, s, fuel) && |bytes| == InlineSize(env, Sequence, Some(s))
    ensures OneValue(StructEvents(env, s, bytes, fuel))
    decreases fuel, 2, 0
  {
    hide OneValue, StructUpTo, StructFits;
    StructNeutral(env, s, bytes, |env[s].codes|, fuel);
    BracketedValue(StartSequence, StructUpTo(env, s, bytes, |env[s].codes|, fuel), EndSequence);
  }

  lemma {:induction false} StructNeutral(env: Env, s: nat, bytes: seq<byte>, i: nat, fuel: nat)
    requires EnvOk(env) && s < |env| && StructFits(env, s, fuel) && |bytes| == InlineSize(env, Sequence, Some(s))
    requires i <= |env[s].codes|
    ensures Neutral(StructUpTo(env, s, bytes, i, fuel))
    decreases fuel, 1, i
  {
    hide Neutral, StructFits, StructFieldEvents;
    if i == 0 {
      NothingNeutral();
    } else {
      var c := env[s].codes[i - 1];
      StructPart(env, s, i - 1, fuel);
      var seen := FieldSeen(i - 1, i - 1, c.baseType, false, RefOf(env[s], c), true);
      var x, y := StructUpTo(env, s, bytes, i - 1, fuel), StructFieldEvents(env, s, bytes, i - 1, fuel);
      StructNeutral(env, s, bytes, i - 1, fuel);
      StructFieldIsValue(env, s, bytes, i - 1, fuel);
      ValueNeutral(y);
      PlainNeutral(seen);
      BothNeutral([seen], y);
      BothNeutral(x, [seen] + y);
    }
  }

  lemma {:induction false} StructFieldIsValue(env: Env, s: nat, bytes: seq<byte>, i: nat, fuel: nat)
    requires EnvOk(env) && s < |env| && StructFits(env, s, fuel) && |bytes| == InlineSize(env, Sequence, Some(s))
    requires i < |env[s].codes|
    ensures OneValue(StructFieldEvents(env, s, bytes, i, fuel))
    decreases fuel, 1, 0
  {
    hide OneValue, StructFits, StructEvents;
    var tt, c := env[s], env[s].codes[i];
    var ref := RefOf(tt, c);
    StructPart(env, s, i, fuel);
    var at := tt.values.value[i];
    if IsScalar(c.baseType) {
      PlainValue(Scalar(c.baseType, LE(bytes, at, ScalarSize(c.baseType))));
    } else {
      StructIsValue(env, ref.value, bytes[at..at + InlineSize(env, Sequence, ref)], fuel - 1);
    }
  }

  lemma {:induction false} ObjIsValue(env: Env, t: nat, o: Obj)
    requires EnvOk(env) && t < |env| && ObjFits(env, t, o)
    ensures OneValue(ObjEvents(env, t, o))
    decreases o, 5, 0
  {
    hide OneValue, FieldsUpTo, ObjFits;
    FieldsNeutral(env, t, o, |env[t].codes|);
    BracketedValue(StartSequence, FieldsUpTo(env, t, o, |env[t].codes|), EndSequence);
  }

  lemma {:induction false} FieldOf(env: Env, t: nat, o: Obj, i: nat)
    requires EnvOk(env) && t < |env| && ObjFits(env, t, o) && i < |env[t].codes|
    ensures o.Table? && FieldFits(env, t, o, i)
  {
  }

  lemma {:induction false} FieldsNeutral(env: Env, t: nat, o: Obj, i: nat)
    requires EnvOk(env) && t < |env| && ObjFits(env, t, o) && i <= |env[t].codes|
    ensures Neutral(FieldsUpTo(env, t, o, i))
    decreases o, 4, i
  {
    hide Neutral, ObjFits, FieldEvents, PresentUpTo, OneValue, RefOf;
    if i == 0 {
      NothingNeutral();
    } else {
      FieldOf(env, t, o, i - 1);
      var seen := SeenAt(env, t, o, i - 1);
      var x, y := FieldsUpTo(env, t, o, i - 1), FieldEvents(env, t, o, i - 1);
      FieldsNeutral(env, t, o, i - 1);
      FieldNeutral(env, t, o, i - 1);
      PlainNeutral(seen);
      BothNeutral([seen], y);
      BothNeutral(x, [seen] + y);
    }
  }

  /** The event that announces a field. */
  ghost function SeenAt(env: Env, t: nat, o: Obj, i: nat): (e: Event)
    requires EnvOk(env) && t < |env| && o.Table? && i < |env[t].codes|
    ensures Nesting(e) == 0
  {
    var c := env[t].codes[i];
    FieldSeen(i, PresentUpTo(o.fields, i), c.baseType, c.isVector, RefOf(env[t], c), Place(i) in o.fields)
  }

  lemma {:induction false} FieldNeutral(env: Env, t: nat, o: Obj, i: nat)
    requires EnvOk(env) && t < |env| && ObjFits(env, t, o) && i < |env[t].codes|
    ensures Neutral(FieldEvents(env, t, o, i)) && (Place(i) in o.fields ==> OneValue(FieldEvents(env, t, o, i)))
    decreases o, 4, 0
  {
    hide Neutral, ValueFits, ValueEvents, VectorFits, VectorEvents, ObjFits;
    FieldOf(env, t, o, i);
    if Place(i) !in o.fields {
      NothingNeutral();
    } else {
      var c, fld := env[t].codes[i], o.fields[Place(i)];
      if c.isVector {
        VectorIsValue(env, c.baseType, RefOf(env[t], c), fld.child, Before(o.fields, i));
      } else {
        ValueIsValue(env, c.baseType, RefOf(env[t], c), fld, TypeBefore(o.fields, i));
      }
      ValueNeutral(FieldEvents(env, t, o, i));
    }
  }

  lemma {:induction false} ValueIsValue(env: Env, ty: ElementaryType, ref: Option<nat>, fld: Field, utype: Option<nat>)
    requires EnvOk(env) && (ref.Some? ==> ref.value < |env|) && ValueFits(env, ty, ref, fld, utype)
    ensures OneValue(ValueEvents(env, ty, ref, fld, utype))
    decreases fld, 3, 0
  {
    hide OneValue, RefFits, RefEvents, StructFits, StructEvents;
    if IsScalar(ty) {
      PlainValue(Scalar(ty, FromLE(fld.bytes)));
    } else if ty == Sequence && ref.Some? && env[ref.value].st == StructType {
      StructIsValue(env, ref.value, fld.bytes, |env|);
    } else {
      RefIsValue(env, ty, ref, fld.child, utype);
    }
  }

  lemma {:induction false} RefIsValue(env: Env, ty: ElementaryType, ref: Option<nat>, o: Obj, utype: Option<nat>)
    requires EnvOk(env) && (ref.Some? ==> ref.value < |env|) && RefFits(env, ty, ref, o, utype)
    ensures OneValue(RefEvents(env, ty, ref, o, utype))
    decreases o, 7, 0
  {
    hide OneValue, ObjFits, ObjEvents, UnionEvents;
    if ty == String {
      PlainValue(Text(o.s));
    } else if env[ref.value].st == TableType {
      ObjIsValue(env, ref.value, o);
    } else {
      UnionIsValue(env, ref.value, o, utype.value);
    }
  }

  lemma {:induction false} UnionIsValue(env: Env, u: nat, o: Obj, utype: nat)
    requires EnvOk(env) && u < |env| && UnionFits(env, u, o, utype)
    ensures OneValue(UnionEvents(env, u, o, utype))
    decreases o, 6, 0
  {
    hide OneValue, ObjFits, ObjEvents;
    var m := Member(env[u], utype);
    if m.Some? && m.value.baseType == Sequence {
      ObjIsValue(env, RefOf(env[u], m.value).value, o);
    } else if m.Some? && m.value.baseType == String {
      PlainValue(Text(o.s));
    } else {
      PlainValue(Unknown);
    }
  }

  lemma {:induction false} VectorIsValue(env: Env, ty: ElementaryType, ref: Option<nat>, o: Obj, before: Option<Field>)
    requires EnvOk(env) && (ref.Some? ==> ref.value < |env|) && VectorFits(env, ty, ref, o, before)
    ensures OneValue(VectorEvents(env, ty, ref, o, before))
    decreases o, 9, 0
  {
    hide OneValue, VectorFits, ElemsUpTo;
    ElemsNeutral(env, ty, ref, o, before, VectorLength(o));
    BracketedValue(StartVector, ElemsUpTo(env, ty, ref, o, before, VectorLength(o)), EndVector);
  }

  /** What is reported of the j-th element, after it has been announced. */
  ghost function ElemEvents(env: Env, ty: ElementaryType, ref: Option<nat>, o: Obj, before: Option<Field>, j: nat)
    : seq<Event>
    requires EnvOk(env) && (ref.Some? ==> ref.value < |env|) && VectorFits(env, ty, ref, o, before)
    requires j < VectorLength(o)
    decreases o, 8, 0
  {
    if IsScalar(ty) then [Scalar(ty, o.elems[j])]
    else RefEvents(env, ty, ref, o.children[j], ElemType(env, ty, ref, before, j))
  }

  lemma {:induction false} ElemIsValue(env: Env, ty: ElementaryType, ref: Option<nat>, o: Obj, before: Option<Field>,
                                       j: nat)
    requires EnvOk(env) && (ref.Some? ==> ref.value < |env|) && VectorFits(env, ty, ref, o, before)
    requires j < VectorLength(o)
    ensures OneValue(ElemEvents(env, ty, ref, o, before, j))
    decreases o, 8, 0
  {
    hide OneValue, RefFits, RefEvents, ElemType;
    if IsScalar(ty) {
      PlainValue(Scalar(ty, o.elems[j]));
    } else {
      RefIsValue(env, ty, ref, o.children[j], ElemType(env, ty, ref, before, j));
    }
  }

  lemma {:induction false} ElemsNeutral(env: Env, ty: ElementaryType, ref: Option<nat>, o: Obj, before: Option<Field>,
                                        j: nat)
    requires EnvOk(env) && (ref.Some? ==> ref.value < |env|) && VectorFits(env, ty, ref, o, before)
    requires j <= VectorLength(o)
    ensures Neutral(ElemsUpTo(env, ty, ref, o, before, j))
    decreases o, 8, j
  {
    hide Neutral, OneValue, RefFits, RefEvents, VectorFits;
    if j == 0 {
      NothingNeutral();
    } else {
      var x, y := ElemsUpTo(env, ty, ref, o, before, j - 1), ElemEvents(env, ty, ref, o, before, j - 1);
      ElemsNeutral(env, ty, ref, o, before, j - 1);
      ElemIsValue(env, ty, ref, o, before, j - 1);
      ValueNeutral(y);
      PlainNeutral(Element(j - 1, ty, ref));
      BothNeutral([Element(j - 1, ty, ref)], y);
      BothNeutral(x, [Element(j - 1, ty, ref)] + y);
      assert ElemsUpTo(env, ty, ref, o, before, j) == x + ([Element(j - 1, ty, ref)] + y);
    }
  }
}
