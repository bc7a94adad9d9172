/** One object and all that a visitor is told of it. */
module MiniExample {
  import opened Options
  import opened Bytes
  import opened FlatObject
  import opened MiniReflect

  /** A table of an int, a text, another text, a vector of bytes and a struct; the struct has one short at byte 2. */
  function Types(): Env {
    [TypeTable(TableType,
               [TypeCode(Int, false, -1), TypeCode(String, false, -1), TypeCode(String, false, -1),
                TypeCode(UChar, true, -1), TypeCode(Sequence, false, 0)],
               [1], None),
     TypeTable(StructType, [TypeCode(Short, false, -1)], [], Some([2, 4]))]
  }

  /** The first text is absent. */
  function Example(): Obj {
    Table(map[4 := Inline(4, [1, 2, 0, 0]), 8 := Ref(Str([104, 105])), 10 := Ref(Scalars(1, [5, 6])),
              12 := Inline(2, [9, 9, 7, 0])])
  }

  lemma TypesOk()
    ensures EnvOk(Types())
  {
    var env := Types();
    assert TableOk(env, env[0]) && TableOk(env, env[1]);
  }

  lemma ExampleFits()
    ensures EnvOk(Types()) && ObjFits(Types(), 0, Example())
  {
    hide EnvOk, TableOk;
    TypesOk();
    var env, o := Types(), Example();
    assert StructFieldFits(env, 1, 0, 2);
    assert FieldFits(env, 0, o, 0) && FieldFits(env, 0, o, 1) && FieldFits(env, 0, o, 2);
    assert VectorFits(env, UChar, None, Scalars(1, [5, 6]), Before(o.fields, 3));
    assert FieldFits(env, 0, o, 3) && FieldFits(env, 0, o, 4);
  }

  lemma ExampleNumber()
    requires EnvOk(Types()) && ObjFits(Types(), 0, Example())
    ensures FieldEvents(Types(), 0, Example(), 0) == [Scalar(Int, 513)]
  {
    hide ObjFits;
    assert FieldFits(Types(), 0, Example(), 0);
    assert FromLE([1, 2, 0, 0]) == 513;
  }

  lemma ExampleTexts()
    requires EnvOk(Types()) && ObjFits(Types(), 0, Example())
    ensures FieldEvents(Types(), 0, Example(), 1) == []
    ensures FieldEvents(Types(), 0, Example(), 2) == [Text([104, 105])]
  {
    hide ObjFits;
    assert FieldFits(Types(), 0, Example(), 1) && FieldFits(Types(), 0, Example(), 2);
  }

  lemma ExampleVector()
    requires EnvOk(Types()) && ObjFits(Types(), 0, Example())
    ensures FieldEvents(Types(), 0, Example(), 3) ==
            [StartVector, Element(0, UChar, None), Scalar(UChar, 5), Element(1, UChar, None), Scalar(UChar, 6),
             EndVector]
  {
    hide ObjFits;
    var env, o, before := Types(), Scalars(1, [5, 6]), Before(Example().fields, 3);
    assert FieldFits(env, 0, Example(), 3);
    assert ElemsUpTo(env, UChar, None, o, before, 0) == [];
    assert ElemsUpTo(env, UChar, None, o, before, 1) == [Element(0, UChar, None), Scalar(UChar, 5)];
    assert ElemsUpTo(env, UChar, None, o, before, 2)
        == [Element(0, UChar, None), Scalar(UChar, 5)] + [Element(1, UChar, None), Scalar(UChar, 6)];
    assert FieldEvents(env, 0, Example(), 3) == VectorEvents(env, UChar, None, o, before);
  }

  lemma ExampleStruct()
    requires EnvOk(Types()) && ObjFits(Types(), 0, Example())
    ensures FieldEvents(Types(), 0, Example(), 4) ==
            [StartSequence, FieldSeen(0, 0, Short, false, None, true), Scalar(Short, 7), EndSequence]
  {
    hide ObjFits;
    var env, bytes := Types(), [9, 9, 7, 0];
    assert FieldFits(env, 0, Example(), 4);
    assert StructFits(env, 1, 2);
    StructPart(env, 1, 0, 2);
    assert bytes[2..4] == [7, 0] && FromLE([7, 0]) == 7;
    assert StructFieldEvents(env, 1, bytes, 0, 2) == [Scalar(Short, 7)];
    assert StructUpTo(env, 1, bytes, 1, 2) == [FieldSeen(0, 0, Short, false, None, true), Scalar(Short, 7)];
    assert FieldEvents(env, 0, Example(), 4) == StructEvents(env, 1, bytes, 2);
  }

  lemma ExamplePresent()
    ensures var fields := Example().fields;
            && PresentUpTo(fields, 0) == 0 && PresentUpTo(fields, 1) == 1 && PresentUpTo(fields, 2) == 1
            && PresentUpTo(fields, 3) == 2 && PresentUpTo(fields, 4) == 3
  {
  }

  lemma ExampleEvents()
    ensures EnvOk(Types()) && ObjFits(Types(), 0, Example())
    ensures ObjEvents(Types(), 0, Example()) ==
            [StartSequence,
             FieldSeen(0, 0, Int, false, None, true), Scalar(Int, 513),
             FieldSeen(1, 1, String, false, None, false),
             FieldSeen(2, 1, String, false, None, true), Text([104, 105]),
             FieldSeen(3, 2, UChar, true, None, true),
             StartVector, Element(0, UChar, None), Scalar(UChar, 5), Element(1, UChar, None), Scalar(UChar, 6),
             EndVector,
             FieldSeen(4, 3, Sequence, false, Some(1), true),
             StartSequence, FieldSeen(0, 0, Short, false, None, true), Scalar(Short, 7), EndSequence,
             EndSequence]
  {
    hide FieldEvents, ObjFits, PresentUpTo;
    ExampleFits();
    ExampleNumber();
    ExampleTexts();
    ExampleVector();
    ExampleStruct();
    ExamplePresent();
    var env, o := Types(), Example();
    assert FieldsUpTo(env, 0, o, 0) == [];
    assert FieldsUpTo(env, 0, o, 1) == [FieldSeen(0, 0, Int, false, None, true), Scalar(Int, 513)];
    assert FieldsUpTo(env, 0, o, 2) == FieldsUpTo(env, 0, o, 1) + [FieldSeen(1, 1, String, false, None, false)];
    assert FieldsUpTo(env, 0, o, 3)
        == FieldsUpTo(env, 0, o, 2) + [FieldSeen(2, 1, String, false, None, true), Text([104, 105])];
    assert FieldsUpTo(env, 0, o, 4)
        == FieldsUpTo(env, 0, o, 3) + ([FieldSeen(3, 2, UChar, true, None, true)] + FieldEvents(env, 0, o, 3));
    assert FieldsUpTo(env, 0, o, 5)
        == FieldsUpTo(env, 0, o, 4) + ([FieldSeen(4, 3, Sequence, false, Some(1), true)] + FieldEvents(env, 0, o, 4));
  }

  // ---------------------------------------------------------------- unions

  /** A table of a union and of a vector of unions, each behind its types; the union has a text as its member 3. */
  function Unions(): Env {
    [TypeTable(TableType,
               [TypeCode(UType, false, 0), TypeCode(Sequence, false, 0),
                TypeCode(UType, true, 0), TypeCode(Sequence, true, 0)],
               [1], None),
     TypeTable(UnionType, [TypeCode(Sequence, false, -1), TypeCode(String, false, -1)], [], Some([0, 3]))]
  }

  /** The second union of the vector has a type that is not listed. */
  function UnionExample(): Obj {
    Table(map[4 := Inline(1, [3]), 6 := Ref(Str([104])),
              8 := Ref(Scalars(1, [3, 7])), 10 := Ref(Offsets([Str([105]), Str([106])]))])
  }

  lemma UnionMembers()
    ensures Member(Unions()[1], 3) == Some(TypeCode(String, false, -1)) && Member(Unions()[1], 7) == None
  {
    assert LookupFrom(3, [0, 3], 1, 2) == 1 && LookupFrom(7, [0, 3], 1, 2) == LookupFrom(7, [0, 3], 2, 2) == -1;
  }

  lemma UnionsOk()
    ensures EnvOk(Unions())
  {
    assert TableOk(Unions(), Unions()[0]) && TableOk(Unions(), Unions()[1]);
  }

  lemma UnionRefsFit()
    requires EnvOk(Unions())
    ensures RefFits(Unions(), Sequence, Some(1), Str([104]), Some(3))
    ensures RefFits(Unions(), Sequence, Some(1), Str([105]), Some(3))
    ensures RefFits(Unions(), Sequence, Some(1), Str([106]), Some(7))
  {
    hide EnvOk, Member;
    UnionMembers();
  }

  lemma UnionVectorFits()
    requires EnvOk(Unions())
    ensures FieldFits(Unions(), 0, UnionExample(), 3)
  {
    hide EnvOk, RefFits;
    UnionRefsFit();
    var o, before := Offsets([Str([105]), Str([106])]), Before(UnionExample().fields, 3);
    assert TypesBefore(before) == Some([3, 7]);
    assert VectorFits(Unions(), Sequence, Some(1), o, before);
  }

  lemma UnionExampleFits()
    ensures EnvOk(Unions()) && ObjFits(Unions(), 0, UnionExample())
  {
    hide EnvOk, RefFits, VectorFits;
    UnionsOk();
    UnionRefsFit();
    UnionVectorFits();
    TypesFit();
    assert FieldFits(Unions(), 0, UnionExample(), 1);
  }

  lemma TypesFit()
    requires EnvOk(Unions())
    ensures FieldFits(Unions(), 0, UnionExample(), 0) && FieldFits(Unions(), 0, UnionExample(), 2)
  {
    hide EnvOk;
  }

  lemma UnionSeen()
    requires EnvOk(Unions()) && ObjFits(Unions(), 0, UnionExample())
    ensures FieldEvents(Unions(), 0, UnionExample(), 1) == [Text([104])]
  {
    hide ObjFits;
    UnionMembers();
    assert FieldFits(Unions(), 0, UnionExample(), 1);
  }

  lemma UnionVectorSeen()
    requires EnvOk(Unions()) && ObjFits(Unions(), 0, UnionExample())
    ensures FieldEvents(Unions(), 0, UnionExample(), 3) ==
            [StartVector, Element(0, Sequence, Some(1)), Text([105]), Element(1, Sequence, Some(1)), Unknown, EndVector]
  {
    hide ObjFits, Member;
    var env, o, before := Unions(), Offsets([Str([105]), Str([106])]), Before(UnionExample().fields, 3);
    UnionMembers();
    assert FieldFits(env, 0, UnionExample(), 3);
    assert VectorFits(env, Sequence, Some(1), o, before);
    assert ElemsUpTo(env, Sequence, Some(1), o, before, 0) == [];
    assert ElemsUpTo(env, Sequence, Some(1), o, before, 1) == [Element(0, Sequence, Some(1)), Text([105])];
    assert ElemsUpTo(env, Sequence, Some(1), o, before, 2)
        == [Element(0, Sequence, Some(1)), Text([105])] + [Element(1, Sequence, Some(1)), Unknown];
    assert FieldEvents(env, 0, UnionExample(), 3) == VectorEvents(env, Sequence, Some(1), o, before);
  }

  /** A union is told by the type in front of it, each union of a vector by its own. */
  lemma UnionEventsSeen()
    ensures EnvOk(Unions()) && ObjFits(Unions(), 0, UnionExample())
    ensures FieldEvents(Unions(), 0, UnionExample(), 1) == [Text([104])]
    ensures FieldEvents(Unions(), 0, UnionExample(), 3) ==
            [StartVector, Element(0, Sequence, Some(1)), Text([105]), Element(1, Sequence, Some(1)), Unknown, EndVector]
  {
    hide FieldEvents, ObjFits;
    UnionExampleFits();
    UnionSeen();
    UnionVectorSeen();
  }
}
