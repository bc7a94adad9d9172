/** What is stored in a buffer, as a tree of tables, vectors and strings. */
module FlatObject {
  import opened Options
  import opened Bytes
  import opened FlatReader

  /** A table's fields are keyed by their place in the vtable. */
  datatype Obj =
    | Str(s: seq<byte>)
    | Scalars(size: nat, elems: seq<nat>)
    | Offsets(children: seq<Obj>)
    | Table(fields: map<nat, Field>)

  /** Data kept in the table (a scalar or a struct), or a reference to an object. */
  datatype Field =
    | Inline(align: nat, bytes: seq<byte>)
    | Ref(child: Obj)

  /** Vtable places: even, after the two sizes. */
  predicate IsField(f: nat) { 4 <= f < 0xFFFE && f % 2 == 0 }

  predicate IsScalarSize(n: nat) { n == 1 || n == 2 || n == 4 || n == 8 }

  /** The object `o` is stored, aligned as counted from the end, `off` bytes before the end. */
  ghost predicate Stored(b: seq<byte>, off: int, o: Obj)
    decreases o, 1
  {
    && 4 <= off <= |b| && off % 4 == 0
    && match o
       case Str(s) => StringStored(b, off, s)
       case Scalars(size, elems) => ScalarsStored(b, off, size, elems)
       case Offsets(children) =>
         && VectorSize(b, |b| - off) == Some(|children|)
         && forall i :: 0 <= i < |children| ==> RefStored(b, off - 4 - 4 * i, children[i])
       case Table(fields) =>
         && VTableStored(b, off) && PresentExactly(b, off, fields.Keys)
         && forall f :: f in fields ==> FieldStored(b, off - FieldAt(b, off, f), fields[f])
  }

  /** The vtable has an offset for these fields, and for no others. */
  ghost predicate PresentExactly(b: seq<byte>, off: int, fields: set<nat>) {
    && (forall f :: f in fields ==> IsField(f))
    && forall f {:trigger GetOptionalFieldOffset(b, |b| - off, f)} :: IsField(f) ==>
         var fo := GetOptionalFieldOffset(b, |b| - off, f);
         fo.Some? && (fo.value == 0 <==> f !in fields)
  }

  /** The offset that the vtable gives for a field. */
  ghost function FieldAt(b: seq<byte>, off: int, f: nat): int {
    GetOptionalFieldOffset(b, |b| - off, f).GetOr(0)
  }

  ghost predicate StringStored(b: seq<byte>, off: int, s: seq<byte>) {
    && |s| + 5 <= off <= |b|
    && ReadUInt(b, |b| - off, 4) == Some(|s|)
    && b[|b| - off + 4..|b| - off + 4 + |s|] == s
    && b[|b| - off + 4 + |s|] == 0
  }

  ghost predicate ScalarsStored(b: seq<byte>, off: int, size: nat, elems: seq<nat>) {
    && IsScalarSize(size) && 4 <= off <= |b| && Aligned(off - 4, size)
    && VectorSize(b, |b| - off) == Some(|elems|)
    && forall i :: 0 <= i < |elems| ==> VectorGet(b, |b| - off, i, size) == Some(elems[i])
  }

  /** The table's vtable is within the buffer, and of even size at an even distance from its end. */
  ghost predicate VTableStored(b: seq<byte>, off: int) {
    && GetVTable(b, |b| - off).Some?
    && var vt := GetVTable(b, |b| - off).value;
       && 0 <= vt <= |b| && (|b| - vt) % 2 == 0
       && ReadUInt(b, vt, 2).Some?
       && var n := ReadUInt(b, vt, 2).value;
          4 <= n && n % 2 == 0 && vt + n <= |b|
  }

  ghost predicate FieldStored(b: seq<byte>, off: int, fld: Field)
    decreases fld, 0
  {
    match fld
    case Inline(align, bytes) =>
      && IsAlignment(align) && 1 <= |bytes| <= off <= |b| && Aligned(off, align)
      && b[|b| - off..|b| - off + |bytes|] == bytes
    case Ref(child) => RefStored(b, off, child)
  }

  /** An offset `off` bytes before the end that leads towards the end, to the child. */
  ghost predicate RefStored(b: seq<byte>, off: int, child: Obj)
    decreases child, 2
  {
    && 4 <= off <= |b| && off % 4 == 0
    && ReadUInt(b, |b| - off, 4).Some?
    && var u := ReadUInt(b, |b| - off, 4).value;
       0 < u <= off && Stored(b, off - u, child)
  }

  // ---------------------------------------------------------------- growth at the front

  /** Whatever is put in front of the buffer, what was stored stays stored at its distance from the end. */
  lemma {:induction false} StoredGrows(front: seq<byte>, b: seq<byte>, off: int, o: Obj)
    requires Stored(b, off, o)
    ensures Stored(front + b, off, o)
    decreases o, 1
  {
    hide StringStored, ScalarsStored, VTableStored, PresentExactly, GetOptionalFieldOffset, FieldStored, RefStored;
    var c := front + b;
    assert |c| - off == |front| + (|b| - off);
    match o {
      case Str(s) => StringGrows(front, b, off, s);
      case Scalars(size, elems) => ScalarsGrow(front, b, off, size, elems);
      case Offsets(children) =>
        ReadGrows(front, b, |b| - off, 4);
        forall i | 0 <= i < |children|
          ensures RefStored(c, off - 4 - 4 * i, children[i])
        {
          RefGrows(front, b, off - 4 - 4 * i, children[i]);
        }
      case Table(fields) =>
        VTableStoredGrows(front, b, off);
        PresentGrows(front, b, off, fields.Keys);
        forall f | f in fields
          ensures FieldStored(c, off - FieldAt(c, off, f), fields[f])
        {
          FieldAtGrows(front, b, off, fields.Keys, f);
          FieldGrows(front, b, off - FieldAt(b, off, f), fields[f]);
        }
    }
  }

  lemma PresentGrows(front: seq<byte>, b: seq<byte>, off: int, fields: set<nat>)
    requires PresentExactly(b, off, fields)
    ensures PresentExactly(front + b, off, fields)
  {
    hide GetOptionalFieldOffset;
    var c := front + b;
    assert |c| - off == |front| + (|b| - off);
    forall f | IsField(f)
      ensures GetOptionalFieldOffset(c, |c| - off, f) == GetOptionalFieldOffset(b, |b| - off, f)
    {
      assert GetOptionalFieldOffset(b, |b| - off, f).Some?;
      FieldOffsetGrows(front, b, |b| - off, f);
    }
  }

  lemma FieldAtGrows(front: seq<byte>, b: seq<byte>, off: int, fields: set<nat>, f: nat)
    requires PresentExactly(b, off, fields) && f in fields
    ensures FieldAt(front + b, off, f) == FieldAt(b, off, f)
  {
    hide GetOptionalFieldOffset;
    assert IsField(f);
    assert GetOptionalFieldOffset(b, |b| - off, f).Some?;
    FieldOffsetGrows(front, b, |b| - off, f);
    assert |front + b| - off == |front| + (|b| - off);
  }

  lemma StringGrows(front: seq<byte>, b: seq<byte>, off: int, s: seq<byte>)
    requires StringStored(b, off, s)
    ensures StringStored(front + b, off, s)
  {
    var c, p := front + b, |b| - off;
    ReadGrows(front, b, p, 4);
    assert c[|front| + p + 4..|front| + p + 4 + |s|] == b[p + 4..p + 4 + |s|];
  }

  lemma VectorGetGrows(front: seq<byte>, b: seq<byte>, vec: int, i: nat, size: nat)
    requires IsAlignment(size) && VectorGet(b, vec, i, size).Some?
    ensures VectorGet(front + b, |front| + vec, i, size) == VectorGet(b, vec, i, size)
  {
    ReadGrows(front, b, vec, 4);
    ReadGrows(front, b, VectorData(vec) + Stride(i, size), size);
  }

  lemma ScalarsGrow(front: seq<byte>, b: seq<byte>, off: int, size: nat, elems: seq<nat>)
    requires ScalarsStored(b, off, size, elems)
    ensures ScalarsStored(front + b, off, size, elems)
  {
    hide VectorGet, ReadUInt;
    var c, p := front + b, |b| - off;
    assert |c| - off == |front| + p;
    ReadGrows(front, b, p, 4);
    forall i | 0 <= i < |elems|
      ensures VectorGet(c, |c| - off, i, size) == Some(elems[i])
    {
      assert VectorGet(b, p, i, size) == Some(elems[i]);
      VectorGetGrows(front, b, p, i, size);
    }
  }

  lemma VTableStoredGrows(front: seq<byte>, b: seq<byte>, off: int)
    requires VTableStored(b, off)
    ensures VTableStored(front + b, off)
  {
    VTableGrows(front, b, |b| - off);
    ReadGrows(front, b, GetVTable(b, |b| - off).value, 2);
  }

  lemma {:induction false} FieldGrows(front: seq<byte>, b: seq<byte>, off: int, fld: Field)
    requires FieldStored(b, off, fld)
    ensures FieldStored(front + b, off, fld)
    decreases fld, 0
  {
    match fld {
      case Inline(align, bytes) =>
        var c, p := front + b, |b| - off;
        assert c[|front| + p..|front| + p + |bytes|] == b[p..p + |bytes|];
      case Ref(child) => RefGrows(front, b, off, child);
    }
  }

  lemma {:induction false} RefGrows(front: seq<byte>, b: seq<byte>, off: int, child: Obj)
    requires RefStored(b, off, child)
    ensures RefStored(front + b, off, child)
    decreases child, 2
  {
    ReadGrows(front, b, |b| - off, 4);
    StoredGrows(front, b, off - ReadUInt(b, |b| - off, 4).value, child);
  }
}
