/** Reading back: what the accessors return on things that the builder stored. */
module FlatAccess {
  import opened Options
  import opened Bytes
  import opened FlatReader
  import opened FlatObject
  import opened FlatState

  // ---------------------------------------------------------------- tables

  lemma TableOffset(b: seq<byte>, off: nat, fields: map<nat, Field>, f: nat)
    requires Stored(b, off, Table(fields)) && IsField(f)
    ensures GetOptionalFieldOffset(b, |b| - off, f) == Some(FieldAt(b, off, f))
    ensures FieldAt(b, off, f) != 0 <==> f in fields
    ensures f in fields ==> FieldStored(b, off - FieldAt(b, off, f), fields[f])
  {
    hide GetOptionalFieldOffset, FieldStored, VTableStored;
    assert GetOptionalFieldOffset(b, |b| - off, f).Some?;
  }

  /** A scalar that was added reads as it was; its default plays no part. */
  lemma ScalarReadsBack(b: seq<byte>, off: nat, fields: map<nat, Field>, f: nat, size: nat, v: nat, def: nat)
    requires Stored(b, off, Table(fields)) && f in fields && v < Pow256(size)
    requires fields[f] == Inline(size, ToLE(v, size))
    ensures IsField(f) && GetField(b, |b| - off, f, size, def) == Some(v)
  {
    hide GetOptionalFieldOffset, VTableStored, FromLE, ToLE;
    assert IsField(f);
    TableOffset(b, off, fields, f);
    FromToLE(v, size);
  }

  /** A struct that was added is found, as it was, at the field's address. */
  lemma StructReadsBack(b: seq<byte>, off: nat, fields: map<nat, Field>, f: nat)
    requires Stored(b, off, Table(fields)) && f in fields && fields[f].Inline?
    ensures IsField(f) && GetAddressOf(b, |b| - off, f).Some? && GetAddressOf(b, |b| - off, f).value.Some?
    ensures HasBytes(b, GetAddressOf(b, |b| - off, f).value.value, fields[f].bytes)
  {
    hide GetOptionalFieldOffset, VTableStored;
    assert IsField(f);
    TableOffset(b, off, fields, f);
    HasBytesSlice(b, |b| - off + FieldAt(b, off, f), fields[f].bytes);
  }

  /** A field that was not added, or not written because it had its default, reads as the default or as null. */
  lemma AbsentReadsDefault(b: seq<byte>, off: nat, fields: map<nat, Field>, f: nat, size: nat, def: nat)
    requires Stored(b, off, Table(fields)) && IsField(f) && f !in fields
    ensures GetField(b, |b| - off, f, size, def) == Some(def)
    ensures GetPointer(b, |b| - off, f) == Some(None) && GetAddressOf(b, |b| - off, f) == Some(None)
  {
    hide GetOptionalFieldOffset, VTableStored;
    TableOffset(b, off, fields, f);
  }

  /** A field beyond the vtable, as of a newer schema, reads as the default without the table being touched. */
  lemma BeyondVTableReadsDefault(b: seq<byte>, off: nat, fields: map<nat, Field>, f: nat, size: nat, def: nat)
    requires Stored(b, off, Table(fields)) && f % 2 == 0
    requires ReadUInt(b, GetVTable(b, |b| - off).GetOr(0), 2).GetOr(0) <= f
    ensures GetField(b, |b| - off, f, size, def) == Some(def) && GetPointer(b, |b| - off, f) == Some(None)
    ensures f !in fields
  {
    assert VTableStored(b, off);
    assert GetOptionalFieldOffset(b, |b| - off, f) == Some(0);
    if f in fields {
      TableOffset(b, off, fields, f);
    }
  }

  /** The pointer of a reference leads to where its object is stored. */
  lemma RefReadsBack(b: seq<byte>, off: nat, fields: map<nat, Field>, f: nat)
    requires Stored(b, off, Table(fields)) && f in fields && fields[f].Ref?
    ensures IsField(f) && GetPointer(b, |b| - off, f).Some? && GetPointer(b, |b| - off, f).value.Some?
    ensures var q := GetPointer(b, |b| - off, f).value.value;
            |b| - off < q < |b| && Stored(b, |b| - q, fields[f].child)
  {
    hide GetOptionalFieldOffset, VTableStored;
    assert IsField(f);
    TableOffset(b, off, fields, f);
    var at := off - FieldAt(b, off, f);
    assert RefStored(b, at, fields[f].child);
    StoredWithin(b, at - ReadUInt(b, |b| - at, 4).value, fields[f].child);
  }

  // ---------------------------------------------------------------- strings and vectors

  /** A string has its bytes, embedded NULs included, and a NUL behind them. */
  lemma StringReadsBack(b: seq<byte>, off: nat, s: seq<byte>)
    requires Stored(b, off, Str(s))
    ensures StringBytes(b, |b| - off) == Some(s) && b[VectorData(|b| - off) + |s|] == 0
  {
  }

  lemma ScalarsReadBack(b: seq<byte>, off: nat, size: nat, elems: seq<nat>, i: nat)
    requires Stored(b, off, Scalars(size, elems)) && i < |elems|
    ensures VectorSize(b, |b| - off) == Some(|elems|) && IsScalarSize(size)
    ensures VectorGet(b, |b| - off, i, size) == Some(elems[i])
  {
  }

  /** The i-th offset leads to where the i-th object is stored. */
  lemma OffsetsReadBack(b: seq<byte>, off: nat, children: seq<Obj>, i: nat)
    requires Stored(b, off, Offsets(children)) && i < |children|
    ensures VectorSize(b, |b| - off) == Some(|children|) && VectorGetOffset(b, |b| - off, i).Some?
    ensures var q := VectorGetOffset(b, |b| - off, i).value;
            |b| - off < q < |b| && Stored(b, |b| - q, children[i])
  {
    assert RefStored(b, off - 4 - 4 * i, children[i]);
    hide Stored;
    var at := off - 4 - 4 * i;
    StoredWithin(b, at - ReadUInt(b, |b| - at, 4).value, children[i]);
  }

  // ---------------------------------------------------------------- alignment from the start

  /**
   * Counted from the start of the buffer, tables, vectors, strings and offsets lie at multiples of 4, vtables at
   * multiples of 2, and scalars and structs at multiples of their own alignment.
   */
  ghost predicate StartAligned(b: seq<byte>, off: int, o: Obj)
    decreases o, 2
  {
    && 0 <= off <= |b| && (|b| - off) % 4 == 0
    && match o
       case Str(_) => true
       case Scalars(size, elems) =>
         IsAlignment(size) && forall i :: 0 <= i < |elems| ==> Aligned(VectorData(|b| - off) + Stride(i, size), size)
       case Offsets(children) =>
         forall i :: 0 <= i < |children| ==> RefStartAligned(b, off - 4 - 4 * i, children[i])
       case Table(fields) =>
         && GetVTable(b, |b| - off).GetOr(0) % 2 == 0
         && forall f :: f in fields ==> FieldStartAligned(b, off - FieldAt(b, off, f), fields[f])
  }

  ghost predicate FieldStartAligned(b: seq<byte>, off: int, fld: Field)
    decreases fld, 1
  {
    && off <= |b|
    && match fld
       case Inline(align, _) => IsAlignment(align) && Aligned(|b| - off, align)
       case Ref(child) => RefStartAligned(b, off, child)
  }

  ghost predicate RefStartAligned(b: seq<byte>, off: int, child: Obj)
    decreases child, 3
  {
    off <= |b| && (|b| - off) % 4 == 0 && StartAligned(b, off - ReadUInt(b, |b| - off, 4).GetOr(0), child)
  }

  lemma Difference(n: nat, k: nat, s: nat, m: nat)
    requires IsAlignment(s) && IsAlignment(m) && s <= m && Aligned(n, m) && Aligned(k, s) && k <= n
    ensures Aligned(n - k, s)
  {
    AlignedDown(n, s, m);
  }

  lemma FourDifference(n: nat, k: nat, m: nat)
    requires IsAlignment(m) && m >= 4 && Aligned(n, m) && k % 4 == 0 && k <= n
    ensures (n - k) % 4 == 0
  {
    AlignedDown(n, 4, m);
  }

  lemma StrideAligned(n: nat, i: nat, s: nat)
    requires IsAlignment(s) && Aligned(n, s)
    ensures Aligned(n + Stride(i, s), s)
  {
  }

  lemma VTableEven(n: nat, vt: nat, m: nat)
    requires IsAlignment(m) && m >= 4 && Aligned(n, m) && vt <= n && (n - vt) % 2 == 0
    ensures vt % 2 == 0
  {
    AlignedDown(n, 4, m);
  }

  /**
   * Alignment was arranged from the end. Once the size of the whole is a multiple of the largest alignment, everything
   * that can be reached from a stored object is aligned from the start as well.
   */
  lemma {:induction false} AlignedFromStart(b: seq<byte>, off: int, o: Obj, m: nat)
    requires Stored(b, off, o) && AlignsWithin(o, m) && IsAlignment(m) && Aligned(|b|, m)
    ensures StartAligned(b, off, o)
    decreases o, 2
  {
    hide Aligned, Mask, IsAlignment, VectorGet, GetVTable, FieldStored, RefStored, StringStored, PresentExactly,
      FieldStartAligned, RefStartAligned, FieldAlignsWithin;
    FourDifference(|b|, off, m);
    match o {
      case Str(_) =>
      case Scalars(size, elems) => ScalarsAligned(b, off, size, elems, m);
      case Offsets(children) =>
        forall i | 0 <= i < |children|
          ensures RefStartAligned(b, off - 4 - 4 * i, children[i])
        {
          RefAligned(b, off - 4 - 4 * i, children[i], m);
        }
      case Table(fields) =>
        VTableEven(|b|, GetVTable(b, |b| - off).value, m);
        forall f | f in fields
          ensures FieldStartAligned(b, off - FieldAt(b, off, f), fields[f])
        {
          FieldAligned(b, off - FieldAt(b, off, f), fields[f], m);
        }
    }
  }

  lemma ScalarsAligned(b: seq<byte>, off: nat, size: nat, elems: seq<nat>, m: nat)
    requires ScalarsStored(b, off, size, elems) && size <= m && IsAlignment(m) && Aligned(|b|, m)
    ensures IsAlignment(size)
    ensures forall i :: 0 <= i < |elems| ==> Aligned(VectorData(|b| - off) + Stride(i, size), size)
  {
    hide Aligned, Mask, Stride, VectorGet;
    Difference(|b|, off - 4, size, m);
    var at := VectorData(|b| - off);
    assert at == |b| - (off - 4);
    forall i | 0 <= i < |elems|
      ensures Aligned(at + Stride(i, size), size)
    {
      StrideAligned(at, i, size);
    }
  }

  lemma {:induction false} FieldAligned(b: seq<byte>, off: int, fld: Field, m: nat)
    requires FieldStored(b, off, fld) && FieldAlignsWithin(fld, m) && IsAlignment(m) && m >= 4 && Aligned(|b|, m)
    ensures FieldStartAligned(b, off, fld)
    decreases fld, 1
  {
    match fld {
      case Inline(align, _) => Difference(|b|, off, align, m);
      case Ref(child) =>
        hide StartAligned, RefStored, RefStartAligned;
        RefAligned(b, off, child, m);
    }
  }

  lemma {:induction false} RefAligned(b: seq<byte>, off: int, child: Obj, m: nat)
    requires RefStored(b, off, child) && AlignsWithin(child, m) && IsAlignment(m) && m >= 4 && Aligned(|b|, m)
    ensures RefStartAligned(b, off, child) && off <= |b|
    decreases child, 3
  {
    hide Stored, StartAligned, AlignsWithin, Aligned, Mask;
    FourDifference(|b|, off, m);
    AlignedFromStart(b, off - ReadUInt(b, |b| - off, 4).value, child, m);
  }
}
