/** How EndTable turns the tracked fields of a table into a vtable, and what reading it back gives. */
module FlatVTable {
  import opened Options
  import opened Bytes
  import opened VectorDownward
  import opened FlatReader
  import opened FlatObject

  /** Where a field was written, counted from the end, and its place in the vtable. */
  datatype FieldLoc = FieldLoc(off: nat, id: nat)

  const SIZEOF_FIELD_LOC: nat := 8

  /** The record as it lies on the scratch stack; the last two bytes pad it. */
  function LocBytes(l: FieldLoc): (s: seq<byte>)
    ensures |s| == SIZEOF_FIELD_LOC
  {
    ToLE(l.off, 4) + ToLE(l.id, 2) + [0, 0]
  }

  function LocsBytes(locs: seq<FieldLoc>): (s: seq<byte>)
    ensures |s| == 8 * |locs|
  {
    if locs == [] then [] else LocsBytes(locs[..|locs| - 1]) + LocBytes(locs[|locs| - 1])
  }

  function OffsetsBytes(offs: seq<nat>): (s: seq<byte>)
    ensures |s| == 4 * |offs|
  {
    if offs == [] then [] else OffsetsBytes(offs[..|offs| - 1]) + ToLE(offs[|offs| - 1], 4)
  }

  lemma LocParts(l: FieldLoc)
    requires l.off < 0x1_0000_0000 && l.id < 0x1_0000
    ensures LE(LocBytes(l), 0, 4) == l.off && LE(LocBytes(l), 4, 2) == l.id
  {
    hide FromLE, ToLE, Pow256;
    assert LocBytes(l)[0..4] == ToLE(l.off, 4) && LocBytes(l)[4..6] == ToLE(l.id, 2);
    Powers();
    FromToLE(l.off, 4);
    FromToLE(l.id, 2);
  }

  lemma {:induction false} LocAt(locs: seq<FieldLoc>, i: nat)
    requires i < |locs|
    ensures HasBytes(LocsBytes(locs), 8 * i, LocBytes(locs[i]))
    decreases |locs|
  {
    hide LocBytes;
    var n := |locs| - 1;
    if i < n {
      LocAt(locs[..n], i);
    }
  }

  lemma {:induction false} OffsetAt(offs: seq<nat>, i: nat)
    requires i < |offs|
    ensures OffsetsBytes(offs)[4 * i..4 * i + 4] == ToLE(offs[i], 4)
    decreases |offs|
  {
    var n := |offs| - 1;
    if i < n {
      OffsetAt(offs[..n], i);
      assert OffsetsBytes(offs)[4 * i..4 * i + 4] == OffsetsBytes(offs[..n])[4 * i..4 * i + 4];
    }
  }

  lemma LocsSnoc(locs: seq<FieldLoc>, l: FieldLoc)
    ensures LocsBytes(locs + [l]) == LocsBytes(locs) + LocBytes(l)
  {
    assert (locs + [l])[..|locs|] == locs;
  }

  lemma OffsetsSnoc(offs: seq<nat>, o: nat)
    ensures OffsetsBytes(offs + [o]) == OffsetsBytes(offs) + ToLE(o, 4)
  {
    assert (offs + [o])[..|offs|] == offs;
  }

  /** Reading a record back from the scratch stack, above whatever lies below it. */
  lemma LocRead(below: seq<byte>, locs: seq<FieldLoc>, i: nat)
    requires i < |locs| && locs[i].off < 0x1_0000_0000 && locs[i].id < 0x1_0000
    ensures LE(below + LocsBytes(locs), |below| + 8 * i, 4) == locs[i].off
    ensures LE(below + LocsBytes(locs), |below| + 8 * i + 4, 2) == locs[i].id
  {
    hide LocsBytes, LocBytes, LE;
    var s, at := below + LocsBytes(locs), |below| + 8 * i;
    LocAt(locs, i);
    LocParts(locs[i]);
    LEPart(s, at, LocBytes(locs[i]), 0, 4);
    LEPart(s, at, LocBytes(locs[i]), 4, 2);
  }

  // ---------------------------------------------------------------- synthesis

  /** Fields lie within the table, at places of their own in a vtable of `n` bytes. */
  ghost predicate LocsOk(locs: seq<FieldLoc>, table: nat, n: nat) {
    && (forall i :: 0 <= i < |locs| ==>
      IsField(locs[i].id) && locs[i].id + 2 <= n && 0 < table - locs[i].off < 0x1_0000)
    && forall i, j :: 0 <= i < j < |locs| ==> locs[i].id != locs[j].id
  }

  ghost function EmptyVTable(n: nat, objectSize: nat): (v: seq<byte>)
    requires n >= 4
    ensures |v| == n
  {
    ToLE(n, 2) + ToLE(objectSize, 2) + Zeros(n - 4)
  }

  /** The vtable with the offsets of the first `k` fields written. */
  ghost function VTableUpTo(locs: seq<FieldLoc>, k: nat, table: nat, n: nat, objectSize: nat): (v: seq<byte>)
    requires k <= |locs| && LocsOk(locs, table, n) && n >= 4
    ensures |v| == n
  {
    if k == 0 then EmptyVTable(n, objectSize)
    else Overwrite(VTableUpTo(locs, k - 1, table, n, objectSize), locs[k - 1].id, ToLE(table - locs[k - 1].off, 2))
  }

  /** Filling with zeros, then writing the table's size and the vtable's own size. */
  lemma HeaderWritten(n: nat, objectSize: nat, rest: seq<byte>)
    requires n >= 4
    ensures Overwrite(Overwrite(Zeros(n) + rest, 2, ToLE(objectSize, 2)), 0, ToLE(n, 2))
         == EmptyVTable(n, objectSize) + rest
  {
    OverwriteLeft(Zeros(n), rest, 2, ToLE(objectSize, 2));
    OverwriteLeft(Overwrite(Zeros(n), 2, ToLE(objectSize, 2)), rest, 0, ToLE(n, 2));
    assert Overwrite(Overwrite(Zeros(n), 2, ToLE(objectSize, 2)), 0, ToLE(n, 2)) == EmptyVTable(n, objectSize);
  }

  lemma OverwriteApart(s: seq<byte>, at: nat, bytes: seq<byte>, f: nat, n: nat)
    requires at + |bytes| <= |s| && f + n <= |s| && (f + n <= at || at + |bytes| <= f)
    ensures Overwrite(s, at, bytes)[f..f + n] == s[f..f + n]
  {
  }

  lemma OverwriteHere(s: seq<byte>, at: nat, bytes: seq<byte>)
    requires at + |bytes| <= |s|
    ensures Overwrite(s, at, bytes)[at..at + |bytes|] == bytes
  {
  }

  lemma {:induction false} CellOfField(locs: seq<FieldLoc>, k: nat, table: nat, n: nat, objectSize: nat, i: nat)
    requires i < k <= |locs| && LocsOk(locs, table, n) && n >= 4
    ensures var f := locs[i].id;
            VTableUpTo(locs, k, table, n, objectSize)[f..f + 2] == ToLE(table - locs[i].off, 2)
  {
    hide Overwrite, EmptyVTable, ToLE;
    var v := VTableUpTo(locs, k - 1, table, n, objectSize);
    var cell := ToLE(table - locs[k - 1].off, 2);
    OverwriteHere(v, locs[k - 1].id, cell);
    if i < k - 1 {
      CellOfField(locs, k - 1, table, n, objectSize, i);
      OverwriteApart(v, locs[k - 1].id, cell, locs[i].id, 2);
    }
  }

  lemma {:induction false} CellElsewhere(locs: seq<FieldLoc>, k: nat, table: nat, n: nat, objectSize: nat, f: nat)
    requires k <= |locs| && LocsOk(locs, table, n) && n >= 4 && f + 2 <= n && f % 2 == 0
    requires forall i :: 0 <= i < k ==> locs[i].id != f
    ensures VTableUpTo(locs, k, table, n, objectSize)[f..f + 2] == EmptyVTable(n, objectSize)[f..f + 2]
  {
    hide Overwrite, EmptyVTable, ToLE;
    if k > 0 {
      CellElsewhere(locs, k - 1, table, n, objectSize, f);
      OverwriteApart(VTableUpTo(locs, k - 1, table, n, objectSize), locs[k - 1].id,
                     ToLE(table - locs[k - 1].off, 2), f, 2);
    }
  }

  /** Writing the next field's offset into the vtable at the front of the buffer. */
  lemma NextCell(locs: seq<FieldLoc>, k: nat, table: nat, n: nat, objectSize: nat, rest: seq<byte>)
    requires k < |locs| && LocsOk(locs, table, n) && n >= 4
    ensures var v, f := VTableUpTo(locs, k, table, n, objectSize), locs[k].id;
            && LE(v + rest, f, 2) == 0
            && Overwrite(v + rest, f, ToLE(table - locs[k].off, 2)) ==
              VTableUpTo(locs, k + 1, table, n, objectSize) + rest
  {
    hide Overwrite, FromLE, ToLE;
    var v, f := VTableUpTo(locs, k, table, n, objectSize), locs[k].id;
    CellElsewhere(locs, k, table, n, objectSize, f);
    SliceLeft(v, rest, f, 2);
    EmptyCell(n, objectSize, f);
    OverwriteLeft(v, rest, f, ToLE(table - locs[k].off, 2));
  }

  lemma EmptyCell(n: nat, objectSize: nat, f: nat)
    requires 4 <= f && f + 2 <= n
    ensures FromLE(EmptyVTable(n, objectSize)[f..f + 2]) == 0
  {
    ZerosRead(EmptyVTable(n, objectSize)[f..f + 2]);
  }

  lemma ZerosRead(z: seq<byte>)
    requires |z| == 2 && z[0] == 0 && z[1] == 0
    ensures FromLE(z) == 0
  {
    assert FromLE(z[1..]) == 0;
  }

  ghost function VTable(locs: seq<FieldLoc>, table: nat, n: nat, objectSize: nat): (v: seq<byte>)
    requires LocsOk(locs, table, n) && n >= 4
    ensures |v| == n
  {
    VTableUpTo(locs, |locs|, table, n, objectSize)
  }

  lemma VTableSize(locs: seq<FieldLoc>, table: nat, n: nat, objectSize: nat)
    requires LocsOk(locs, table, n) && 4 <= n < 0x1_0000
    ensures FromLE(VTable(locs, table, n, objectSize)[..2]) == n
  {
    Powers();
    CellElsewhere(locs, |locs|, table, n, objectSize, 0);
    hide VTableUpTo;
    assert EmptyVTable(n, objectSize)[0..2] == ToLE(n, 2);
    FromToLE(n, 2);
  }

  /** The offset of every tracked field can be read from the vtable; all other fields read as absent. */
  lemma VTableReads(locs: seq<FieldLoc>, table: nat, n: nat, objectSize: nat, f: nat)
    requires LocsOk(locs, table, n) && 4 <= n < 0x1_0000 && n % 2 == 0 && IsField(f) && f < n
    ensures var cell := FromLE(VTable(locs, table, n, objectSize)[f..f + 2]);
            && (forall i :: 0 <= i < |locs| && locs[i].id == f ==> cell == table - locs[i].off)
            && ((forall i :: 0 <= i < |locs| ==> locs[i].id != f) ==> cell == 0)
  {
    hide VTableUpTo;
    if i :| 0 <= i < |locs| && locs[i].id == f {
      CellOfField(locs, |locs|, table, n, objectSize, i);
      Powers();
      FromToLE(table - locs[i].off, 2);
    } else {
      CellElsewhere(locs, |locs|, table, n, objectSize, f);
      EmptyCell(n, objectSize, f);
    }
  }

  // ---------------------------------------------------------------- fields by their place

  ghost function FieldMap(locs: seq<FieldLoc>, flds: seq<Field>): map<nat, Field>
    requires |locs| == |flds|
  {
    if locs == [] then map[]
    else var n := |locs| - 1; FieldMap(locs[..n], flds[..n])[locs[n].id := flds[n]]
  }

  lemma {:induction false} FieldMapHas(locs: seq<FieldLoc>, flds: seq<Field>, table: nat, n: nat, i: nat)
    requires |locs| == |flds| && i < |locs| && LocsOk(locs, table, n)
    ensures locs[i].id in FieldMap(locs, flds) && FieldMap(locs, flds)[locs[i].id] == flds[i]
    decreases |locs|
  {
    var k := |locs| - 1;
    if i < k {
      FieldMapHas(locs[..k], flds[..k], table, n, i);
    }
  }

  lemma {:induction false} FieldMapOnly(locs: seq<FieldLoc>, flds: seq<Field>, f: nat) returns (i: nat)
    requires |locs| == |flds| && f in FieldMap(locs, flds)
    ensures i < |locs| && locs[i].id == f
    decreases |locs|
  {
    var k := |locs| - 1;
    if locs[k].id == f {
      i := k;
    } else {
      i := FieldMapOnly(locs[..k], flds[..k], f);
    }
  }

  // ---------------------------------------------------------------- the table reads back

  /** A vtable `vt` bytes before the end. */
  ghost predicate VTableAt(b: seq<byte>, vt: nat, v: seq<byte>) {
    && 4 <= |v| <= vt <= |b| && vt % 2 == 0 && |v| % 2 == 0 && |v| < 0x1_0000
    && HasBytes(b, |b| - vt, v) && FromLE(v[..2]) == |v|
  }

  lemma VTableAtGrows(front: seq<byte>, b: seq<byte>, vt: nat, v: seq<byte>)
    requires VTableAt(b, vt, v)
    ensures VTableAt(front + b, vt, v)
  {
  }

  lemma SubRead(b: seq<byte>, p: nat, v: seq<byte>, f: nat, n: nat)
    requires HasBytes(b, p, v) && f + n <= |v|
    ensures ReadUInt(b, p + f, n) == Some(FromLE(v[f..f + n]))
  {
    hide FromLE;
    HasBytesPart(b, p, v, f, n);
  }

  lemma TableVTable(b: seq<byte>, table: nat, vt: nat, v: seq<byte>)
    requires VTableAt(b, vt, v) && 4 <= table <= |b| < 0x8000_0000
    requires ReadUInt(b, |b| - table, 4) == Some(OfI32(vt - table))
    ensures GetVTable(b, |b| - table) == Some(|b| - vt) && VTableStored(b, table)
    ensures ReadUInt(b, |b| - vt, 2) == Some(|v|)
  {
    SubRead(b, |b| - vt, v, 0, 2);
  }

  lemma TableField(b: seq<byte>, table: nat, vt: nat, v: seq<byte>, f: nat)
    requires VTableAt(b, vt, v) && 4 <= table <= |b| < 0x8000_0000 && IsField(f)
    requires ReadUInt(b, |b| - table, 4) == Some(OfI32(vt - table))
    ensures GetOptionalFieldOffset(b, |b| - table, f) == Some(if f < |v| then FromLE(v[f..f + 2]) else 0)
  {
    TableVTable(b, table, vt, v);
    if f < |v| {
      SubRead(b, |b| - vt, v, f, 2);
    }
  }

  /** Closing a table: with its vtable anywhere in the buffer, every field reads as it was added. */
  lemma TableStored(b: seq<byte>, table: nat, vt: nat, n: nat, objectSize: nat, locs: seq<FieldLoc>, flds: seq<Field>)
    requires |locs| == |flds| && LocsOk(locs, table, n) && 4 <= n < 0x1_0000 && n % 2 == 0
    requires table % 4 == 0 && 4 <= table <= |b| < 0x8000_0000
    requires VTableAt(b, vt, VTable(locs, table, n, objectSize))
    requires ReadUInt(b, |b| - table, 4) == Some(OfI32(vt - table))
    requires forall i :: 0 <= i < |locs| ==> FieldStored(b, locs[i].off, flds[i])
    ensures Stored(b, table, Table(FieldMap(locs, flds)))
  {
    hide FieldStored, GetOptionalFieldOffset, VTableAt, ReadUInt, VTable, FieldMap;
    var v := VTable(locs, table, n, objectSize);
    var fields := FieldMap(locs, flds);
    TableVTable(b, table, vt, v);
    forall f | IsField(f)
      ensures var fo := GetOptionalFieldOffset(b, |b| - table, f);
              fo.Some? && (fo.value == 0 <==> f !in fields)
      ensures f in fields ==> FieldStored(b, table - FieldAt(b, table, f), fields[f])
    {
      FieldReads(b, table, vt, n, objectSize, locs, flds, f);
    }
    forall f | f in fields
      ensures IsField(f)
    {
      var i := FieldMapOnly(locs, flds, f);
    }
  }

  lemma FieldReads(b: seq<byte>, table: nat, vt: nat, n: nat, objectSize: nat, locs: seq<FieldLoc>, flds: seq<Field>,
                   f: nat)
    requires |locs| == |flds| && LocsOk(locs, table, n) && 4 <= n < 0x1_0000 && n % 2 == 0 && IsField(f)
    requires 4 <= table <= |b| < 0x8000_0000
    requires VTableAt(b, vt, VTable(locs, table, n, objectSize))
    requires ReadUInt(b, |b| - table, 4) == Some(OfI32(vt - table))
    requires forall i :: 0 <= i < |locs| ==> FieldStored(b, locs[i].off, flds[i])
    ensures var fo := GetOptionalFieldOffset(b, |b| - table, f);
            && fo.Some? && (fo.value == 0 <==> f !in FieldMap(locs, flds))
            && (fo.value != 0 ==> FieldStored(b, table - fo.value, FieldMap(locs, flds)[f]))
  {
    hide FieldStored, GetOptionalFieldOffset, VTableAt, ReadUInt, VTable;
    if f < n {
      VTableReads(locs, table, n, objectSize, f);
    }
    TableField(b, table, vt, VTable(locs, table, n, objectSize), f);
    if f in FieldMap(locs, flds) {
      var i := FieldMapOnly(locs, flds, f);
      FieldMapHas(locs, flds, table, n, i);
    } else {
      forall i | 0 <= i < |locs|
        ensures locs[i].id != f
      {
        FieldMapHas(locs, flds, table, n, i);
      }
    }
  }
}
