/** What a passed verification says about alignment and size, when the checks of alignment are on. */
module FlatAlignment {
  import opened Options
  import opened Bytes
  import opened VectorDownward
  import opened FlatReader
  import opened FlatVerifier
  import opened FlatSafety

  // ---------------------------------------------------------------- where everything has to be

  /** The table, its vtable, and all that its fields lead to, are where their types may be. */
  ghost predicate TableAligned(b: seq<byte>, schema: Schema, t: nat, pos: nat)
    requires SchemaOk(schema) && t < |schema|
    decreases |b| - pos, 2, 0
  {
    && pos % 4 == 0 && GetVTable(b, pos).Some? && GetVTable(b, pos).value % 2 == 0
    && forall i :: 0 <= i < |schema[t]| ==> FieldAligned(b, schema, schema[t][i], pos)
  }

  /** A field's offset is a multiple of 4, and what it leads to lies behind the table. */
  ghost predicate FieldAligned(b: seq<byte>, schema: Schema, d: FieldDecl, pos: nat)
    requires SchemaOk(schema) && DeclOk(schema, d)
    decreases |b| - pos, 1, 1
  {
    !d.kind.InlineData? && GetPointer(b, pos, d.field).Some? && GetPointer(b, pos, d.field).value.Some? ==>
      && (pos + GetOptionalFieldOffset(b, pos, d.field).GetOr(0)) % 4 == 0
      && var q := GetPointer(b, pos, d.field).value.value;
         pos < q < |b| && RefAligned(b, schema, d.kind, pos, q)
  }

  ghost predicate RefAligned(b: seq<byte>, schema: Schema, k: Kind, pos: nat, q: nat)
    requires SchemaOk(schema) && pos < q < |b| && (k.TableRef? || k.TableVector? ==> k.table < |schema|)
    decreases |b| - pos, 1, 0
  {
    && q % 4 == 0
    && match k
       case StringVector =>
         forall i :: 0 <= i < VectorSize(b, q).GetOr(0) ==>
           VectorGetOffset(b, q, i).Some? && VectorGetOffset(b, q, i).value % 4 == 0
       case TableRef(t) => TableAligned(b, schema, t, q)
       case TableVector(t) =>
         forall i :: 0 <= i < VectorSize(b, q).GetOr(0) ==>
           var e := VectorGetOffset(b, q, i);
           e.Some? && q < e.value <= |b| && TableAligned(b, schema, t, e.value)
       case _ => true
  }

  // ---------------------------------------------------------------- the verifier sees to it

  /** The table start of an accepted table. */
  lemma StartAligned(b: seq<byte>, pos: nat)
    requires |b| < MAX_BUFFER_SIZE && TableStartOk(b, pos, true)
    ensures pos % 4 == 0 && GetVTable(b, pos).Some? && GetVTable(b, pos).value % 2 == 0
  {
    hide FromLE;
    TableStartVTable(b, pos, true);
  }

  /** If the verifier accepts a table with the checks of alignment on, all that is reached from it is aligned. */
  lemma {:induction false} VerdictAligned(b: seq<byte>, schema: Schema, lim: Limits, t: nat, pos: nat, depth: nat,
                                          tables: nat)
    requires |b| < MAX_BUFFER_SIZE && SchemaOk(schema) && t < |schema| && lim.checkAlignment
    requires Verdict(b, schema, lim, t, pos, depth, tables).Some?
    ensures TableAligned(b, schema, t, pos)
    decreases |b| - pos, 4, 0
  {
    hide FieldAligned, FieldVerdict, TableStartOk, GetVTable;
    StartAligned(b, pos);
    FieldsAligned(b, schema, lim, t, 0, pos, depth + 1, tables + 1);
  }

  lemma {:induction false} FieldsAligned(b: seq<byte>, schema: Schema, lim: Limits, t: nat, i: nat, pos: nat,
                                         depth: nat, tables: nat)
    requires |b| < MAX_BUFFER_SIZE && SchemaOk(schema) && t < |schema| && lim.checkAlignment && i <= |schema[t]|
    requires FieldsVerdict(b, schema, lim, t, i, pos, depth, tables).Some?
    ensures forall j :: i <= j < |schema[t]| ==> FieldAligned(b, schema, schema[t][j], pos)
    decreases |b| - pos, 3, |schema[t]| - i
  {
    hide FieldAligned, FieldVerdict;
    if i < |schema[t]| {
      var n := FieldVerdict(b, schema, lim, schema[t][i], pos, depth, tables);
      OneFieldAligned(b, schema, lim, schema[t][i], pos, depth, tables);
      FieldsAligned(b, schema, lim, t, i + 1, pos, depth, n.value);
    }
  }

  /** An accepted offset is itself aligned. */
  lemma OffsetAligned(b: seq<byte>, start: nat)
    requires CheckedOffset(b, start, true) != 0
    ensures start % 4 == 0
  {
  }

  lemma {:induction false} OneFieldAligned(b: seq<byte>, schema: Schema, lim: Limits, d: FieldDecl, pos: nat,
                                           depth: nat, tables: nat)
    requires |b| < MAX_BUFFER_SIZE && SchemaOk(schema) && DeclOk(schema, d) && lim.checkAlignment
    requires FieldVerdict(b, schema, lim, d, pos, depth, tables).Some?
    ensures FieldAligned(b, schema, d, pos)
    decreases |b| - pos, 2, 0
  {
    hide GetOptionalFieldOffset, CheckedOffset, RefAligned, RefVerdict;
    var fo := GetOptionalFieldOffset(b, pos, d.field).GetOr(0);
    if fo != 0 && !d.kind.InlineData? {
      OffsetAligned(b, pos + fo);
      OffsetSound(b, pos + fo, true);
      OneRefAligned(b, schema, lim, d.kind, pos, pos + fo + CheckedOffset(b, pos + fo, true), depth, tables);
    }
  }

  lemma LengthAligned(b: seq<byte>, vec: nat, size: nat)
    requires IsAlignment(size) && VectorEnd(b, vec, size, true).Some?
    ensures vec % 4 == 0
  {
  }

  lemma StringAligned(b: seq<byte>, str: nat)
    requires StringOk(b, str, true)
    ensures str % 4 == 0
  {
    LengthAligned(b, str, 1);
  }

  lemma {:induction false} OneRefAligned(b: seq<byte>, schema: Schema, lim: Limits, k: Kind, pos: nat, q: nat,
                                         depth: nat, tables: nat)
    requires |b| < MAX_BUFFER_SIZE && SchemaOk(schema) && lim.checkAlignment && pos < q < |b|
    requires (k.ScalarVector? ==> IsAlignment(k.size)) && (k.TableRef? || k.TableVector? ==> k.table < |schema|)
    requires RefVerdict(b, schema, lim, k, pos, q, depth, tables).Some?
    ensures RefAligned(b, schema, k, pos, q)
    decreases |b| - pos, 1, 0
  {
    hide VectorEnd, StringOk, TableAligned, FromLE, VectorGetOffset, VectorSize;
    match k {
      case InlineData(_) =>
      case StringRef => StringAligned(b, q);
      case ScalarVector(size) => LengthAligned(b, q, size);
      case StringVector =>
        LengthAligned(b, q, 4);
        forall i | 0 <= i < VectorSize(b, q).GetOr(0)
          ensures VectorGetOffset(b, q, i).Some? && VectorGetOffset(b, q, i).value % 4 == 0
        {
          assert ElemAt(b, q, i).Some?;
          StringAligned(b, ElemAt(b, q, i).value);
        }
      case TableRef(t) =>
        VerdictAligned(b, schema, lim, t, q, depth, tables);
        TableStart(b, schema, t, q);
      case TableVector(t) =>
        LengthAligned(b, q, 4);
        ElemsAligned(b, schema, lim, t, q, 0, depth, tables);
    }
  }

  lemma TableStart(b: seq<byte>, schema: Schema, t: nat, pos: nat)
    requires SchemaOk(schema) && t < |schema| && TableAligned(b, schema, t, pos)
    ensures pos % 4 == 0
  {
  }

  lemma {:induction false} ElemsAligned(b: seq<byte>, schema: Schema, lim: Limits, t: nat, vec: nat, i: nat,
                                        depth: nat, tables: nat)
    requires |b| < MAX_BUFFER_SIZE && SchemaOk(schema) && t < |schema| && lim.checkAlignment
    requires ElemsVerdict(b, schema, lim, t, vec, i, depth, tables).Some?
    ensures forall j :: i <= j < VectorSize(b, vec).GetOr(0) ==>
              var e := VectorGetOffset(b, vec, j);
              e.Some? && vec < e.value <= |b| && TableAligned(b, schema, t, e.value)
    decreases |b| - vec, 0, VectorSize(b, vec).GetOr(0) - i
  {
    hide TableAligned, VectorSize, VectorGetOffset, Verdict;
    if i < VectorSize(b, vec).GetOr(0) {
      var q := ElemAt(b, vec, i).value;
      VerdictAligned(b, schema, lim, t, q, depth, tables);
      ElemsAligned(b, schema, lim, t, vec, i + 1, depth, Verdict(b, schema, lim, t, q, depth, tables).value);
    }
  }

  /** The whole buffer: the root's offset and the root too. */
  lemma BufferAligned(b: seq<byte>, schema: Schema, lim: Limits, t: nat, identifier: Option<seq<byte>>, start: nat)
    requires |b| < MAX_BUFFER_SIZE && SchemaOk(schema) && t < |schema| && lim.checkAlignment
    requires identifier.Some? ==> |identifier.value| == FILE_IDENTIFIER_LENGTH
    requires BufferResult(b, schema, lim, t, identifier, start, 0, 0) == Some(true)
    ensures start % 4 == 0 && GetRoot(b, start).Some? && start < GetRoot(b, start).value < |b|
    ensures TableAligned(b, schema, t, GetRoot(b, start).value)
  {
    hide CheckedOffset, TableAligned, HasIdentifier, Verdict;
    OffsetAligned(b, start);
    OffsetSound(b, start, true);
    VerdictAligned(b, schema, lim, t, start + CheckedOffset(b, start, true), 0, 0);
  }

  /** Fourteen bytes, with a table of no fields at the odd address 5 and its vtable at 10. */
  function OddTable(): (b: seq<byte>)
    ensures |b| == 14
  {
    [5, 0, 0, 0, 0, 251, 255, 255, 255, 0, 4, 0, 4, 0]
  }

  lemma OddTableNumbers()
    ensures ReadUInt(OddTable(), 0, 4) == Some(5)
    ensures ReadInt32(OddTable(), 5) == Some(-5)
    ensures ReadUInt(OddTable(), 10, 2) == Some(4)
  {
    var b := OddTable();
    assert b[0..4] == [5, 0, 0, 0] && b[5..9] == [251, 255, 255, 255] && b[10..12] == [4, 0];
    FromLE4(b[0..4]);
    FromLE4(b[5..9]);
    FromLE2(b[10..12]);
  }

  /** A table at an odd address is refused with the checks of alignment, and only with them. */
  lemma OddTableRefused()
    ensures BufferResult(OddTable(), [[]], Limits(64, 1_000_000, true), 0, None, 0, 0, 0) == Some(false)
    ensures BufferResult(OddTable(), [[]], Limits(64, 1_000_000, false), 0, None, 0, 0, 0) == Some(true)
  {
    hide FromLE, OddTable;
    var b := OddTable();
    OddTableNumbers();
    assert CheckedOffset(b, 0, true) == CheckedOffset(b, 0, false) == 5;
    assert TableStartOk(b, 5, false) && !TableStartOk(b, 5, true);
  }
}
