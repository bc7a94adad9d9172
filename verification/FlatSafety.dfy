/** What a passed verification buys the reader: every accessor that the schema allows stays within the buffer. */
module FlatSafety {
  import opened Options
  import opened Bytes
  import opened VectorDownward
  import opened FlatReader
  import opened FlatVerifier

  // ---------------------------------------------------------------- what reading needs

  ghost predicate StringReadable(b: seq<byte>, q: int) {
    && StringBytes(b, q).Some?
    && var end := VectorData(q) + |StringBytes(b, q).value|;
       0 <= end < |b| && b[end] == 0
  }

  ghost predicate ScalarsReadable(b: seq<byte>, q: int, size: nat)
    requires IsAlignment(size)
  {
    && VectorSize(b, q).Some?
    && forall i :: 0 <= i < VectorSize(b, q).value ==> VectorGet(b, q, i, size).Some?
  }

  ghost predicate StringsReadable(b: seq<byte>, q: int) {
    && VectorSize(b, q).Some?
    && forall i :: 0 <= i < VectorSize(b, q).value ==>
         VectorGetOffset(b, q, i).Some? && StringReadable(b, VectorGetOffset(b, q, i).value)
  }

  /** Every field of the table, and everything that can be reached through it, can be read. */
  ghost predicate Readable(b: seq<byte>, schema: Schema, t: nat, pos: nat)
    requires SchemaOk(schema) && t < |schema|
    decreases |b| - pos, 2, 0
  {
    && (forall f: nat :: f % 2 == 0 ==> GetOptionalFieldOffset(b, pos, f).Some?)
    && forall i :: 0 <= i < |schema[t]| ==> FieldReadable(b, schema, schema[t][i], pos)
  }

  ghost predicate FieldReadable(b: seq<byte>, schema: Schema, d: FieldDecl, pos: nat)
    requires SchemaOk(schema) && DeclOk(schema, d)
    decreases |b| - pos, 1, 1
  {
    && GetOptionalFieldOffset(b, pos, d.field).Some?
    && (d.required ==> GetOptionalFieldOffset(b, pos, d.field) != Some(0))
    && if d.kind.InlineData? then forall v: nat :: GetField(b, pos, d.field, d.kind.size, v).Some?
       else
         && GetPointer(b, pos, d.field).Some?
         && (GetPointer(b, pos, d.field).value.Some? ==>
               var q := GetPointer(b, pos, d.field).value.value;
               pos < q < |b| && RefReadable(b, schema, d.kind, pos, q))
  }

  ghost predicate RefReadable(b: seq<byte>, schema: Schema, k: Kind, pos: nat, q: nat)
    requires SchemaOk(schema) && pos < q < |b|
    requires (k.ScalarVector? ==> IsAlignment(k.size)) && (k.TableRef? || k.TableVector? ==> k.table < |schema|)
    decreases |b| - pos, 1, 0
  {
    match k
    case InlineData(_) => true
    case StringRef => StringReadable(b, q)
    case ScalarVector(size) => ScalarsReadable(b, q, size)
    case StringVector => StringsReadable(b, q)
    case TableRef(t) => Readable(b, schema, t, q)
    case TableVector(t) =>
      && VectorSize(b, q).Some?
      && forall i :: 0 <= i < VectorSize(b, q).value ==> ElemReadable(b, schema, t, q, i)
  }

  ghost predicate ElemReadable(b: seq<byte>, schema: Schema, t: nat, vec: nat, i: nat)
    requires SchemaOk(schema) && t < |schema|
    decreases |b| - vec, 0, 0
  {
    && ElemAt(b, vec, i).Some?
    && ElemAt(b, vec, i).value <= |b| && Readable(b, schema, t, ElemAt(b, vec, i).value)
  }

  // ---------------------------------------------------------------- each check, and the reads that it allows

  /** VerifyVectorOrString: the length and every element can be read. */
  lemma VectorSound(b: seq<byte>, vec: nat, size: nat, check: bool)
    requires IsAlignment(size) && VectorEnd(b, vec, size, check).Some?
    ensures ScalarsReadable(b, vec, size) && VectorSize(b, vec).Some?
    ensures VectorEnd(b, vec, size, check).value == VectorData(vec) + Stride(VectorSize(b, vec).value, size) <= |b|
  {
    var n := LE(b, vec, 4);
    forall i | 0 <= i < n
      ensures VectorGet(b, vec, i, size).Some?
    {
      StrideBelow(i, n, size);
    }
  }

  lemma StrideBelow(i: nat, n: nat, size: nat)
    requires IsAlignment(size) && i < n
    ensures Stride(i, size) + size <= Stride(n, size)
  {
  }

  /** VerifyString: the bytes can be read, and a NUL follows them. */
  lemma StringSound(b: seq<byte>, str: nat, check: bool)
    requires StringOk(b, str, check)
    ensures StringReadable(b, str)
  {
    hide FromLE;
    VectorSound(b, str, 1, check);
  }

  /** VerifyOffset: the offset can be read, and leads forward to a byte of the buffer. */
  lemma OffsetSound(b: seq<byte>, start: nat, check: bool)
    requires CheckedOffset(b, start, check) != 0
    ensures ReadUInt(b, start, 4) == Some(CheckedOffset(b, start, check))
    ensures start < start + CheckedOffset(b, start, check) < |b|
  {
  }

  lemma OffsetsSound(b: seq<byte>, vec: nat, check: bool, i: nat)
    requires VectorEnd(b, vec, 4, check).Some? && i < VectorSize(b, vec).GetOr(0)
    ensures VectorGetOffset(b, vec, i).Some? && ElemAt(b, vec, i) == VectorGetOffset(b, vec, i)
  {
    hide FromLE;
    VectorSound(b, vec, 4, check);
    StrideBelow(i, VectorSize(b, vec).value, 4);
  }

  // ---------------------------------------------------------------- exactly what each check passes

  /** A table start, in terms of what the accessors read there. */
  lemma StartPassesExactly(b: seq<byte>, table: nat, check: bool)
    requires |b| < MAX_BUFFER_SIZE
    ensures TableStartOk(b, table, check) <==>
            && 4 < |b| && GetVTable(b, table).Some? && 0 <= GetVTable(b, table).value
            && ReadUInt(b, GetVTable(b, table).value, 2).Some?
            && var vt, n := GetVTable(b, table).value, ReadUInt(b, GetVTable(b, table).value, 2).value;
               && n < |b| && vt + n <= |b|
               && (check ==> table % 4 == 0 && vt % 2 == 0 && n % 2 == 0)
  {
    hide FromLE;
  }

  /** An offset: in range, positive as a signed number, and leading to a byte of the buffer. */
  lemma OffsetPassesExactly(b: seq<byte>, start: nat, check: bool, o: nat)
    requires o != 0
    ensures CheckedOffset(b, start, check) == o <==>
            && 4 < |b| && ReadUInt(b, start, 4) == Some(o) && o < 0x8000_0000 && start + o < |b|
            && (check ==> start % 4 == 0)
  {
    hide FromLE;
  }

  /** A vector: all of it in the buffer, but not all of the buffer, and a size in bytes below 2 GB. */
  lemma VectorPassesExactly(b: seq<byte>, vec: nat, size: nat, check: bool)
    requires IsAlignment(size)
    ensures VectorEnd(b, vec, size, check).Some? <==>
            && VectorSize(b, vec).Some? && (check ==> vec % 4 == 0)
            && var n := VectorSize(b, vec).value;
               && Stride(n + 1, size) <= MAX_BUFFER_SIZE
               && VectorData(vec) + Stride(n, size) <= |b| && (vec == 0 ==> VectorData(vec) + Stride(n, size) < |b|)
  {
    hide FromLE;
  }

  /** A string: a vector of bytes with a NUL behind it. */
  lemma StringPassesExactly(b: seq<byte>, str: nat, check: bool)
    ensures StringOk(b, str, check) <==>
            && VectorEnd(b, str, 1, check).Some?
            && var end := VectorData(str) + VectorSize(b, str).GetOr(0);
               0 <= end < |b| && b[end] == 0
  {
    hide FromLE;
    if VectorEnd(b, str, 1, check).Some? {
      VectorSound(b, str, 1, check);
    }
  }

  // ---------------------------------------------------------------- the whole buffer

  /** Wherever the checks of a table start pass, the vtable's size is even or a byte follows the vtable. */
  ghost predicate SafeStarts(b: seq<byte>, check: bool)
    requires |b| < MAX_BUFFER_SIZE
  {
    forall pos: nat :: TableStartOk(b, pos, check) ==> VTableFollowed(b, pos)
  }

  ghost predicate VTableFollowed(b: seq<byte>, pos: nat) {
    && GetVTable(b, pos).Some? && ReadUInt(b, GetVTable(b, pos).value, 2).Some?
    && var vt, n := GetVTable(b, pos).value, ReadUInt(b, GetVTable(b, pos).value, 2).value;
       n % 2 == 0 || vt + n < |b|
  }

  /** The checks of alignment see to that. */
  lemma CheckedStartsSafe(b: seq<byte>)
    requires |b| < MAX_BUFFER_SIZE
    ensures SafeStarts(b, true)
  {
    hide TableStartOk;
    forall pos: nat | TableStartOk(b, pos, true)
      ensures VTableFollowed(b, pos)
    {
      TableStartVTable(b, pos, true);
    }
  }

  lemma FieldOffsetSound(b: seq<byte>, table: nat, f: nat, check: bool)
    requires |b| < MAX_BUFFER_SIZE && SafeStarts(b, check) && TableStartOk(b, table, check) && f % 2 == 0
    ensures GetOptionalFieldOffset(b, table, f).Some?
  {
    hide TableStartOk, GetOptionalFieldOffset;
    FieldOffsetsSafe(b, table, check);
    assert VTableFollowed(b, table);
  }

  /** If the verifier accepts a table, nothing that the schema lets a reader do from it leaves the buffer. */
  lemma {:induction false} VerdictSound(b: seq<byte>, schema: Schema, lim: Limits, t: nat, pos: nat, depth: nat,
                                        tables: nat)
    requires |b| < MAX_BUFFER_SIZE && SchemaOk(schema) && t < |schema| && SafeStarts(b, lim.checkAlignment)
    requires Verdict(b, schema, lim, t, pos, depth, tables).Some?
    ensures Readable(b, schema, t, pos)
    decreases |b| - pos, 4, 0
  {
    hide GetOptionalFieldOffset, FieldReadable, FieldVerdict, TableStartOk;
    forall f: nat | f % 2 == 0
      ensures GetOptionalFieldOffset(b, pos, f).Some?
    {
      FieldOffsetSound(b, pos, f, lim.checkAlignment);
    }
    FieldsSound(b, schema, lim, t, 0, pos, depth + 1, tables + 1);
  }

  lemma {:induction false} FieldsSound(b: seq<byte>, schema: Schema, lim: Limits, t: nat, i: nat, pos: nat,
                                       depth: nat, tables: nat)
    requires |b| < MAX_BUFFER_SIZE && SchemaOk(schema) && t < |schema| && i <= |schema[t]|
    requires SafeStarts(b, lim.checkAlignment)
    requires TableStartOk(b, pos, lim.checkAlignment) && FieldsVerdict(b, schema, lim, t, i, pos, depth, tables).Some?
    ensures forall j :: i <= j < |schema[t]| ==> FieldReadable(b, schema, schema[t][j], pos)
    decreases |b| - pos, 3, |schema[t]| - i
  {
    hide FieldReadable, FieldVerdict, TableStartOk;
    if i < |schema[t]| {
      var n := FieldVerdict(b, schema, lim, schema[t][i], pos, depth, tables);
      FieldSound(b, schema, lim, schema[t][i], pos, depth, tables);
      FieldsSound(b, schema, lim, t, i + 1, pos, depth, n.value);
    }
  }

  lemma {:induction false} FieldSound(b: seq<byte>, schema: Schema, lim: Limits, d: FieldDecl, pos: nat, depth: nat,
                                      tables: nat)
    requires |b| < MAX_BUFFER_SIZE && SchemaOk(schema) && DeclOk(schema, d) && SafeStarts(b, lim.checkAlignment)
    requires TableStartOk(b, pos, lim.checkAlignment) && FieldVerdict(b, schema, lim, d, pos, depth, tables).Some?
    ensures FieldReadable(b, schema, d, pos)
    decreases |b| - pos, 2, 0
  {
    hide GetOptionalFieldOffset, TableStartOk, CheckedOffset, RefReadable, RefVerdict;
    FieldOffsetSound(b, pos, d.field, lim.checkAlignment);
    var fo := GetOptionalFieldOffset(b, pos, d.field).value;
    if fo != 0 && !d.kind.InlineData? {
      OffsetSound(b, pos + fo, lim.checkAlignment);
      RefSound(b, schema, lim, d.kind, pos, pos + fo + CheckedOffset(b, pos + fo, lim.checkAlignment), depth, tables);
    }
  }

  lemma {:induction false} RefSound(b: seq<byte>, schema: Schema, lim: Limits, k: Kind, pos: nat, q: nat, depth: nat,
                                    tables: nat)
    requires |b| < MAX_BUFFER_SIZE && SchemaOk(schema) && SafeStarts(b, lim.checkAlignment) && pos < q < |b|
    requires (k.ScalarVector? ==> IsAlignment(k.size)) && (k.TableRef? || k.TableVector? ==> k.table < |schema|)
    requires RefVerdict(b, schema, lim, k, pos, q, depth, tables).Some?
    ensures RefReadable(b, schema, k, pos, q)
    decreases |b| - pos, 1, 0
  {
    hide VectorEnd, StringOk, StringReadable, ScalarsReadable, Readable, ElemReadable, FromLE;
    match k {
      case InlineData(_) =>
      case StringRef => StringSound(b, q, lim.checkAlignment);
      case ScalarVector(size) => VectorSound(b, q, size, lim.checkAlignment);
      case StringVector =>
        VectorSound(b, q, 4, lim.checkAlignment);
        StringsSound(b, q, lim.checkAlignment);
      case TableRef(t) => VerdictSound(b, schema, lim, t, q, depth, tables);
      case TableVector(t) =>
        VectorSound(b, q, 4, lim.checkAlignment);
        ElemsSound(b, schema, lim, t, q, 0, depth, tables);
    }
  }

  lemma StringsSound(b: seq<byte>, q: nat, check: bool)
    requires VectorEnd(b, q, 4, check).Some? && StringsOk(b, q, check) && VectorSize(b, q).Some?
    ensures StringsReadable(b, q)
  {
    hide VectorEnd, StringOk, StringReadable, VectorGetOffset, VectorSize;
    forall i | 0 <= i < VectorSize(b, q).value
      ensures VectorGetOffset(b, q, i).Some? && StringReadable(b, VectorGetOffset(b, q, i).value)
    {
      assert ElemAt(b, q, i).Some?;
      OffsetsSound(b, q, check, i);
      StringSound(b, ElemAt(b, q, i).value, check);
    }
  }

  lemma {:induction false} ElemsSound(b: seq<byte>, schema: Schema, lim: Limits, t: nat, vec: nat, i: nat, depth: nat,
                                      tables: nat)
    requires |b| < MAX_BUFFER_SIZE && SchemaOk(schema) && t < |schema| && SafeStarts(b, lim.checkAlignment)
    requires ElemsVerdict(b, schema, lim, t, vec, i, depth, tables).Some?
    ensures forall j :: i <= j < VectorSize(b, vec).GetOr(0) ==> ElemReadable(b, schema, t, vec, j)
    decreases |b| - vec, 0, VectorSize(b, vec).GetOr(0) - i
  {
    hide Readable, VectorSize, ElemAt, Verdict;
    if i < VectorSize(b, vec).GetOr(0) {
      var q := ElemAt(b, vec, i).value;
      VerdictSound(b, schema, lim, t, q, depth, tables);
      ElemsSound(b, schema, lim, t, vec, i + 1, depth, Verdict(b, schema, lim, t, q, depth, tables).value);
    }
  }

  /** Whatever passes can be read. */
  ghost predicate PassedReadable(b: seq<byte>, schema: Schema, lim: Limits, t: nat, pos: nat)
    requires |b| < MAX_BUFFER_SIZE && SchemaOk(schema) && t < |schema|
  {
    Verdict(b, schema, lim, t, pos, 0, 0).Some? ==> Readable(b, schema, t, pos)
  }

  /** Over all schemas, limits and tables, the verifier is sound for a buffer exactly when its table starts are safe. */
  lemma SoundExactly(b: seq<byte>, check: bool)
    requires |b| < MAX_BUFFER_SIZE
    ensures SafeStarts(b, check) <==>
            forall schema, lim: Limits, t: nat, pos: nat ::
              SchemaOk(schema) && t < |schema| && lim.checkAlignment == check ==>
                PassedReadable(b, schema, lim, t, pos)
  {
    hide TableStartOk, Readable, VTableFollowed, Verdict;
    if SafeStarts(b, check) {
      forall schema, lim: Limits, t: nat, pos: nat |
        SchemaOk(schema) && t < |schema| && lim.checkAlignment == check
        && Verdict(b, schema, lim, t, pos, 0, 0).Some?
        ensures Readable(b, schema, t, pos)
      {
        VerdictSound(b, schema, lim, t, pos, 0, 0);
      }
    } else {
      var pos: nat :| TableStartOk(b, pos, check) && !VTableFollowed(b, pos);
      UnsafePasses(b, pos, check);
      assert !PassedReadable(b, [[]], Limits(1, 1, check), 0, pos);
    }
  }

  /** The least schema and limits let an unsafe table start pass. */
  lemma UnsafePasses(b: seq<byte>, pos: nat, check: bool)
    requires |b| < MAX_BUFFER_SIZE && TableStartOk(b, pos, check) && !VTableFollowed(b, pos)
    ensures Verdict(b, [[]], Limits(1, 1, check), 0, pos, 0, 0).Some? && !Readable(b, [[]], 0, pos)
  {
    hide TableStartOk, GetOptionalFieldOffset;
    TableStartVTable(b, pos, check);
    FieldOffsetsSafe(b, pos, check);
  }

  /** An accepted buffer: the root is found, and everything below it can be read. */
  lemma BufferSound(b: seq<byte>, schema: Schema, lim: Limits, t: nat, identifier: Option<seq<byte>>, start: nat)
    requires |b| < MAX_BUFFER_SIZE && SchemaOk(schema) && t < |schema| && SafeStarts(b, lim.checkAlignment)
    requires identifier.Some? ==> |identifier.value| == FILE_IDENTIFIER_LENGTH
    requires BufferResult(b, schema, lim, t, identifier, start, 0, 0) == Some(true)
    ensures GetRoot(b, start).Some? && start < GetRoot(b, start).value < |b|
    ensures Readable(b, schema, t, GetRoot(b, start).value)
  {
    hide CheckedOffset, Readable, HasIdentifier, Verdict, SafeStarts;
    OffsetSound(b, start, lim.checkAlignment);
    VerdictSound(b, schema, lim, t, start + CheckedOffset(b, start, lim.checkAlignment), 0, 0);
  }

  /** A buffer that passes with an identifier has it, up to a NUL in it. */
  lemma IdentifierSound(b: seq<byte>, schema: Schema, lim: Limits, t: nat, identifier: seq<byte>, prefixed: bool,
                        depth: nat, tables: nat)
    requires |b| < MAX_BUFFER_SIZE && SchemaOk(schema) && t < |schema| && |identifier| == FILE_IDENTIFIER_LENGTH
    requires BufferResult(b, schema, lim, t, Some(identifier), if prefixed then SIZEOF_UOFFSET else 0, depth, tables)
          == Some(true)
    requires 12 <= |b| || !prefixed
    ensures GetBufferIdentifier(b, prefixed).Some?
    ensures 0 !in identifier ==> GetBufferIdentifier(b, prefixed) == Some(identifier)
  {
    hide CheckedOffset, Verdict, SameUpTo;
    var start := if prefixed then SIZEOF_UOFFSET else 0;
    var found := GetBufferIdentifier(b, prefixed).value;
    IdentifierCompared(b, start, identifier);
    if 0 !in identifier {
      SameUpToWhole(found, identifier);
    }
  }

  lemma {:induction false} SameUpToWhole(s: seq<byte>, t: seq<byte>)
    requires |s| == |t| && SameUpTo(s, t, |t|) == Some(true) && 0 !in t
    ensures s == t
  {
    if t != [] {
      assert t[0] in t;
      SameUpToWhole(s[1..], t[1..]);
      assert s == [s[0]] + s[1..] && t == [t[0]] + t[1..];
    }
  }

  /** Behind a size prefix the identifier's bytes can be outside a buffer that passes the checks made before. */
  lemma IdentifierEscapes(identifier: seq<byte>)
    requires |identifier| == FILE_IDENTIFIER_LENGTH
    ensures var b := [4, 0, 0, 0, 0, 0, 0, 0];
            && PrefixOk(b, true) && |b| >= 2 * SIZEOF_UOFFSET && GetBufferIdentifier(b, true) == None
            && HasIdentifier(b, SIZEOF_UOFFSET, identifier) == None
  {
    var b: seq<byte> := [4, 0, 0, 0, 0, 0, 0, 0];
    assert b[0..4] == [4, 0, 0, 0];
    FromLE4(b[0..4]);
    assert b[8..] == [];
  }

  /** The checks made before put the identifier in the buffer exactly when there are 12 bytes, or no size prefix. */
  lemma IdentifierCheckSuffices(b: seq<byte>, check: bool)
    requires |b| >= 2 * SIZEOF_UOFFSET
    ensures GetBufferIdentifier(b, false).Some?
    ensures PrefixOk(b, check) ==> (GetBufferIdentifier(b, true).Some? <==> |b| >= 12)
  {
  }

  /**
   * Verification reads outside the buffer while it compares the identifier exactly when the buffer is between 8 and 11
   * bytes behind a size prefix, and what is left of it begins the identifier without a NUL.
   */
  lemma OutsideExactly(b: seq<byte>, schema: Schema, lim: Limits, t: nat, identifier: seq<byte>, start: nat, depth: nat,
                       tables: nat)
    requires |b| < MAX_BUFFER_SIZE && SchemaOk(schema) && t < |schema| && |identifier| == FILE_IDENTIFIER_LENGTH
    requires start == 0 || start == SIZEOF_UOFFSET
    ensures BufferResult(b, schema, lim, t, Some(identifier), start, depth, tables) == None <==>
            start == SIZEOF_UOFFSET && 8 <= |b| < 12 && b[8..] <= identifier && 0 !in b[8..]
  {
    hide CheckedOffset, Verdict, SameUpTo;
    if |b| >= 8 {
      SameUpToLeaves(b[start + SIZEOF_UOFFSET..], identifier, FILE_IDENTIFIER_LENGTH);
    }
  }
}
