/** The verifier: checks of offsets, ranges and alignment over arbitrary bytes, before anything is read. */
module FlatVerifier {
  import opened Options
  import opened Bytes
  import opened VectorDownward
  import opened FlatReader

  /** What generated code knows about a field: its place in the vtable, its type, and whether it is required. */
  datatype FieldDecl = FieldDecl(field: nat, kind: Kind, required: bool)

  datatype Kind =
    | InlineData(size: nat)
    | StringRef
    | ScalarVector(size: nat)
    | StringVector
    | TableRef(table: nat)
    | TableVector(table: nat)

  /** The fields of each table type, in the order in which generated code verifies them. */
  type Schema = seq<seq<FieldDecl>>

  ghost predicate SchemaOk(schema: Schema) {
    forall t, i :: 0 <= t < |schema| && 0 <= i < |schema[t]| ==> DeclOk(schema, schema[t][i])
  }

  ghost predicate DeclOk(schema: Schema, d: FieldDecl) {
    && 4 <= d.field < 0xFFFE && d.field % 2 == 0
    && match d.kind
       case InlineData(size) => size > 0
       case ScalarVector(size) => IsAlignment(size)
       case TableRef(t) => t < |schema|
       case TableVector(t) => t < |schema|
       case _ => true
  }

  // ---------------------------------------------------------------- checks without state

  /** A range within the buffer; it may not be all of it. */
  predicate RangeOk(b: seq<byte>, elem: nat, elemLen: nat) {
    elemLen < |b| && elem <= |b| - elemLen
  }

  /** A range is refused, besides what does not fit, exactly when it covers the whole buffer. */
  lemma RangeRefused(b: seq<byte>, elem: nat, elemLen: nat)
    ensures RangeOk(b, elem, elemLen) <==> elem + elemLen <= |b| && elemLen < |b|
    ensures RangeOk(b, elem, elemLen) <==> elem + elemLen <= |b| && !(elem == 0 && elemLen == |b|)
  {
  }

  predicate AlignOk(elem: nat, size: nat, check: bool)
    requires IsAlignment(size)
  {
    Aligned(elem, size) || !check
  }

  predicate ScalarOk(b: seq<byte>, elem: nat, size: nat, check: bool)
    requires IsAlignment(size)
  {
    AlignOk(elem, size, check) && RangeOk(b, elem, size)
  }

  /** `FLATBUFFERS_MAX_BUFFER_SIZE / elem_size`. */
  function MaxElems(elemSize: nat): (m: nat)
    requires IsAlignment(elemSize)
  {
    if elemSize == 1 then MAX_BUFFER_SIZE
    else if elemSize == 2 then MAX_BUFFER_SIZE / 2
    else if elemSize == 4 then MAX_BUFFER_SIZE / 4
    else if elemSize == 8 then MAX_BUFFER_SIZE / 8
    else MAX_BUFFER_SIZE / 16
  }

  /** The end of a vector or string, if its length and all its elements are within the buffer. */
  function VectorEnd(b: seq<byte>, vec: nat, elemSize: nat, check: bool): Option<nat>
    requires IsAlignment(elemSize)
  {
    if !ScalarOk(b, vec, SIZEOF_UOFFSET, check) then None
    else
      var size := LE(b, vec, SIZEOF_UOFFSET);
      if size >= MaxElems(elemSize) then None
      else
        var byteSize := SIZEOF_UOFFSET + Stride(size, elemSize);
        if RangeOk(b, vec, byteSize) then Some(vec + byteSize) else None
  }

  /** A string must be followed by a NUL. */
  predicate StringOk(b: seq<byte>, str: nat, check: bool) {
    match VectorEnd(b, str, 1, check)
    case None => false
    case Some(end) => RangeOk(b, end, 1) && b[end] == 0
  }

  /** The offset at `start`, or 0 if it is null, negative as a signed number, or leads outside. */
  function CheckedOffset(b: seq<byte>, start: nat, check: bool): nat {
    if !ScalarOk(b, start, SIZEOF_UOFFSET, check) then 0
    else
      var o := LE(b, start, SIZEOF_UOFFSET);
      if o == 0 then 0
      else if o >= 0x8000_0000 then 0
      else if !RangeOk(b, start + o, 1) then 0
      else o
  }

  /** Subtraction of a signed 32-bit number on unsigned 64-bit words. */
  function WrappingMinus(a: nat, s: int): (r: nat)
    requires IsU64(a) && -0x8000_0000 <= s < 0x8000_0000
    ensures IsU64(r)
  {
    var d := a - s;
    if d < 0 then d + TWO_64 else if d >= TWO_64 then d - TWO_64 else d
  }

  /** The checks of VerifyTableStart, but for the limits. */
  predicate TableStartOk(b: seq<byte>, table: nat, check: bool)
    requires |b| < MAX_BUFFER_SIZE
  {
    ScalarOk(b, table, 4, check) &&
    var vtable := WrappingMinus(table, ReadInt32(b, table).GetOr(0));
    && ScalarOk(b, vtable, SIZEOF_VOFFSET, check)
    && AlignOk(LE(b, vtable, SIZEOF_VOFFSET), SIZEOF_VOFFSET, check)
    && RangeOk(b, vtable, LE(b, vtable, SIZEOF_VOFFSET))
  }

  /** What the wrapped subtraction finds is the address that the accessors compute. */
  lemma TableStartVTable(b: seq<byte>, table: nat, check: bool)
    requires |b| < MAX_BUFFER_SIZE && TableStartOk(b, table, check)
    ensures GetVTable(b, table).Some?
    ensures var vt := GetVTable(b, table).value;
            && 0 <= vt && ReadUInt(b, vt, 2).Some? && vt + ReadUInt(b, vt, 2).value <= |b|
            && (check ==> ReadUInt(b, vt, 2).value % 2 == 0)
  {
    hide FromLE;
  }

  /**
   * After VerifyTableStart the vtable can be read for every even field offset, if and only if the vtable's size
   * is even or a byte follows it. The check of evenness is switched off together with the checks of alignment.
   */
  lemma FieldOffsetsSafe(b: seq<byte>, table: nat, check: bool)
    requires |b| < MAX_BUFFER_SIZE && TableStartOk(b, table, check)
    ensures var vt := GetVTable(b, table).value;
            var n := ReadUInt(b, vt, 2).value;
            (forall f: nat :: f % 2 == 0 ==> GetOptionalFieldOffset(b, table, f).Some?) <==> n % 2 == 0 || vt + n < |b|
  {
    TableStartVTable(b, table, check);
    var vt := GetVTable(b, table).value;
    var n := ReadUInt(b, vt, 2).value;
    forall f: nat | f % 2 == 0
      ensures GetOptionalFieldOffset(b, table, f).Some? <==> f >= n || vt + f + 2 <= |b|
    {
    }
    if n % 2 == 1 && vt + n == |b| {
      assert GetOptionalFieldOffset(b, table, n - 1).None?;
    }
  }

  /** A buffer whose last byte is the middle of a field's offset passes when alignment is not checked. */
  lemma OddVTableEscapes()
    ensures var b := [251, 255, 255, 255, 0, 5, 0, 4, 0, 4];
            && TableStartOk(b, 0, false) && !TableStartOk(b, 0, true)
            && GetOptionalFieldOffset(b, 0, 4) == None
  {
    var b: seq<byte> := [251, 255, 255, 255, 0, 5, 0, 4, 0, 4];
    assert b[0..4] == [251, 255, 255, 255];
    FromLE4(b[0..4]);
    assert ReadInt32(b, 0) == Some(-5);
    assert b[5..7] == [5, 0];
    FromLE2(b[5..7]);
  }

  lemma FromLE2(s: seq<byte>)
    requires |s| == 2
    ensures FromLE(s) == s[0] as int + 256 * (s[1] as int)
  {
    assert FromLE(s[1..]) == s[1] + 256 * FromLE(s[1..][1..]);
  }

  lemma FromLE4(s: seq<byte>)
    requires |s| == 4
    ensures FromLE(s) == s[0] as int + 256 * (s[1] as int) + 65536 * (s[2] as int) + 16777216 * (s[3] as int)
  {
    FromLE2(s[2..]);
    assert s[1..][1..] == s[2..];
    assert FromLE(s[1..]) == s[1] + 256 * FromLE(s[2..]);
  }

  // ---------------------------------------------------------------- a whole buffer

  datatype Limits = Limits(maxDepth: nat, maxTables: nat, checkAlignment: bool)

  /** The verdict on a table at the given nesting depth, after `tables` tables: the new count, or failure. */
  ghost function Verdict(b: seq<byte>, schema: Schema, lim: Limits, t: nat, pos: nat, depth: nat, tables: nat)
    : Option<nat>
    requires |b| < MAX_BUFFER_SIZE && SchemaOk(schema) && t < |schema|
    decreases |b| - pos, 4, 0
  {
    if TableStartOk(b, pos, lim.checkAlignment) && depth + 1 <= lim.maxDepth && tables + 1 <= lim.maxTables then
      FieldsVerdict(b, schema, lim, t, 0, pos, depth + 1, tables + 1)
    else
      None
  }

  ghost function FieldsVerdict(b: seq<byte>, schema: Schema, lim: Limits, t: nat, i: nat, pos: nat, depth: nat,
                               tables: nat): Option<nat>
    requires |b| < MAX_BUFFER_SIZE && SchemaOk(schema) && t < |schema| && i <= |schema[t]|
    decreases |b| - pos, 3, |schema[t]| - i
  {
    if i == |schema[t]| then Some(tables)
    else
      match FieldVerdict(b, schema, lim, schema[t][i], pos, depth, tables)
      case None => None
      case Some(n) => FieldsVerdict(b, schema, lim, t, i + 1, pos, depth, n)
  }

  ghost function FieldVerdict(b: seq<byte>, schema: Schema, lim: Limits, d: FieldDecl, pos: nat, depth: nat,
                              tables: nat): Option<nat>
    requires |b| < MAX_BUFFER_SIZE && SchemaOk(schema) && DeclOk(schema, d)
    decreases |b| - pos, 2, 0
  {
    var fo := GetOptionalFieldOffset(b, pos, d.field).GetOr(0);
    if fo == 0 then (if d.required then None else Some(tables))
    else if d.kind.InlineData? then (if RangeOk(b, pos + fo, d.kind.size) then Some(tables) else None)
    else
      var o := CheckedOffset(b, pos + fo, lim.checkAlignment);
      if o == 0 then None else RefVerdict(b, schema, lim, d.kind, pos, pos + fo + o, depth, tables)
  }

  /** What a field refers to; it lies behind the table. */
  ghost function RefVerdict(b: seq<byte>, schema: Schema, lim: Limits, k: Kind, pos: nat, q: nat, depth: nat,
                            tables: nat): Option<nat>
    requires |b| < MAX_BUFFER_SIZE && SchemaOk(schema) && pos < q && q <= |b|
    requires (k.ScalarVector? ==> IsAlignment(k.size)) && (k.TableRef? || k.TableVector? ==> k.table < |schema|)
    decreases |b| - pos, 1, 0
  {
    match k
    case InlineData(_) => None
    case StringRef => if StringOk(b, q, lim.checkAlignment) then Some(tables) else None
    case ScalarVector(size) => if VectorEnd(b, q, size, lim.checkAlignment).Some? then Some(tables) else None
    case StringVector =>
      if VectorEnd(b, q, 4, lim.checkAlignment).Some? && StringsOk(b, q, lim.checkAlignment) then Some(tables) else None
    case TableRef(t) => Verdict(b, schema, lim, t, q, depth, tables)
    case TableVector(t) =>
      if VectorEnd(b, q, 4, lim.checkAlignment).Some? then ElemsVerdict(b, schema, lim, t, q, 0, depth, tables)
        else None
  }

  /** Every element leads to a well-formed string; the offsets themselves are not checked. */
  ghost predicate StringsOk(b: seq<byte>, vec: nat, check: bool) {
    var n := VectorSize(b, vec).GetOr(0);
    forall i :: 0 <= i < n ==> ElemAt(b, vec, i).Some? && StringOk(b, ElemAt(b, vec, i).value, check)
  }

  function ElemAt(b: seq<byte>, vec: nat, i: nat): (q: Option<nat>)
    ensures q.Some? ==> vec < q.value
  {
    VectorGetOffset(b, vec, i)
  }

  ghost function ElemsVerdict(b: seq<byte>, schema: Schema, lim: Limits, t: nat, vec: nat, i: nat, depth: nat,
                              tables: nat): Option<nat>
    requires |b| < MAX_BUFFER_SIZE && SchemaOk(schema) && t < |schema|
    decreases |b| - vec, 0, VectorSize(b, vec).GetOr(0) - i
  {
    if i >= VectorSize(b, vec).GetOr(0) then Some(tables)
    else if ElemAt(b, vec, i).None? then None
    else
      var q := ElemAt(b, vec, i).value;
      if q > |b| then None
      else
        match Verdict(b, schema, lim, t, q, depth, tables)
        case None => None
        case Some(n) => ElemsVerdict(b, schema, lim, t, vec, i + 1, depth, n)
  }

  // ---------------------------------------------------------------- the verifier's counters

  class Verifier {
    const buf: seq<byte>
    const lim: Limits
    var depth: nat
    var numTables: nat

    ghost predicate Valid() {
      |buf| < MAX_BUFFER_SIZE
    }

    constructor (buf: seq<byte>, lim: Limits)
      requires |buf| < MAX_BUFFER_SIZE
      ensures Valid() && this.buf == buf && this.lim == lim && depth == 0 && numTables == 0
    {
      this.buf, this.lim, depth, numTables := buf, lim, 0, 0;
    }

    /** Counts a table, and says whether the limits still hold. */
    method VerifyComplexity() returns (ok: bool)
      modifies this
      ensures depth == old(depth) + 1 && numTables == old(numTables) + 1
      ensures ok <==> depth <= lim.maxDepth && numTables <= lim.maxTables
    {
      depth := depth + 1;
      numTables := numTables + 1;
      ok := depth <= lim.maxDepth && numTables <= lim.maxTables;
    }

    method EndTable()
      requires depth > 0
      modifies this`depth
      ensures depth == old(depth) - 1
    {
      depth := depth - 1;
    }

    method VerifyTableStart(table: nat) returns (ok: bool)
      requires Valid()
      modifies this
      ensures ok <==> TableStartOk(buf, table, lim.checkAlignment) && old(depth) + 1 <= lim.maxDepth
                      && old(numTables) + 1 <= lim.maxTables
      ensures ok ==> depth == old(depth) + 1 && numTables == old(numTables) + 1
    {
      if !ScalarOk(buf, table, 4, lim.checkAlignment) {
        return false;
      }
      var vtableo := WrappingMinus(table, ReadInt32(buf, table).GetOr(0));
      ok := VerifyComplexity();
      if !ok || !ScalarOk(buf, vtableo, SIZEOF_VOFFSET, lim.checkAlignment) {
        return false;
      }
      var vtsize := LE(buf, vtableo, SIZEOF_VOFFSET);
      return AlignOk(vtsize, SIZEOF_VOFFSET, lim.checkAlignment) && RangeOk(buf, vtableo, vtsize);
    }

    /** A table and all it refers to, field by field as generated code does. */
    method VerifyTable(schema: Schema, t: nat, pos: nat) returns (ok: bool)
      requires Valid() && SchemaOk(schema) && t < |schema|
      modifies this
      ensures ok <==> Verdict(buf, schema, lim, t, pos, old(depth), old(numTables)).Some?
      ensures ok ==> depth == old(depth)
                     && Verdict(buf, schema, lim, t, pos, old(depth), old(numTables)) == Some(numTables)
      decreases |buf| - pos, 4
    {
      hide TableStartOk, FieldVerdict, DeclOk;
      ok := VerifyTableStart(pos);
      if !ok {
        return false;
      }
      ghost var verdict := FieldsVerdict(buf, schema, lim, t, 0, pos, depth, numTables);
      var i := 0;
      while i < |schema[t]|
        invariant 0 <= i <= |schema[t]| && depth == old(depth) + 1
        invariant FieldsVerdict(buf, schema, lim, t, i, pos, depth, numTables) == verdict
      {
        ok := VerifyField(schema, schema[t][i], pos);
        if !ok {
          return false;
        }
        i := i + 1;
      }
      EndTable();
      return true;
    }

    /** VerifyField, or VerifyOffset and then what the offset refers to. */
    method VerifyField(schema: Schema, d: FieldDecl, pos: nat) returns (ok: bool)
      requires Valid() && SchemaOk(schema) && DeclOk(schema, d)
      modifies this
      ensures ok <==> FieldVerdict(buf, schema, lim, d, pos, old(depth), old(numTables)).Some?
      ensures ok ==> depth == old(depth)
                     && FieldVerdict(buf, schema, lim, d, pos, old(depth), old(numTables)) == Some(numTables)
      decreases |buf| - pos, 2
    {
      hide RefVerdict;
      var fo := GetOptionalFieldOffset(buf, pos, d.field).GetOr(0);
      if fo == 0 {
        return !d.required;
      }
      if d.kind.InlineData? {
        return RangeOk(buf, pos + fo, d.kind.size);
      }
      var o := CheckedOffset(buf, pos + fo, lim.checkAlignment);
      if o == 0 {
        return false;
      }
      ok := VerifyRef(schema, d.kind, pos, pos + fo + o);
    }

    method VerifyRef(schema: Schema, k: Kind, ghost pos: nat, q: nat) returns (ok: bool)
      requires Valid() && SchemaOk(schema) && pos < q <= |buf|
      requires (k.ScalarVector? ==> IsAlignment(k.size)) && (k.TableRef? || k.TableVector? ==> k.table < |schema|)
      modifies this
      ensures ok <==> RefVerdict(buf, schema, lim, k, pos, q, old(depth), old(numTables)).Some?
      ensures ok ==> depth == old(depth)
                     && RefVerdict(buf, schema, lim, k, pos, q, old(depth), old(numTables)) == Some(numTables)
      decreases |buf| - pos, 1
    {
      hide Verdict, VectorEnd, StringOk, StringsOk, ElemsVerdict;
      match k {
        case InlineData(_) => ok := false;
        case StringRef => ok := StringOk(buf, q, lim.checkAlignment);
        case ScalarVector(size) => ok := VectorEnd(buf, q, size, lim.checkAlignment).Some?;
        case StringVector =>
          if VectorEnd(buf, q, 4, lim.checkAlignment).None? {
            return false;
          }
          ok := VerifyVectorOfStrings(q);
        case TableRef(t) => ok := VerifyTable(schema, t, q);
        case TableVector(t) =>
          if VectorEnd(buf, q, 4, lim.checkAlignment).None? {
            return false;
          }
          ok := VerifyVectorOfTables(schema, t, q);
      }
    }

    method VerifyVectorOfStrings(vec: nat) returns (ok: bool)
      ensures ok <==> StringsOk(buf, vec, lim.checkAlignment)
    {
      hide StringOk, VectorGetOffset;
      var n := VectorSize(buf, vec).GetOr(0);
      var i := 0;
      while i < n
        invariant 0 <= i <= n
        invariant forall j :: 0 <= j < i ==>
          ElemAt(buf, vec, j).Some? && StringOk(buf, ElemAt(buf, vec, j).value, lim.checkAlignment)
      {
        var str := ElemAt(buf, vec, i);
        if str.None? || !StringOk(buf, str.value, lim.checkAlignment) {
          return false;
        }
        i := i + 1;
      }
      return true;
    }

    method VerifyVectorOfTables(schema: Schema, t: nat, vec: nat) returns (ok: bool)
      requires Valid() && SchemaOk(schema) && t < |schema|
      modifies this
      ensures ok <==> ElemsVerdict(buf, schema, lim, t, vec, 0, old(depth), old(numTables)).Some?
      ensures ok ==> depth == old(depth)
                     && ElemsVerdict(buf, schema, lim, t, vec, 0, old(depth), old(numTables)) == Some(numTables)
      decreases |buf| - vec, 0
    {
      hide Verdict, VectorGetOffset;
      ghost var verdict := ElemsVerdict(buf, schema, lim, t, vec, 0, depth, numTables);
      var n := VectorSize(buf, vec).GetOr(0);
      var i := 0;
      while i < n
        invariant 0 <= i <= n && depth == old(depth)
        invariant ElemsVerdict(buf, schema, lim, t, vec, i, depth, numTables) == verdict
      {
        var table := ElemAt(buf, vec, i);
        if table.None? || table.value > |buf| {
          return false;
        }
        ok := VerifyTable(schema, t, table.value);
        if !ok {
          return false;
        }
        i := i + 1;
      }
      return true;
    }

    /** The root's offset, the identifier if one is expected, and the root table. */
    method VerifyBufferFromStart(identifier: Option<seq<byte>>, start: nat, schema: Schema, t: nat)
      returns (ok: Option<bool>)
      requires Valid() && SchemaOk(schema) && t < |schema|
      requires identifier.Some? ==> |identifier.value| == FILE_IDENTIFIER_LENGTH
      modifies this
      ensures ok == BufferResult(buf, schema, lim, t, identifier, start, old(depth), old(numTables))
    {
      hide HasIdentifier, CheckedOffset, Verdict;
      if identifier.Some? {
        if |buf| < 2 * SIZEOF_UOFFSET {
          return Some(false);
        }
        var same := HasIdentifier(buf, start, identifier.value);
        if same != Some(true) {
          return same;
        }
      }
      var o := CheckedOffset(buf, start, lim.checkAlignment);
      if o == 0 {
        return Some(false);
      }
      var verified := VerifyTable(schema, t, start + o);
      ok := Some(verified);
    }

    method VerifyBuffer(identifier: Option<seq<byte>>, schema: Schema, t: nat) returns (ok: Option<bool>)
      requires Valid() && SchemaOk(schema) && t < |schema|
      requires identifier.Some? ==> |identifier.value| == FILE_IDENTIFIER_LENGTH
      modifies this
      ensures ok == BufferResult(buf, schema, lim, t, identifier, 0, old(depth), old(numTables))
    {
      ok := VerifyBufferFromStart(identifier, 0, schema, t);
    }

    method VerifySizePrefixedBuffer(identifier: Option<seq<byte>>, schema: Schema, t: nat) returns (ok: Option<bool>)
      requires Valid() && SchemaOk(schema) && t < |schema|
      requires identifier.Some? ==> |identifier.value| == FILE_IDENTIFIER_LENGTH
      modifies this
      ensures ok == if !PrefixOk(buf, lim.checkAlignment) then Some(false)
                    else BufferResult(buf, schema, lim, t, identifier, SIZEOF_UOFFSET, old(depth), old(numTables))
    {
      if !PrefixOk(buf, lim.checkAlignment) {
        return Some(false);
      }
      ok := VerifyBufferFromStart(identifier, SIZEOF_UOFFSET, schema, t);
    }
  }

  /**
   * Whether the bytes after the root's offset are the identifier; None if the comparison leaves the buffer. A NUL in
   * both ends it early.
   */
  function HasIdentifier(b: seq<byte>, start: nat, identifier: seq<byte>): Option<bool>
    requires |identifier| == FILE_IDENTIFIER_LENGTH
  {
    var p := start + SIZEOF_UOFFSET;
    if p <= |b| then SameUpTo(b[p..], identifier, FILE_IDENTIFIER_LENGTH) else None
  }

  /** With all four bytes in the buffer, the comparison is of those four. */
  lemma IdentifierCompared(b: seq<byte>, start: nat, identifier: seq<byte>)
    requires |identifier| == FILE_IDENTIFIER_LENGTH && start + SIZEOF_UOFFSET + FILE_IDENTIFIER_LENGTH <= |b|
    ensures var p := start + SIZEOF_UOFFSET;
            HasIdentifier(b, start, identifier)
            == SameUpTo(b[p..p + FILE_IDENTIFIER_LENGTH], identifier, FILE_IDENTIFIER_LENGTH)
  {
    var p := start + SIZEOF_UOFFSET;
    SameUpToPrefix(b[p..], identifier, FILE_IDENTIFIER_LENGTH);
    assert b[p..][..FILE_IDENTIFIER_LENGTH] == b[p..p + FILE_IDENTIFIER_LENGTH];
  }

  /** The size in front counts the bytes that follow it. */
  predicate PrefixOk(b: seq<byte>, check: bool) {
    ScalarOk(b, 0, SIZEOF_UOFFSET, check) && LE(b, 0, SIZEOF_UOFFSET) == |b| - SIZEOF_UOFFSET
  }

  /** It is read at the start, where it is aligned in any case. */
  lemma PrefixStates(b: seq<byte>, check: bool)
    ensures PrefixOk(b, check) <==>
            SIZEOF_UOFFSET < |b| && ReadUInt(b, 0, SIZEOF_UOFFSET) == Some(|b| - SIZEOF_UOFFSET)
  {
  }

  /** What verifying the whole buffer says; None if it reads outside while it compares the identifier. */
  ghost function BufferResult(b: seq<byte>, schema: Schema, lim: Limits, t: nat, identifier: Option<seq<byte>>,
                              start: nat, depth: nat, tables: nat): Option<bool>
    requires |b| < MAX_BUFFER_SIZE && SchemaOk(schema) && t < |schema|
    requires identifier.Some? ==> |identifier.value| == FILE_IDENTIFIER_LENGTH
  {
    if identifier.Some? && |b| < 2 * SIZEOF_UOFFSET then Some(false)
    else
      var same :- if identifier.Some? then HasIdentifier(b, start, identifier.value) else Some(true);
      var o := CheckedOffset(b, start, lim.checkAlignment);
      Some(same && o != 0 && Verdict(b, schema, lim, t, start + o, depth, tables).Some?)
  }
}
