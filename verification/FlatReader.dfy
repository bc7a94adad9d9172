/** The accessors of a finished buffer. Addresses count from its first byte; `None` is a read outside it. */
module FlatReader {
  import opened Options
  import opened Bytes

  const SIZEOF_VOFFSET: nat := 2
  const SIZEOF_UOFFSET: nat := 4
  const FILE_IDENTIFIER_LENGTH: nat := 4

  /** A little-endian scalar of `n` bytes. */
  function ReadUInt(b: seq<byte>, p: int, n: nat): Option<nat> {
    if 0 <= p && p + n <= |b| then Some(FromLE(b[p..p + n])) else None
  }

  /** Two's complement on 32 bits. */
  function ToI32(u: nat): (i: int)
    requires u < 0x1_0000_0000
    ensures -0x8000_0000 <= i < 0x8000_0000 && (i - u) % 0x1_0000_0000 == 0
  {
    if u < 0x8000_0000 then u else u - 0x1_0000_0000
  }

  function OfI32(i: int): (u: nat)
    requires -0x8000_0000 <= i < 0x8000_0000
    ensures u < 0x1_0000_0000 && ToI32(u) == i
  {
    if i < 0 then i + 0x1_0000_0000 else i
  }

  function ReadInt32(b: seq<byte>, p: int): Option<int> {
    Powers();
    var u :- ReadUInt(b, p, 4);
    Some(ToI32(u))
  }

  // ---------------------------------------------------------------- tables

  function GetVTable(b: seq<byte>, table: int): Option<int> {
    var s :- ReadInt32(b, table);
    Some(table - s)
  }

  /** The offset of a field in the table, or 0 when it is absent or beyond the vtable. */
  function GetOptionalFieldOffset(b: seq<byte>, table: int, field: nat): Option<nat> {
    var vtable :- GetVTable(b, table);
    var vtsize :- ReadUInt(b, vtable, SIZEOF_VOFFSET);
    if field < vtsize then ReadUInt(b, vtable + field, SIZEOF_VOFFSET) else Some(0)
  }

  function GetField(b: seq<byte>, table: int, field: nat, size: nat, defaultVal: nat): Option<nat> {
    var offset :- GetOptionalFieldOffset(b, table, field);
    if offset != 0 then ReadUInt(b, table + offset, size) else Some(defaultVal)
  }

  /** `Some(None)` is the null pointer. */
  function GetPointer(b: seq<byte>, table: int, field: nat): Option<Option<int>> {
    var offset :- GetOptionalFieldOffset(b, table, field);
    if offset != 0 then
      var o :- ReadUInt(b, table + offset, SIZEOF_UOFFSET);
      Some(Some(table + offset + o))
    else
      Some(None)
  }

  function GetAddressOf(b: seq<byte>, table: int, field: nat): Option<Option<int>> {
    var offset :- GetOptionalFieldOffset(b, table, field);
    Some(if offset != 0 then Some(table + offset) else None)
  }

  /** Converts a field's index into its offset in the vtable, after the two sizes. */
  function FieldIndexToOffset(fieldId: nat): nat {
    (fieldId + 2) * SIZEOF_VOFFSET % 0x1_0000
  }

  // ---------------------------------------------------------------- vectors and strings

  /** `k` elements of `size` bytes. */
  function Stride(k: nat, size: nat): (n: nat)
    requires IsAlignment(size)
  {
    if size == 1 then k
    else if size == 2 then 2 * k
    else if size == 4 then 4 * k
    else if size == 8 then 8 * k
    else 16 * k
  }

  lemma StrideIs(k: nat, size: nat)
    requires IsAlignment(size)
    ensures Stride(k, size) == k * size && Stride(k + 1, size) == Stride(k, size) + size
  {
  }

  function VectorSize(b: seq<byte>, vec: int): Option<nat> {
    ReadUInt(b, vec, SIZEOF_UOFFSET)
  }

  function VectorData(vec: int): int { vec + SIZEOF_UOFFSET }

  /** The i-th scalar; the index is asserted to be in range. */
  function VectorGet(b: seq<byte>, vec: int, i: nat, size: nat): Option<nat>
    requires IsAlignment(size)
  {
    var n :- VectorSize(b, vec);
    if i < n then ReadUInt(b, VectorData(vec) + Stride(i, size), size) else None
  }

  /** The address that the i-th offset leads to. */
  function VectorGetOffset(b: seq<byte>, vec: int, i: nat): Option<int> {
    var n :- VectorSize(b, vec);
    if i < n then
      var p := VectorData(vec) + 4 * i;
      var o :- ReadUInt(b, p, SIZEOF_UOFFSET);
      Some(p + o)
    else
      None
  }

  /** The bytes of a string; its terminator is read as well. */
  function StringBytes(b: seq<byte>, str: int): Option<seq<byte>> {
    var n :- VectorSize(b, str);
    if VectorData(str) + n < |b| then Some(b[VectorData(str)..VectorData(str) + n]) else None
  }

  // ---------------------------------------------------------------- roots

  function GetRoot(b: seq<byte>, start: nat := 0): Option<int> {
    var o :- ReadUInt(b, start, SIZEOF_UOFFSET);
    Some(start + o)
  }

  function GetSizePrefixedRoot(b: seq<byte>): Option<int> {
    GetRoot(b, SIZEOF_UOFFSET)
  }

  function GetBufferIdentifier(b: seq<byte>, sizePrefixed: bool): Option<seq<byte>> {
    var p := if sizePrefixed then 2 * SIZEOF_UOFFSET else SIZEOF_UOFFSET;
    if p + FILE_IDENTIFIER_LENGTH <= |b| then Some(b[p..p + FILE_IDENTIFIER_LENGTH]) else None
  }

  // ---------------------------------------------------------------- growth at the front

  /** Bytes put in front move every address, and change nothing else. */
  lemma ReadGrows(front: seq<byte>, b: seq<byte>, p: int, n: nat)
    requires ReadUInt(b, p, n).Some?
    ensures ReadUInt(front + b, |front| + p, n) == ReadUInt(b, p, n)
  {
    assert (front + b)[|front| + p..|front| + p + n] == b[p..p + n];
  }

  lemma VTableGrows(front: seq<byte>, b: seq<byte>, table: int)
    requires GetVTable(b, table).Some?
    ensures GetVTable(front + b, |front| + table) == Some(|front| + GetVTable(b, table).value)
  {
    ReadGrows(front, b, table, 4);
  }

  lemma FieldOffsetGrows(front: seq<byte>, b: seq<byte>, table: int, field: nat)
    requires GetOptionalFieldOffset(b, table, field).Some?
    ensures GetOptionalFieldOffset(front + b, |front| + table, field) == GetOptionalFieldOffset(b, table, field)
  {
    VTableGrows(front, b, table);
    var vtable := GetVTable(b, table).value;
    ReadGrows(front, b, vtable, 2);
    if field < ReadUInt(b, vtable, 2).value {
      ReadGrows(front, b, vtable + field, 2);
    }
  }
}
