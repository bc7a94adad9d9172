/** The FlexBuffers accessors. A position is an index into the buffer; `None` is a read outside it. */
module FlexReader {
  import opened Options
  import opened Bytes
  import opened FlexTypes

  datatype Reference = Reference(data: int, parentWidth: nat, byteWidth: nat, ty: Type)

  /** `Reference(nullptr, 1, NullPackedType())`. */
  const NULL_REFERENCE := Reference(-1, 1, 1, FBT_NULL)

  datatype TypedVector = TypedVector(data: int, byteWidth: nat, ty: Type)

  // ---------------------------------------------------------------- scalars

  /** `ReadSizedScalar` picks the widest scalar not wider than the width. */
  function ScalarSize(byteWidth: nat): nat {
    if byteWidth < 4 then (if byteWidth < 2 then 1 else 2)
    else (if byteWidth < 8 then 4 else 8)
  }

  /** The largest of the four sizes that is not above the width, or one byte. */
  lemma ScalarSizeIsLargest(w: nat, s: nat)
    requires s in {1, 2, 4, 8}
    ensures ScalarSize(w) in {1, 2, 4, 8} && (w > 0 ==> ScalarSize(w) <= w) && (s <= w ==> s <= ScalarSize(w))
  {
  }

  function ReadBytes(b: seq<byte>, pos: int, n: nat): (r: Option<seq<byte>>)
    ensures r.Some? <==> 0 <= pos && pos + n <= |b|
    ensures r.Some? ==> r.value == b[pos..pos + n]
  {
    if 0 <= pos && pos + n <= |b| then Some(b[pos..pos + n]) else None
  }

  function ReadUInt64(b: seq<byte>, pos: int, byteWidth: nat): (r: Option<nat>)
    ensures r.Some? ==> IsU64(r.value)
  {
    var s :- ReadBytes(b, pos, ScalarSize(byteWidth));
    Powers();
    Some(FromLE(s))
  }

  /** The same bytes with the sign extended. */
  function ReadInt64(b: seq<byte>, pos: int, byteWidth: nat): (r: Option<int>)
    ensures r.Some? ==> IsI64(r.value)
  {
    var u :- ReadUInt64(b, pos, byteWidth);
    Powers();
    var m := Pow256(ScalarSize(byteWidth));
    Some(if 2 * u < m then u else u - m)
  }

  function Indirect(b: seq<byte>, pos: int, byteWidth: nat): Option<int> {
    var off :- ReadUInt64(b, pos, byteWidth);
    Some(pos - off)
  }

  /** The bytes of a C string, up to its terminator. */
  function CStr(b: seq<byte>, pos: int): Option<seq<byte>>
    decreases |b| - pos
  {
    if pos < 0 || pos >= |b| then None
    else if b[pos] == 0 then Some([])
    else
      var rest :- CStr(b, pos + 1);
      Some([b[pos]] + rest)
  }

  // ---------------------------------------------------------------- scalars behind a reference

  function Target(b: seq<byte>, r: Reference): Option<int> {
    Indirect(b, r.data, r.parentWidth)
  }

  /** `AsInt64`, for the types this model has. */
  function AsInt64(b: seq<byte>, r: Reference): Option<int> {
    if r.ty == FBT_INT || r.ty == FBT_BOOL then ReadInt64(b, r.data, r.parentWidth)
    else if r.ty == FBT_INDIRECT_INT then
      var p :- Target(b, r);
      ReadInt64(b, p, r.byteWidth)
    else if r.ty == FBT_UINT then
      var u :- ReadUInt64(b, r.data, r.parentWidth);
      Some(ToI64(u))
    else if r.ty == FBT_INDIRECT_UINT then
      var p :- Target(b, r);
      var u :- ReadUInt64(b, p, r.byteWidth);
      Some(ToI64(u))
    else if r.ty == FBT_VECTOR then
      var v :- AsVector(b, r);
      var n :- SizeAt(b, v.0, v.1);
      Some(ToI64(n))
    else Some(0)
  }

  /** `AsUInt64`, for the types this model has. */
  function AsUInt64(b: seq<byte>, r: Reference): Option<nat> {
    if r.ty == FBT_UINT || r.ty == FBT_BOOL then ReadUInt64(b, r.data, r.parentWidth)
    else if r.ty == FBT_INDIRECT_UINT then
      var p :- Target(b, r);
      ReadUInt64(b, p, r.byteWidth)
    else if r.ty == FBT_INT then
      var i :- ReadInt64(b, r.data, r.parentWidth);
      Some(ToU64(i))
    else if r.ty == FBT_INDIRECT_INT then
      var p :- Target(b, r);
      var i :- ReadInt64(b, p, r.byteWidth);
      Some(ToU64(i))
    else if r.ty == FBT_VECTOR then
      var v :- AsVector(b, r);
      SizeAt(b, v.0, v.1)
    else Some(0)
  }

  function AsBool(b: seq<byte>, r: Reference): Option<bool> {
    var u :- if r.ty == FBT_BOOL then ReadUInt64(b, r.data, r.parentWidth) else AsUInt64(b, r);
    Some(u != 0)
  }

  // ---------------------------------------------------------------- strings, blobs, vectors

  /** `Sized::read_size`: the size stored in the `byteWidth` bytes before the data. */
  function SizeAt(b: seq<byte>, data: int, byteWidth: nat): (r: Option<nat>)
    ensures r.Some? ==> IsU64(r.value)
  {
    ReadUInt64(b, data - byteWidth, byteWidth)
  }

  /** The contents of a string or a blob. */
  function SizedBytes(b: seq<byte>, data: int, byteWidth: nat): Option<seq<byte>> {
    var n :- SizeAt(b, data, byteWidth);
    ReadBytes(b, data, n)
  }

  function AsKey(b: seq<byte>, r: Reference): Option<seq<byte>> {
    if r.ty == FBT_KEY || r.ty == FBT_STRING then
      var p :- Target(b, r);
      CStr(b, p)
    else Some([])
  }

  function AsString(b: seq<byte>, r: Reference): Option<seq<byte>> {
    if r.ty == FBT_STRING then
      var p :- Target(b, r);
      SizedBytes(b, p, r.byteWidth)
    else if r.ty == FBT_KEY then AsKey(b, r)
    else Some([])
  }

  function AsBlob(b: seq<byte>, r: Reference): Option<seq<byte>> {
    if r.ty == FBT_BLOB || r.ty == FBT_STRING then
      var p :- Target(b, r);
      SizedBytes(b, p, r.byteWidth)
    else Some([])
  }

  /** Position and width of an untyped vector, or of a map seen as one. */
  function AsVector(b: seq<byte>, r: Reference): Option<(int, nat)>
    requires r.ty == FBT_VECTOR || r.ty == FBT_MAP
  {
    var p :- Target(b, r);
    Some((p, r.byteWidth))
  }

  /** `Reference(data, parent_width, packed_type)`. */
  function Unpack(data: int, parentWidth: nat, packed: byte): Reference {
    Reference(data, parentWidth, ByteWidth(packed % 4), packed / 4)
  }

  /** `Vector::operator[]`. */
  function VectorAt(b: seq<byte>, data: int, byteWidth: nat, i: nat): Option<Reference> {
    var len :- SizeAt(b, data, byteWidth);
    if i >= len then Some(NULL_REFERENCE)
    else
      var packed :- ReadBytes(b, data + len * byteWidth + i, 1);
      Some(Unpack(data + i * byteWidth, byteWidth, packed[0]))
  }

  /** `TypedVector::operator[]`. */
  function TypedVectorAt(b: seq<byte>, v: TypedVector, i: nat): Option<Reference> {
    var len :- SizeAt(b, v.data, v.byteWidth);
    if i >= len then Some(NULL_REFERENCE)
    else Some(Reference(v.data + i * v.byteWidth, v.byteWidth, 1, v.ty))
  }

  /** `FixedTypedVector::operator[]`: the length comes from the type. */
  function FixedTypedVectorAt(v: TypedVector, len: nat, i: nat): Reference {
    if i >= len then NULL_REFERENCE
    else Reference(v.data + i * v.byteWidth, v.byteWidth, 1, v.ty)
  }

  // ---------------------------------------------------------------- maps

  /** `strcmp` on the contents of two C strings: -1, 0 or 1. */
  function StrCmp(s: seq<byte>, t: seq<byte>): (c: int)
    ensures -1 <= c <= 1
    ensures c == 0 <==> s == t
  {
    if s == [] && t == [] then 0
    else if s == [] then -1
    else if t == [] then 1
    else if s[0] != t[0] then (if s[0] < t[0] then -1 else 1)
    else
      assert s == [s[0]] + s[1..] && t == [t[0]] + t[1..];
      StrCmp(s[1..], t[1..])
  }

  /** `Map::Keys`: an offset and a width stored before the size of the map. */
  function KeysOf(b: seq<byte>, data: int, byteWidth: nat): Option<TypedVector> {
    var keysOffset := data - byteWidth * 3;
    var keys :- Indirect(b, keysOffset, byteWidth);
    var width :- ReadUInt64(b, keysOffset + byteWidth, byteWidth);
    Some(TypedVector(keys, width % 256, FBT_KEY))
  }

  /** Of the stored width only the lowest byte counts. */
  lemma KeysWidthIsByte(b: seq<byte>, data: int, byteWidth: nat)
    requires KeysOf(b, data, byteWidth).Some?
    ensures var p := data - byteWidth * 3 + byteWidth;
            0 <= p < |b| && KeysOf(b, data, byteWidth).value.byteWidth == b[p]
  {
    var p := data - byteWidth * 3 + byteWidth;
    var s := b[p..p + ScalarSize(byteWidth)];
    assert (s[0] + 256 * FromLE(s[1..])) % 256 == s[0];
  }

  /** The key a typed vector of keys holds at index `i`, as `KeyCompare` finds it. */
  function KeyAt(b: seq<byte>, keys: TypedVector, i: nat): Option<seq<byte>> {
    var p :- Indirect(b, keys.data + i * keys.byteWidth, keys.byteWidth);
    CStr(b, p)
  }

  /** The keys as `bsearch` sees them: its comparison function reads them by index. */
  function KeyReader(b: seq<byte>, keys: TypedVector): nat -> Option<seq<byte>> {
    i => KeyAt(b, keys, i)
  }

  /** `bsearch` over the indices `lo..hi`; -1 when the key is absent. */
  function BinarySearch(keyAt: nat -> Option<seq<byte>>, lo: nat, hi: nat, key: seq<byte>): (r: Option<int>)
    requires lo <= hi
    ensures r.Some? ==> r.value == -1 || lo <= r.value < hi
    decreases hi - lo
  {
    if lo == hi then Some(-1)
    else
      var mid := (lo + hi) / 2;
      var elem :- keyAt(mid);
      var c := StrCmp(key, elem);
      if c == 0 then Some(mid)
      else if c < 0 then BinarySearch(keyAt, lo, mid, key)
      else BinarySearch(keyAt, mid + 1, hi, key)
  }

  /** `Map::operator[]`. No comparison function exists for a width other than 1, 2, 4 and 8. */
  function Lookup(b: seq<byte>, data: int, byteWidth: nat, key: seq<byte>): Option<Reference> {
    var keys :- KeysOf(b, data, byteWidth);
    var n :- SizeAt(b, keys.data, keys.byteWidth);
    if n > 0 && keys.byteWidth !in {1, 2, 4, 8} then None
    else
      var i :- BinarySearch(KeyReader(b, keys), 0, n, key);
      if i == -1 then Some(NULL_REFERENCE) else VectorAt(b, data, byteWidth, i)
  }

  // ---------------------------------------------------------------- root

  /** The last byte is the width of the root, the one before its packed type. */
  function GetRoot(b: seq<byte>): Option<Reference> {
    var width :- ReadBytes(b, |b| - 1, 1);
    var packed :- ReadBytes(b, |b| - 2, 1);
    Some(Unpack(|b| - 2 - width[0], width[0], packed[0]))
  }
}
