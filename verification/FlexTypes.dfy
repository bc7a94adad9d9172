/** Type codes, bit widths and references of FlexBuffers. */
module FlexTypes {
  import opened Bytes

  /** The type of a value: the upper six bits of a packed type byte. */
  type Type = nat

  const FBT_NULL: Type := 0
  const FBT_INT: Type := 1
  const FBT_UINT: Type := 2
  const FBT_FLOAT: Type := 3
  const FBT_KEY: Type := 4
  const FBT_STRING: Type := 5
  const FBT_INDIRECT_INT: Type := 6
  const FBT_INDIRECT_UINT: Type := 7
  const FBT_MAP: Type := 9
  const FBT_VECTOR: Type := 10
  const FBT_VECTOR_INT: Type := 11
  const FBT_VECTOR_KEY: Type := 14
  const FBT_VECTOR_STRING_DEPRECATED: Type := 15
  const FBT_VECTOR_INT2: Type := 16
  const FBT_VECTOR_INT3: Type := 19
  const FBT_VECTOR_INT4: Type := 22
  const FBT_VECTOR_FLOAT4: Type := 24
  const FBT_BLOB: Type := 25
  const FBT_BOOL: Type := 26
  const FBT_VECTOR_BOOL: Type := 36

  /** Two bits: widths of 8, 16, 32 and 64 bits. */
  type BitWidth = w: nat | w < 4

  const BIT_WIDTH_8: BitWidth := 0
  const BIT_WIDTH_16: BitWidth := 1
  const BIT_WIDTH_32: BitWidth := 2
  const BIT_WIDTH_64: BitWidth := 3

  /** `1U << bw`. */
  function ByteWidth(bw: BitWidth): (w: nat)
    ensures IsAlignment(w) && w <= 8
  {
    if bw == 0 then 1 else if bw == 1 then 2 else if bw == 2 then 4 else 8
  }

  /** `k` elements of the width, as a product with a constant. */
  function Times(k: nat, bw: BitWidth): (n: nat) {
    if bw == 0 then k else if bw == 1 then 2 * k else if bw == 2 then 4 * k else 8 * k
  }

  /** The bytes `k` cells of `w` bytes take. */
  function Cells(k: nat, w: nat): nat {
    if k == 0 then 0 else Cells(k - 1, w) + w
  }

  /** A position at which the format allows a number of `w` bytes. */
  predicate Lies(p: int, w: nat) {
    w == 1 || (w == 2 && p % 2 == 0) || (w == 4 && p % 4 == 0) || (w == 8 && p % 8 == 0)
  }

  lemma Next2(p: int)
    requires p % 2 == 0
    ensures (p + 2) % 2 == 0 && (p - 2) % 2 == 0
  {
  }

  lemma Next4(p: int)
    requires p % 4 == 0
    ensures (p + 4) % 4 == 0 && (p - 4) % 4 == 0
  {
  }

  lemma Next8(p: int)
    requires p % 8 == 0
    ensures (p + 8) % 8 == 0 && (p - 8) % 8 == 0
  {
  }

  lemma NextLies(p: int, w: nat)
    requires Lies(p, w)
    ensures Lies(p + w, w) && Lies(p - w, w)
  {
    if w == 2 {
      Next2(p);
    } else if w == 4 {
      Next4(p);
    } else if w == 8 {
      Next8(p);
    }
  }

  /** Cells of the width lie as the first one does. */
  lemma {:induction false} CellsLie(p: int, w: nat, k: nat)
    requires Lies(p, w)
    ensures Lies(p + Cells(k, w), w)
  {
    hide Lies;
    if k > 0 {
      CellsLie(p, w, k - 1);
      NextLies(p + Cells(k - 1, w), w);
    }
  }

  lemma {:induction false} CellsIs(k: nat, w: nat)
    ensures Cells(k, w) == k * w
  {
    if k > 0 {
      CellsIs(k - 1, w);
      assert k * w == (k - 1) * w + w;
    }
  }

  lemma TimesIs(k: nat, bw: BitWidth)
    ensures Times(k, bw) == Cells(k, ByteWidth(bw)) == k * ByteWidth(bw)
  {
    CellsIs(k, ByteWidth(bw));
  }

  lemma {:induction false} CellsBelow(k: nat, m: nat, w: nat)
    requires k < m
    ensures Cells(k + 1, w) <= Cells(m, w)
  {
    if k + 1 < m {
      CellsBelow(k, m - 1, w);
    }
  }

  function MaxWidth(a: BitWidth, b: BitWidth): BitWidth {
    if a < b then b else a
  }

  predicate IsInline(t: Type) { t <= FBT_FLOAT || t == FBT_BOOL }

  predicate IsTypedVectorElementType(t: Type) {
    FBT_INT <= t <= FBT_STRING || t == FBT_BOOL
  }

  predicate IsTypedVector(t: Type) {
    FBT_VECTOR_INT <= t <= FBT_VECTOR_STRING_DEPRECATED || t == FBT_VECTOR_BOOL
  }

  predicate IsFixedTypedVector(t: Type) { FBT_VECTOR_INT2 <= t <= FBT_VECTOR_FLOAT4 }

  function ToTypedVector(t: Type, fixedLen: nat): Type
    requires IsTypedVectorElementType(t)
    requires fixedLen == 0 || 2 <= fixedLen <= 4
  {
    if fixedLen == 0 then t - FBT_INT + FBT_VECTOR_INT
    else if fixedLen == 2 then t - FBT_INT + FBT_VECTOR_INT2
    else if fixedLen == 3 then t - FBT_INT + FBT_VECTOR_INT3
    else t - FBT_INT + FBT_VECTOR_INT4
  }

  function ToTypedVectorElementType(t: Type): Type
    requires IsTypedVector(t)
  {
    t - FBT_VECTOR_INT + FBT_INT
  }

  /** Element type and length of a vector whose type fixes both. */
  function ToFixedTypedVectorElementType(t: Type): (Type, nat)
    requires IsFixedTypedVector(t)
  {
    var fixedType := t - FBT_VECTOR_INT2;
    (fixedType % 3 + FBT_INT, fixedType / 3 + 2)
  }

  /** The vector type determines the element type, and for tuples of numbers the length too. */
  lemma TypedVectorTypesInvert(t: Type, len: nat)
    requires IsTypedVectorElementType(t)
    ensures IsTypedVector(ToTypedVector(t, 0))
    ensures ToTypedVectorElementType(ToTypedVector(t, 0)) == t
    ensures 2 <= len <= 4 ==>
              (t <= FBT_FLOAT <==>
               IsFixedTypedVector(ToTypedVector(t, len)) &&
               ToFixedTypedVectorElementType(ToTypedVector(t, len)) == (t, len))
  {
  }

  /** The codes of the vectors of integers, keys and truth values. */
  lemma TypedVectorCodes()
    ensures ToTypedVector(FBT_INT, 0) == 11 && ToTypedVector(FBT_UINT, 0) == 12
    ensures ToTypedVector(FBT_KEY, 0) == 14 && ToTypedVector(FBT_BOOL, 0) == 36
    ensures ToTypedVector(FBT_INT, 2) == 16 && ToTypedVector(FBT_UINT, 2) == 17
    ensures ToTypedVector(FBT_INT, 3) == 19 && ToTypedVector(FBT_UINT, 3) == 20
    ensures ToTypedVector(FBT_INT, 4) == 22 && ToTypedVector(FBT_UINT, 4) == 23
  {
  }

  /** `bit_width | (type << 2)`, cast to a byte. */
  function PackedType(bw: BitWidth, t: Type): byte {
    (bw + 4 * t) % 256
  }

  // ---------------------------------------------------------------- widths of numbers

  /** The first width whose mask leaves nothing of `u`. */
  function WidthU(u: nat): (bw: BitWidth)
    requires IsU64(u)
    ensures u < Pow256(ByteWidth(bw))
    ensures forall c: BitWidth :: c < bw ==> Pow256(ByteWidth(c)) <= u
  {
    Powers();
    if u < 0x100 then BIT_WIDTH_8
    else if u < 0x1_0000 then BIT_WIDTH_16
    else if u < 0x1_0000_0000 then BIT_WIDTH_32
    else BIT_WIDTH_64
  }

  /** Shifts the sign into the low bit and, for a negative number, flips: then `WidthU`. */
  function WidthI(i: int): BitWidth
    requires IsI64(i)
  {
    var u := ToU64(i) * 2 % TWO_64;
    WidthU(if i >= 0 then u else TWO_64 - 1 - u)
  }

  predicate FitsSigned(i: int, bw: BitWidth) {
    0 - Pow256(ByteWidth(bw)) <= 2 * i < Pow256(ByteWidth(bw))
  }

  /** `WidthI` is the least width whose two's complement range holds the number. */
  lemma WidthIIsLeast(i: int, c: BitWidth)
    requires IsI64(i)
    ensures WidthI(i) <= c <==> FitsSigned(i, c)
  {
    Powers();
    var u := ToU64(i) * 2 % TWO_64;
    assert u == if i >= 0 then 2 * i else TWO_64 + 2 * i;
  }
}
