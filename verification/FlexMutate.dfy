/** Changing a number in a finished buffer, in place. */
module FlexMutate {
  import opened Options
  import opened Bytes
  import opened FlexTypes
  import opened FlexReader
  import opened FlexImage

  predicate IsSigned(ty: Type) { ty == FBT_INT || ty == FBT_INDIRECT_INT }

  predicate IsUnsigned(ty: Type) { ty == FBT_UINT || ty == FBT_INDIRECT_UINT }

  predicate IsIndirect(ty: Type) { ty == FBT_INDIRECT_INT || ty == FBT_INDIRECT_UINT }

  /** The width of the number behind a reference, and the address where it lies. */
  function NumberWidth(r: Reference): nat {
    if IsIndirect(r.ty) then r.byteWidth else r.parentWidth
  }

  function NumberAt(b: seq<byte>, r: Reference): Option<int> {
    if IsIndirect(r.ty) then Target(b, r) else Some(r.data)
  }

  predicate IsWidth(w: nat) { w == 1 || w == 2 || w == 4 || w == 8 }

  function BitWidthOf(w: nat): (bw: BitWidth)
    requires IsWidth(w)
    ensures ByteWidth(bw) == w
  {
    if w == 1 then 0 else if w == 2 then 1 else if w == 4 then 2 else 3
  }

  /** If it refers to a number at all, the number is within the buffer, and of a width that builders use. */
  predicate Reachable(b: seq<byte>, r: Reference) {
    IsSigned(r.ty) || IsUnsigned(r.ty) ==>
      && IsWidth(NumberWidth(r))
      && NumberAt(b, r).Some? && 0 <= NumberAt(b, r).value && NumberAt(b, r).value + NumberWidth(r) <= |b|
  }

  predicate Apart(p: int, m: nat, q: int, n: nat) { p + m <= q || q + n <= p }

  /** The offset that leads to the number is not part of it. */
  predicate OffsetApart(b: seq<byte>, r: Reference)
    requires NumberAt(b, r).Some?
  {
    IsIndirect(r.ty) ==> Apart(r.data, ScalarSize(r.parentWidth), NumberAt(b, r).value, NumberWidth(r))
  }

  /** The number is in the range of its kind at its width. */
  predicate InRange(r: Reference, i: int)
    requires IsWidth(NumberWidth(r))
  {
    if IsSigned(r.ty) then FitsSigned(i, BitWidthOf(NumberWidth(r))) else 0 <= i < Pow256(NumberWidth(r))
  }

  // ---------------------------------------------------------------- what a write leaves alone

  /** The buffers differ at most in the `n` bytes at `at`. */
  ghost predicate SameElsewhere(b: seq<byte>, c: seq<byte>, at: nat, n: nat) {
    |c| == |b| && forall k :: 0 <= k < |b| && (k < at || at + n <= k) ==> c[k] == b[k]
  }

  lemma BytesElsewhere(b: seq<byte>, c: seq<byte>, at: nat, n: nat, p: int, m: nat)
    requires SameElsewhere(b, c, at, n) && Apart(p, m, at, n)
    ensures ReadBytes(c, p, m) == ReadBytes(b, p, m)
  {
    if 0 <= p && p + m <= |b| {
      var s, t := b[p..p + m], c[p..p + m];
      assert s == t;
    }
  }

  lemma ScalarElsewhere(b: seq<byte>, c: seq<byte>, at: nat, n: nat, p: int, w: nat)
    requires SameElsewhere(b, c, at, n) && Apart(p, ScalarSize(w), at, n)
    ensures ReadUInt64(c, p, w) == ReadUInt64(b, p, w) && ReadInt64(c, p, w) == ReadInt64(b, p, w)
  {
    BytesElsewhere(b, c, at, n, p, ScalarSize(w));
  }

  /** A number elsewhere, found through an offset elsewhere, reads as before. */
  lemma NumbersElsewhere(b: seq<byte>, c: seq<byte>, at: nat, n: nat, r: Reference)
    requires SameElsewhere(b, c, at, n) && (IsSigned(r.ty) || IsUnsigned(r.ty)) && NumberAt(b, r).Some?
    requires Apart(r.data, ScalarSize(r.parentWidth), at, n)
    requires Apart(NumberAt(b, r).value, ScalarSize(NumberWidth(r)), at, n)
    ensures AsInt64(c, r) == AsInt64(b, r) && AsUInt64(c, r) == AsUInt64(b, r)
  {
    hide ReadUInt64, ReadInt64, SameElsewhere, Apart;
    ScalarElsewhere(b, c, at, n, r.data, r.parentWidth);
    ScalarElsewhere(b, c, at, n, NumberAt(b, r).value, NumberWidth(r));
  }

  /** So do a string or a blob elsewhere. */
  lemma SizedElsewhere(b: seq<byte>, c: seq<byte>, at: nat, n: nat, r: Reference)
    requires SameElsewhere(b, c, at, n) && (r.ty == FBT_STRING || r.ty == FBT_BLOB) && AsBlob(b, r).Some?
    requires Apart(r.data, ScalarSize(r.parentWidth), at, n)
    requires Apart(Target(b, r).value - r.byteWidth, ScalarSize(r.byteWidth), at, n)
    requires Apart(Target(b, r).value, |AsBlob(b, r).value|, at, n)
    ensures AsBlob(c, r) == AsBlob(b, r) && AsString(c, r) == AsString(b, r)
  {
    hide ReadUInt64, ReadInt64, SameElsewhere, Apart, ReadBytes;
    ScalarElsewhere(b, c, at, n, r.data, r.parentWidth);
    ScalarElsewhere(b, c, at, n, Target(b, r).value - r.byteWidth, r.byteWidth);
    BytesElsewhere(b, c, at, n, Target(b, r).value, |AsBlob(b, r).value|);
  }

  // ---------------------------------------------------------------- what it changes

  lemma WidthOrder(bw: BitWidth, w: nat)
    requires IsWidth(w)
    ensures ByteWidth(bw) <= w <==> bw <= BitWidthOf(w)
  {
  }

  /** `WidthI` lets exactly the numbers of the signed range pass, `WidthU` those of the unsigned one. */
  lemma FitsExactly(i: int, u: nat, w: nat)
    requires IsI64(i) && IsU64(u) && IsWidth(w)
    ensures ByteWidth(WidthI(i)) <= w <==> FitsSigned(i, BitWidthOf(w))
    ensures ByteWidth(WidthU(u)) <= w <==> u < Pow256(w)
  {
    hide WidthI, ByteWidth, FitsSigned;
    WidthOrder(WidthI(i), w);
    WidthOrder(WidthU(u), w);
    WidthIIsLeast(i, BitWidthOf(w));
    WidthUExact(u, w);
  }

  lemma WidthUExact(u: nat, w: nat)
    requires IsU64(u) && IsWidth(w)
    ensures WidthU(u) <= BitWidthOf(w) <==> u < Pow256(w)
  {
    Powers();
  }

  lemma OverwriteChanges(b: seq<byte>, at: nat, bytes: seq<byte>)
    requires at + |bytes| <= |b|
    ensures SameElsewhere(b, Overwrite(b, at, bytes), at, |bytes|) && HasBytes(Overwrite(b, at, bytes), at, bytes)
  {
  }

  lemma NumberStays(b: seq<byte>, c: seq<byte>, r: Reference)
    requires (IsSigned(r.ty) || IsUnsigned(r.ty)) && Reachable(b, r) && OffsetApart(b, r)
    requires SameElsewhere(b, c, NumberAt(b, r).value, NumberWidth(r))
    ensures NumberAt(c, r) == NumberAt(b, r)
  {
    if IsIndirect(r.ty) {
      BytesElsewhere(b, c, NumberAt(b, r).value, NumberWidth(r), r.data, ScalarSize(r.parentWidth));
    }
  }

  /** A signed number written where a signed number lay is read back by both accessors. */
  lemma SignedReadsBack(b: seq<byte>, r: Reference, i: int)
    requires IsSigned(r.ty) && Reachable(b, r) && OffsetApart(b, r) && IsI64(i) && InRange(r, i)
    ensures var c := Overwrite(b, NumberAt(b, r).value, ToLE(ToU64(i), NumberWidth(r)));
            AsInt64(c, r) == Some(i) && AsUInt64(c, r) == Some(ToU64(i))
  {
    hide ToLE, HasBytes, ReadInt64, ReadUInt64, FitsSigned, WidthI, Overwrite;
    var p, w := NumberAt(b, r).value, NumberWidth(r);
    var c := Overwrite(b, p, ToLE(ToU64(i), w));
    OverwriteChanges(b, p, ToLE(ToU64(i), w));
    NumberStays(b, c, r);
    WidthIIsLeast(i, BitWidthOf(w));
    WrittenInt(c, p, BitWidthOf(w), i);
  }

  lemma UnsignedReadsBack(b: seq<byte>, r: Reference, u: nat)
    requires IsUnsigned(r.ty) && Reachable(b, r) && OffsetApart(b, r) && IsU64(u) && InRange(r, u)
    ensures var c := Overwrite(b, NumberAt(b, r).value, ToLE(u, NumberWidth(r)));
            AsUInt64(c, r) == Some(u) && AsInt64(c, r) == Some(ToI64(u))
  {
    hide ToLE, HasBytes, ReadUInt64, Overwrite, Pow256;
    var p, w := NumberAt(b, r).value, NumberWidth(r);
    var c := Overwrite(b, p, ToLE(u, w));
    OverwriteChanges(b, p, ToLE(u, w));
    NumberStays(b, c, r);
    WrittenUInt(c, p, w, u);
  }

  /** Writing the number that is already there changes nothing. */
  lemma MutateToSame(b: seq<byte>, p: nat, w: nat)
    requires IsWidth(w) && p + w <= |b|
    ensures ReadUInt64(b, p, w).Some? && Overwrite(b, p, ToLE(ReadUInt64(b, p, w).value, w)) == b
  {
    hide ToLE, FromLE;
    ToFromLE(b[p..p + w]);
    var c := Overwrite(b, p, b[p..p + w]);
    forall k | 0 <= k < |b|
      ensures c[k] == b[k]
    {
    }
  }

  // ---------------------------------------------------------------- the methods

  method Mutate(buf: array<byte>, dest: nat, t: nat, byteWidth: nat, valueWidth: BitWidth) returns (fits: bool)
    requires dest + byteWidth <= buf.Length
    modifies buf
    ensures fits <==> ByteWidth(valueWidth) <= byteWidth
    ensures buf[..] == if fits then Overwrite(old(buf[..]), dest, ToLE(t, byteWidth)) else old(buf[..])
  {
    fits := ByteWidth(valueWidth) <= byteWidth;
    if fits {
      var bytes := ToLE(t, byteWidth);
      forall k | 0 <= k < byteWidth {
        buf[dest + k] := bytes[k];
      }
    }
  }

  /** Succeeds exactly for a number in whose kind and width the new one fits; then that is what is read. */
  method MutateInt(buf: array<byte>, r: Reference, i: int) returns (ok: bool)
    requires IsI64(i) && Reachable(buf[..], r)
    modifies buf
    ensures ok <==> (IsSigned(r.ty) && InRange(r, i)) || (IsUnsigned(r.ty) && InRange(r, ToU64(i)))
    ensures !ok ==> buf[..] == old(buf[..])
    ensures ok ==> SameElsewhere(old(buf[..]), buf[..], NumberAt(old(buf[..]), r).value, NumberWidth(r))
    ensures ok && OffsetApart(old(buf[..]), r) ==> AsInt64(buf[..], r) == Some(i)
  {
    hide ToLE, Overwrite, AsInt64, Target;
    ghost var b := buf[..];
    if IsSigned(r.ty) {
      var dest := NumberAt(buf[..], r).value;
      FitsExactly(i, ToU64(i), NumberWidth(r));
      ok := Mutate(buf, dest, ToU64(i), NumberWidth(r), WidthI(i));
      OverwriteChanges(b, dest, ToLE(ToU64(i), NumberWidth(r)));
      if ok && OffsetApart(b, r) {
        SignedReadsBack(b, r, i);
      }
    } else if IsUnsigned(r.ty) {
      var dest, u := NumberAt(buf[..], r).value, ToU64(i);
      FitsExactly(i, u, NumberWidth(r));
      ok := Mutate(buf, dest, u, NumberWidth(r), WidthU(u));
      OverwriteChanges(b, dest, ToLE(u, NumberWidth(r)));
      if ok && OffsetApart(b, r) {
        UnsignedReadsBack(b, r, u);
      }
    } else {
      ok := false;
    }
  }

  method MutateUInt(buf: array<byte>, r: Reference, u: nat) returns (ok: bool)
    requires IsU64(u) && Reachable(buf[..], r)
    modifies buf
    ensures ok <==> (IsUnsigned(r.ty) && InRange(r, u)) || (IsSigned(r.ty) && InRange(r, ToI64(u)))
    ensures !ok ==> buf[..] == old(buf[..])
    ensures ok ==> SameElsewhere(old(buf[..]), buf[..], NumberAt(old(buf[..]), r).value, NumberWidth(r))
    ensures ok && OffsetApart(old(buf[..]), r) ==> AsUInt64(buf[..], r) == Some(u)
  {
    hide ToLE, Overwrite, AsUInt64, Target;
    ghost var b := buf[..];
    if IsUnsigned(r.ty) {
      var dest := NumberAt(buf[..], r).value;
      FitsExactly(0, u, NumberWidth(r));
      ok := Mutate(buf, dest, u, NumberWidth(r), WidthU(u));
      OverwriteChanges(b, dest, ToLE(u, NumberWidth(r)));
      if ok && OffsetApart(b, r) {
        UnsignedReadsBack(b, r, u);
      }
    } else if IsSigned(r.ty) {
      var dest, i := NumberAt(buf[..], r).value, ToI64(u);
      FitsExactly(i, u, NumberWidth(r));
      ok := Mutate(buf, dest, ToU64(i), NumberWidth(r), WidthI(i));
      OverwriteChanges(b, dest, ToLE(u, NumberWidth(r)));
      if ok && OffsetApart(b, r) {
        SignedReadsBack(b, r, i);
      }
    } else {
      ok := false;
    }
  }
}
