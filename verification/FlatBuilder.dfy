/** The builder: writes tables, strings and vectors back to front, each object after the ones it refers to. */
module FlatBuilder {
  import opened Options
  import opened Bytes
  import opened VectorDownward
  import opened FlatReader
  import opened FlatObject
  import opened FlatVTable
  import opened FlatState
  import opened FlatStrings

  function Max(a: nat, b: nat): nat { if a > b then a else b }

  class FlatBufferBuilder {
    const buf: VectorDownward
    var numFieldLoc: nat
    var maxVOffset: nat
    var nested: bool
    var finished: bool
    var minalign: nat
    var forceDefaults: bool
    var dedupVTables: bool
    var stringPool: set<nat>

    ghost var known: Knowledge

    ghost predicate Valid()
      reads this, buf, buf.buf
    {
      && buf.Valid() && buf.Size() < MAX_BUFFER_SIZE && IsAlignment(minalign)
      && Knows(buf.Data(), known, maxVOffset, minalign)
      && PoolOk(stringPool, known.objs)
      && ScratchIs()
      && numFieldLoc == |known.locs| && (!nested ==> numFieldLoc == 0 && maxVOffset == 0)
    }

    /** The scratch stack holds the offsets of the vtables, then the fields of the table being built. */
    ghost predicate ScratchIs()
      requires buf.Valid()
      reads this, buf, buf.buf
    {
      buf.Scratch() == OffsetsBytes(known.vtables) + LocsBytes(known.locs)
    }

    ghost predicate HasRoom(n: nat)
      requires buf.Valid()
      reads this, buf, buf.buf
    {
      buf.Size() + n < MAX_BUFFER_SIZE
    }

    /** Everything is where it was, counted from the end. */
    twostate predicate Extended()
      requires old(buf.Valid()) && buf.Valid()
      reads this, buf, buf.buf
    {
      buf.Kept() && Extends(buf.Data(), old(buf.Data()))
    }

    method ForceDefaults(fd: bool)
      requires Valid()
      modifies this`forceDefaults
      ensures Valid() && forceDefaults == fd
    {
      forceDefaults := fd;
    }

    /** Vtables written while they are not shared may be alike. */
    method DedupVTables(dedup: bool)
      requires Valid()
      modifies this`dedupVTables
      ensures Valid() && dedupVTables == dedup
    {
      dedupVTables := dedup;
    }

    constructor (initialSize: nat, bufferMinAlign: nat)
      requires IsAlignment(bufferMinAlign)
      ensures Valid() && fresh(buf) && buf.buf == null && buf.Data() == []
      ensures known == NOTHING
      ensures !nested && !finished && minalign == 1 && dedupVTables && !forceDefaults && stringPool == {}
    {
      buf := new VectorDownward(initialSize, bufferMinAlign);
      numFieldLoc, maxVOffset, nested, finished, minalign := 0, 0, false, false, 1;
      forceDefaults, dedupVTables, stringPool := false, true, {};
      known := NOTHING;
    }

    function GetSize(): (n: nat)
      requires buf.Valid()
      reads this, buf, buf.buf
      ensures n == |buf.Data()|
    {
      buf.Size()
    }

    // ---------------------------------------------------------------- bytes

    method TrackMinAlign(elemSize: nat)
      modifies this`minalign
      ensures minalign == Max(old(minalign), elemSize)
    {
      if elemSize > minalign {
        minalign := elemSize;
      }
    }

    method Align(elemSize: nat)
      requires buf.Valid() && IsAlignment(elemSize) && HasRoom(0)
      modifies this`minalign, buf, buf.buf
      ensures buf.Valid() && buf.Kept() && buf.Scratch() == old(buf.Scratch())
      ensures minalign == Max(old(minalign), elemSize)
      ensures buf.Data() == Zeros(PaddingBytes(old(GetSize()), elemSize)) + old(buf.Data())
    {
      TrackMinAlign(elemSize);
      buf.Fill(PaddingBytes(buf.Size(), elemSize));
    }

    /** Makes room such that after `len` more bytes the buffer is aligned. */
    method PreAlign(len: nat, alignment: nat)
      requires buf.Valid() && IsAlignment(alignment) && HasRoom(0) && IsU64(GetSize() + len)
      modifies this`minalign, buf, buf.buf
      ensures buf.Valid() && buf.Kept() && buf.Scratch() == old(buf.Scratch())
      ensures minalign == Max(old(minalign), alignment)
      ensures buf.Data() == Zeros(PaddingBytes(old(GetSize()) + len, alignment)) + old(buf.Data())
    {
      TrackMinAlign(alignment);
      buf.Fill(PaddingBytes(GetSize() + len, alignment));
    }

    method PushBytes(bytes: seq<byte>)
      requires buf.Valid() && HasRoom(0)
      modifies buf, buf.buf
      ensures buf.Valid() && buf.Kept() && buf.Scratch() == old(buf.Scratch())
      ensures buf.Data() == bytes + old(buf.Data())
    {
      buf.Push(bytes);
    }

    /** Writes a scalar, aligned to its size. */
    method PushElement(element: seq<byte>) returns (size: nat)
      requires buf.Valid() && IsAlignment(|element|) && HasRoom(|element|)
      modifies this`minalign, buf, buf.buf
      ensures buf.Valid() && buf.Kept() && buf.Scratch() == old(buf.Scratch())
      ensures minalign == Max(old(minalign), |element|)
      ensures buf.Data() == element + Zeros(PaddingBytes(old(GetSize()), |element|)) + old(buf.Data())
      ensures size == GetSize() <= old(GetSize()) + 2 * |element| && Aligned(size, |element|)
    {
      PaddingAligns(GetSize(), |element|, 0);
      Align(|element|);
      buf.PushSmall(element);
      AlignedStep(GetSize() - |element|, |element|);
      Assoc(element, Zeros(PaddingBytes(old(GetSize()), |element|)), old(buf.Data()));
      size := GetSize();
    }

    /** The distance from here to an object, once the offset itself is written here. */
    method ReferTo(off: nat) returns (rel: nat)
      requires buf.Valid() && HasRoom(4) && 0 < off <= GetSize()
      modifies this`minalign, buf, buf.buf
      ensures buf.Valid() && buf.Kept() && buf.Scratch() == old(buf.Scratch())
      ensures minalign == Max(old(minalign), 4)
      ensures buf.Data() == Zeros(PaddingBytes(old(GetSize()), 4)) + old(buf.Data())
      ensures GetSize() < old(GetSize()) + 4 && GetSize() % 4 == 0 && rel == GetSize() - off + 4
    {
      PaddingAligns(GetSize(), 4, 0);
      Align(4);
      rel := GetSize() - off + 4;
    }

    // ---------------------------------------------------------------- strings

    /** The bytes of a string: its length, its bytes and a NUL. */
    method WriteString(str: seq<byte>) returns (off: nat)
      requires buf.Valid() && HasRoom(|str| + 32)
      modifies this`minalign, buf, buf.buf
      ensures buf.Valid() && Extended() && buf.Scratch() == old(buf.Scratch())
      ensures off == GetSize() && old(GetSize()) < off <= old(GetSize()) + |str| + 16
      ensures minalign == Max(old(minalign), 4) && Stored(buf.Data(), off, Str(str))
    {
      hide VectorDownward.Data, VectorDownward.Scratch, ToLE, PaddingBytes, Stored, Extends, Zeros, Mask, IsAlignment;
      FourAligns();
      ghost var b0 := buf.Data();
      ghost var pad := PaddingBytes(|b0| + (|str| + 1), 4);
      PadsTo(|b0|, |str| + 1, 4);
      PreAlign(|str| + 1, SIZEOF_UOFFSET);
      ghost var b1 := buf.Data();
      buf.Fill(1);
      PushBytes(str);
      ghost var b2 := buf.Data();
      StringPushed(b0, str, pad, b1, b2);
      off := PushUnpadded(ToLE(|str|, SIZEOF_UOFFSET));
    }

    method CreateString(str: seq<byte>) returns (off: nat)
      requires Valid() && !nested && HasRoom(|str| + 32)
      modifies this`minalign, this`known, buf, buf.buf
      ensures Valid() && Extended() && GetSize() <= old(GetSize()) + |str| + 16
      ensures off == GetSize() > old(GetSize()) && off !in old(known).objs
      ensures known == old(known).(objs := old(known).objs[off := Str(str)]) && minalign == Max(old(minalign), 4)
    {
      hide VectorDownward.Data, VectorDownward.Scratch, Knows, PoolOk, Stored, Extends;
      off := WriteString(str);
      Learn(old(buf.Data()), old(minalign), off, Str(str));
    }

    /** PushElement, where the size is already aligned. */
    method PushUnpadded(element: seq<byte>) returns (size: nat)
      requires buf.Valid() && IsAlignment(|element|) && HasRoom(|element|) && Aligned(GetSize(), |element|)
      modifies this`minalign, buf, buf.buf
      ensures buf.Valid() && buf.Kept() && buf.Scratch() == old(buf.Scratch())
      ensures minalign == Max(old(minalign), |element|)
      ensures buf.Data() == element + old(buf.Data()) && size == GetSize() && Aligned(size, |element|)
    {
      NoPadding(GetSize(), |element|);
      NoZeros(element, buf.Data());
      size := PushElement(element);
    }

    /** Records an object that now lies at the front of the buffer. */
    ghost method Learn(b0: seq<byte>, m: nat, off: nat, o: Obj)
      requires buf.Valid() && IsAlignment(minalign) && buf.Size() < MAX_BUFFER_SIZE && m <= minalign
      requires Knows(b0, known, maxVOffset, m) && PoolOk(stringPool, known.objs) && ScratchIs()
      requires numFieldLoc == |known.locs| && !nested && numFieldLoc == 0 && maxVOffset == 0
      requires Extends(buf.Data(), b0) && off > |b0|
      requires Stored(buf.Data(), off, o) && AlignsWithin(o, minalign) && !o.Table?
      modifies this`known
      ensures Valid() && known == old(known).(objs := old(known).objs[off := o]) && off !in old(known).objs
    {
      KnowsStays(buf.Data(), b0, known, maxVOffset, m, minalign);
      PoolStays(b0, known, maxVOffset, m, stringPool, off, o);
      KnowsObject(buf.Data(), known, maxVOffset, minalign, off, o);
      known := known.(objs := known.objs[off := o]);
    }

    // ---------------------------------------------------------------- vectors

    /** Afterwards the elements and the length field need no padding. */
    method StartVector(len: nat, elemSize: nat)
      requires buf.Valid() && !nested && numFieldLoc == 0
      requires IsAlignment(elemSize) && HasRoom(Stride(len, elemSize) + 32)
      modifies this`minalign, this`nested, buf, buf.buf
      ensures buf.Valid() && buf.Kept() && buf.Scratch() == old(buf.Scratch()) && nested
      ensures Extends(buf.Data(), old(buf.Data())) && GetSize() < old(GetSize()) + 20
      ensures minalign == Max(Max(old(minalign), 4), elemSize)
      ensures Aligned(GetSize() + Stride(len, elemSize), 4) && Aligned(GetSize() + Stride(len, elemSize), elemSize)
    {
      hide VectorDownward.Data, VectorDownward.Scratch, PaddingBytes, Extends, Zeros, Mask, Stride, Aligned, Negate,
        IsAlignment;
      FourAligns();
      nested := true;
      var bytes := Stride(len, elemSize);
      ghost var b0 := buf.Data();
      ghost var p, q := VectorPads(|b0|, bytes, elemSize);
      PreAlign(bytes, SIZEOF_UOFFSET);
      assert buf.Data() == Zeros(p) + b0;
      ExtendsFront(Zeros(p), b0);
      ExtendsPush(Zeros(q), buf.Data(), b0);
      PreAlign(bytes, elemSize);
      assert GetSize() == q + (p + |b0|);
    }

    method EndVector(len: nat) returns (size: nat)
      requires buf.Valid() && nested && HasRoom(8) && Aligned(GetSize(), 4)
      modifies this`minalign, this`nested, buf, buf.buf
      ensures buf.Valid() && buf.Kept() && buf.Scratch() == old(buf.Scratch()) && !nested
      ensures minalign == Max(old(minalign), 4)
      ensures buf.Data() == ToLE(len, 4) + old(buf.Data()) && size == GetSize()
    {
      nested := false;
      size := PushUnpadded(ToLE(len, SIZEOF_UOFFSET));
    }

    /** The bytes of a vector of scalars; little-endian memory is copied as it is. */
    method WriteVector(v: seq<nat>, size: nat) returns (off: nat)
      requires buf.Valid() && !nested && numFieldLoc == 0
      requires IsScalarSize(size) && HasRoom(Stride(|v|, size) + 64)
      requires forall i :: 0 <= i < |v| ==> v[i] < Pow256(size)
      modifies this`minalign, this`nested, buf, buf.buf
      ensures buf.Valid() && Extended() && buf.Scratch() == old(buf.Scratch()) && !nested
      ensures off == GetSize() && old(GetSize()) < off <= old(GetSize()) + Stride(|v|, size) + 32
      ensures minalign == Max(Max(old(minalign), 4), size) && Stored(buf.Data(), off, Scalars(size, v))
    {
      hide VectorDownward.Data, VectorDownward.Scratch, ToLE, PaddingBytes, Stored, Extends, Zeros,
        ScalarBytes, Mask, Aligned, Stride;
      ghost var b0 := buf.Data();
      StrideAtLeast(|v|, size);
      StartVector(|v|, size);
      ghost var b1 := buf.Data();
      PushBytes(ScalarBytes(v, size));
      ghost var b2 := buf.Data();
      VectorPushed(v, size, b1, b2);
      ExtendsPush(ScalarBytes(v, size), b1, b0);
      ExtendsPush(ToLE(|v|, 4), b2, b0);
      off := EndVector(|v|);
    }

    method CreateVector(v: seq<nat>, size: nat) returns (off: nat)
      requires Valid() && !nested && IsScalarSize(size) && HasRoom(Stride(|v|, size) + 64)
      requires forall i :: 0 <= i < |v| ==> v[i] < Pow256(size)
      modifies this`minalign, this`nested, this`known, buf, buf.buf
      ensures Valid() && !nested && Extended() && GetSize() <= old(GetSize()) + Stride(|v|, size) + 32
      ensures off == GetSize() > old(GetSize()) && off !in old(known).objs
      ensures known == old(known).(objs := old(known).objs[off := Scalars(size, v)])
      ensures minalign == Max(Max(old(minalign), 4), size)
    {
      hide VectorDownward.Data, VectorDownward.Scratch, Knows, PoolOk, Stored, Extends, Stride;
      off := WriteVector(v, size);
      Learn(old(buf.Data()), old(minalign), off, Scalars(size, v));
    }

    /** Writes the offset of an object made earlier. */
    method PushOffset(off: nat, ghost child: Obj) returns (size: nat)
      requires buf.Valid() && HasRoom(8) && Stored(buf.Data(), off, child)
      modifies this`minalign, buf, buf.buf
      ensures buf.Valid() && Extended() && buf.Scratch() == old(buf.Scratch())
      ensures minalign == Max(old(minalign), 4) && Aligned(size, 4) && size == GetSize()
      ensures size == old(GetSize()) + PaddingBytes(old(GetSize()), 4) + 4 <= old(GetSize()) + 8
      ensures RefStored(buf.Data(), size, child) && off <= size
      ensures buf.Data() == ToLE(size - off, 4) + (Zeros(PaddingBytes(old(GetSize()), 4)) + old(buf.Data()))
    {
      hide VectorDownward.Data, VectorDownward.Scratch, ToLE, Extends, Zeros, Mask, PaddingBytes, Stored, RefStored;
      StoredWithin(buf.Data(), off, child);
      PaddingAligns(GetSize(), 4, 0);
      ghost var b0 := buf.Data();
      var rel := ReferTo(off);
      OffsetPushed(b0, PaddingBytes(|b0|, 4), buf.Data(), off, child);
      AlignedFour(GetSize());
      size := PushUnpadded(ToLE(rel, SIZEOF_UOFFSET));
    }

    /** The offsets, last one first: each is the distance from where it is written to its object. */
    method PushOffsets(v: seq<nat>, ghost objs: map<nat, Obj>)
      requires buf.Valid() && HasRoom(4 * |v| + 8) && Aligned(GetSize(), 4)
      requires forall i :: 0 <= i < |v| ==> v[i] in objs && Stored(buf.Data(), v[i], objs[v[i]])
      modifies this`minalign, buf, buf.buf
      ensures buf.Valid() && Extended() && buf.Scratch() == old(buf.Scratch())
      ensures GetSize() == old(GetSize()) + 4 * |v| && Aligned(GetSize(), 4)
      ensures minalign == if v == [] then old(minalign) else Max(old(minalign), 4)
      ensures forall i :: 0 <= i < |v| ==> RefStored(buf.Data(), GetSize() - 4 * i, objs[v[i]])
    {
      hide VectorDownward.Data, VectorDownward.Scratch, ToLE, PaddingBytes, Stored, RefStored, Extends, Zeros, Mask,
        Aligned;
      ghost var b0 := buf.Data();
      ExtendsSelf(b0);
      var i := |v|;
      while i > 0
        invariant 0 <= i <= |v| && buf.Valid() && Extended() && buf.Scratch() == old(buf.Scratch())
        invariant GetSize() == old(GetSize()) + 4 * (|v| - i) && Aligned(GetSize(), 4)
        invariant minalign == if i == |v| then old(minalign) else Max(old(minalign), 4)
        invariant forall j :: i <= j < |v| ==> RefStored(buf.Data(), |b0| + 4 * (|v| - j), objs[v[j]])
      {
        i := i - 1;
        ghost var b1 := buf.Data();
        StoredStays(b1, b0, v[i], objs[v[i]]);
        NoPadding(GetSize(), 4);
        var _ := PushOffset(v[i], objs[v[i]]);
        ExtendsOn(buf.Data(), b1, b0);
        forall j | i < j < |v|
          ensures RefStored(buf.Data(), |b0| + 4 * (|v| - j), objs[v[j]])
        {
          RefStays(buf.Data(), b1, |b0| + 4 * (|v| - j), objs[v[j]]);
        }
      }
    }

    method WriteOffsets(v: seq<nat>, ghost objs: map<nat, Obj>) returns (off: nat)
      requires buf.Valid() && !nested && numFieldLoc == 0 && HasRoom(4 * |v| + 64)
      requires forall i :: 0 <= i < |v| ==> v[i] in objs && Stored(buf.Data(), v[i], objs[v[i]])
      modifies this`minalign, this`nested, buf, buf.buf
      ensures buf.Valid() && Extended() && buf.Scratch() == old(buf.Scratch()) && !nested
      ensures off == GetSize() && old(GetSize()) < off <= old(GetSize()) + 4 * |v| + 32
      ensures minalign == Max(old(minalign), 4) && Stored(buf.Data(), off, Offsets(Children(objs, v)))
    {
      hide VectorDownward.Data, VectorDownward.Scratch, ToLE, Stored, RefStored, Extends, Mask, Aligned, Stride;
      ghost var b0 := buf.Data();
      StrideIs(|v|, 4);
      StartVector(|v|, SIZEOF_UOFFSET);
      ghost var b1 := buf.Data();
      forall i | 0 <= i < |v|
        ensures Stored(b1, v[i], objs[v[i]])
      {
        StoredStays(b1, b0, v[i], objs[v[i]]);
      }
      AlignedBack(GetSize(), |v|);
      PushOffsets(v, objs);
      ghost var b2 := buf.Data();
      ExtendsOn(b2, b1, b0);
      AlignedFour(GetSize());
      OffsetsLaid(b2, Children(objs, v));
      ExtendsPush(ToLE(|v|, 4), b2, b0);
      off := EndVector(|v|);
    }

    /** A vector of offsets to objects made earlier. */
    method CreateVectorOfOffsets(v: seq<nat>) returns (off: nat)
      requires Valid() && !nested && HasRoom(4 * |v| + 64)
      requires forall i :: 0 <= i < |v| ==> v[i] in known.objs
      modifies this`minalign, this`nested, this`known, buf, buf.buf
      ensures Valid() && !nested && Extended() && GetSize() <= old(GetSize()) + 4 * |v| + 32
      ensures off == GetSize() > old(GetSize()) && off !in old(known).objs
      ensures known == old(known).(objs := old(known).objs[off := Offsets(Children(old(known).objs, v))])
      ensures minalign == Max(old(minalign), 4)
    {
      hide VectorDownward.Data, VectorDownward.Scratch, PoolOk, Stored, Extends, VTablesOk, PendingOk;
      off := WriteOffsets(v, known.objs);
      ChildrenAlign(known.objs, v, old(minalign), minalign, old(buf.Data()));
      hide Knows;
      Learn(old(buf.Data()), old(minalign), off, Offsets(Children(known.objs, v)));
    }

    // ---------------------------------------------------------------- shared strings

    /** A length that stays within the buffer. */
    predicate HasString(off: nat)
      requires buf.Valid()
      reads this, buf, buf.buf
    {
      buf.buf != null && 4 <= off <= GetSize() &&
      var p := buf.DataAt(off);
      4 + FromLE(buf.buf[p..p + 4]) <= off
    }

    function StringAtOffset(off: nat): (s: seq<byte>)
      requires buf.Valid() && HasString(off)
      reads this, buf, buf.buf
    {
      var p := buf.DataAt(off);
      buf.buf[p + 4..p + 4 + FromLE(buf.buf[p..p + 4])]
    }

    /** Reading the buffer in place gives the string stored there. */
    lemma StringRead(off: nat, s: seq<byte>)
      requires buf.Valid() && Stored(buf.Data(), off, Str(s))
      ensures HasString(off) && StringAtOffset(off) == s
    {
      hide Stored, FromLE;
      StoredString(buf.Data(), off, s);
      var p, q := buf.DataAt(off), GetSize() - off;
      assert buf.Data()[q..q + 4] == buf.buf[p..p + 4];
      assert buf.Data()[q + 4..q + 4 + |s|] == buf.buf[p + 4..p + 4 + |s|];
    }

    /** The pool's comparison, on the strings in the buffer. */
    predicate OffsetLessThan(a: nat, b: nat)
      requires buf.Valid() && HasString(a) && HasString(b)
      reads this, buf, buf.buf
    {
      StringLessThan(StringAtOffset(a), StringAtOffset(b))
    }

    /** Looks for an entry that is neither less nor greater: one with the same bytes. */
    method FindString(off: nat, ghost str: seq<byte>) returns (found: bool, entry: nat)
      requires Valid() && off in known.objs && known.objs[off] == Str(str)
      ensures found ==> entry in stringPool && known.objs[entry] == Str(str)
      ensures !found ==> forall e :: e in stringPool ==> known.objs[e] != Str(str)
    {
      hide VectorDownward.Data, StringLessThan, StringAtOffset, HasString, Stored;
      StringRead(off, str);
      forall e | e in stringPool
        ensures HasString(e) && known.objs[e] == Str(StringAtOffset(e))
      {
        StringRead(e, known.objs[e].s);
      }
      if e :| e in stringPool && !OffsetLessThan(e, off) && !OffsetLessThan(off, e) {
        LessThanTotal(StringAtOffset(e), str);
        found, entry := true, e;
      } else {
        forall e | e in stringPool
          ensures known.objs[e] != Str(str)
        {
          LessThanTotal(StringAtOffset(e), str);
        }
        found, entry := false, 0;
      }
    }

    /** Equal strings get one offset; a string seen before leaves the buffer as it was. */
    method CreateSharedString(str: seq<byte>) returns (off: nat)
      requires Valid() && !nested && HasRoom(|str| + 32)
      modifies this`minalign, this`known, this`stringPool, buf, buf.buf
      ensures Valid() && Extended() && GetSize() <= old(GetSize()) + |str| + 16
      ensures off in known.objs && known.objs[off] == Str(str) && off in stringPool && minalign == Max(old(minalign), 4)
      ensures (exists e :: e in old(stringPool) && old(known).objs[e] == Str(str)) ==>
                buf.Data() == old(buf.Data()) && known == old(known) && stringPool == old(stringPool)
      ensures !(exists e :: e in old(stringPool) && old(known).objs[e] == Str(str)) ==>
                && off == GetSize() > old(GetSize()) && off !in old(known).objs && stringPool == old(stringPool) + {off}
                && known == old(known).(objs := old(known).objs[off := Str(str)])
    {
      hide VectorDownward.Data, VectorDownward.Scratch, Stored, Extends, Knows;
      var sizeBeforeString := buf.Size();
      ghost var b0, k0 := buf.Data(), known;
      off := CreateString(str);
      var found, entry := FindString(off, str);
      if found {
        ExtendsDrop(buf.Data(), b0);
        buf.Pop(buf.Size() - sizeBeforeString);
        ExtendsSelf(b0);
        KnowsStays(b0, b0, k0, maxVOffset, old(minalign), minalign);
        known := k0;
        off := entry;
      } else {
        stringPool := stringPool + {off};
      }
    }

    // ---------------------------------------------------------------- the fields of a table

    method StartTable() returns (start: nat)
      requires Valid() && !nested
      modifies this`nested, this`known
      ensures Valid() && nested && start == GetSize() && known == old(known).(start := start) && maxVOffset == 0
    {
      hide VectorDownward.Data, VectorDownward.Scratch, Knows, PoolOk;
      KnowsStarted(buf.Data(), known, minalign);
      nested := true;
      known := known.(start := GetSize());
      start := GetSize();
    }

    /** Remembers where a field was written, for the vtable. */
    method TrackField(field: nat, off: nat)
      requires buf.Valid() && HasRoom(0)
      modifies this`numFieldLoc, this`maxVOffset, buf, buf.buf
      ensures buf.Valid() && buf.Kept() && buf.Data() == old(buf.Data())
      ensures buf.Scratch() == old(buf.Scratch()) + LocBytes(FieldLoc(off, field))
      ensures numFieldLoc == old(numFieldLoc) + 1 && maxVOffset == Max(old(maxVOffset), field)
    {
      hide VectorDownward.Data, VectorDownward.Scratch;
      buf.ScratchPushSmall(LocBytes(FieldLoc(off, field)));
      numFieldLoc := numFieldLoc + 1;
      maxVOffset := Max(maxVOffset, field);
    }

    /** Tracks a field that now lies at the front of the buffer. */
    method TrackNew(field: nat, ghost b0: seq<byte>, ghost m: nat, ghost fld: Field)
      requires buf.Valid() && IsAlignment(minalign) && HasRoom(0) && m <= minalign
      requires Knows(b0, known, maxVOffset, m) && PoolOk(stringPool, known.objs) && ScratchIs()
      requires numFieldLoc == |known.locs| && nested && IsField(field)
      requires Extends(buf.Data(), b0) && GetSize() > |b0|
      requires FieldStored(buf.Data(), GetSize(), fld) && FieldAlignsWithin(fld, minalign)
      modifies this`numFieldLoc, this`maxVOffset, this`known, buf, buf.buf
      ensures Valid() && buf.Kept() && buf.Data() == old(buf.Data()) && maxVOffset == Max(old(maxVOffset), field)
      ensures known == old(known).(locs := old(known).locs + [FieldLoc(GetSize(), field)],
                                   flds := old(known).flds + [fld])
    {
      hide VectorDownward.Data, VectorDownward.Scratch, Knows, PoolOk, Extends, FieldStored, FieldAlignsWithin;
      KnowsStays(buf.Data(), b0, known, maxVOffset, m, minalign);
      KnowsStart(b0, known, maxVOffset, m);
      KnowsField(buf.Data(), known, maxVOffset, minalign, GetSize(), field, fld);
      LocsSnoc(known.locs, FieldLoc(GetSize(), field));
      Assoc(OffsetsBytes(known.vtables), LocsBytes(known.locs), LocBytes(FieldLoc(GetSize(), field)));
      TrackField(field, GetSize());
      known := known.(locs := known.locs + [FieldLoc(GetSize(), field)], flds := known.flds + [fld]);
    }

    /** The bytes of a scalar field. */
    method WriteScalar(element: seq<byte>)
      requires buf.Valid() && IsAlignment(|element|) && HasRoom(2 * |element|)
      modifies this`minalign, buf, buf.buf
      ensures buf.Valid() && Extended() && buf.Scratch() == old(buf.Scratch())
      ensures minalign == Max(old(minalign), |element|)
      ensures GetSize() == Padded(old(GetSize()), |element|) + |element|
      ensures FieldStored(buf.Data(), GetSize(), Inline(|element|, element))
    {
      hide VectorDownward.Data, VectorDownward.Scratch, Extends, FieldStored, PaddingBytes, Mask, Aligned, Zeros;
      ghost var b0 := buf.Data();
      PaddedIs(|b0|, |element|);
      var _ := PushElement(element);
      InlinePushed(b0, PaddingBytes(|b0|, |element|), element, |element|);
    }

    /** The bytes of a struct in the table. */
    method WriteStruct(align: nat, bytes: seq<byte>)
      requires buf.Valid() && IsAlignment(align) && HasRoom(|bytes| + 16) && |bytes| > 0 && Aligned(|bytes|, align)
      modifies this`minalign, buf, buf.buf
      ensures buf.Valid() && Extended() && buf.Scratch() == old(buf.Scratch()) && minalign == Max(old(minalign), align)
      ensures GetSize() == Padded(old(GetSize()), align) + |bytes|
      ensures FieldStored(buf.Data(), GetSize(), Inline(align, bytes))
    {
      hide VectorDownward.Data, VectorDownward.Scratch, Extends, FieldStored, PaddingBytes, Mask, Aligned, Zeros;
      ghost var b0 := buf.Data();
      PaddingAligns(|b0|, align, 0);
      PaddedIs(|b0|, align);
      Align(align);
      AlignedSum(GetSize(), |bytes|, align);
      Assoc(bytes, Zeros(PaddingBytes(|b0|, align)), b0);
      buf.PushSmall(bytes);
      InlinePushed(b0, PaddingBytes(|b0|, align), bytes, align);
    }

    /** Writes a scalar field, unless it has its default value. */
    method AddElement(field: nat, size: nat, e: nat, def: nat)
      requires Valid() && nested && IsField(field) && IsScalarSize(size) && e < Pow256(size) && HasRoom(32)
      modifies this`minalign, this`numFieldLoc, this`maxVOffset, this`known, buf, buf.buf
      ensures Valid() && Extended()
      ensures maxVOffset == if e == def && !forceDefaults then old(maxVOffset) else Max(old(maxVOffset), field)
      ensures if e == def && !forceDefaults then known == old(known) && buf.Data() == old(buf.Data())
              else GetSize() == Padded(old(GetSize()), size) + size
                   && known == old(known).(locs := old(known).locs + [FieldLoc(GetSize(), field)],
                                           flds := old(known).flds + [Inline(size, ToLE(e, size))])
    {
      hide VectorDownward.Data, VectorDownward.Scratch, Knows, PoolOk, Extends, FieldStored, ToLE, LocsBytes,
        OffsetsBytes;
      ExtendsSelf(buf.Data());
      if e == def && !forceDefaults {
        return;
      }
      ghost var b0 := buf.Data();
      WriteScalar(ToLE(e, size));
      TrackNew(field, b0, old(minalign), Inline(size, ToLE(e, size)));
    }

    /** Writes a reference to an object made earlier, unless it is null. */
    method AddOffset(field: nat, off: nat)
      requires Valid() && nested && IsField(field) && (off != 0 ==> off in known.objs) && HasRoom(32)
      modifies this`minalign, this`numFieldLoc, this`maxVOffset, this`known, buf, buf.buf
      ensures Valid() && Extended() && maxVOffset == if off == 0 then old(maxVOffset) else Max(old(maxVOffset), field)
      ensures if off == 0 then known == old(known) && buf.Data() == old(buf.Data())
              else GetSize() == Padded(old(GetSize()), 4) + 4
                   && known == old(known).(locs := old(known).locs + [FieldLoc(GetSize(), field)],
                                           flds := old(known).flds + [Ref(old(known).objs[off])])
    {
      hide VectorDownward.Data, VectorDownward.Scratch, PoolOk, Extends, Stored, RefStored, PaddingBytes, Aligned,
        VTablesOk, PendingOk;
      ExtendsSelf(buf.Data());
      if off == 0 {
        return;
      }
      ghost var b0, child := buf.Data(), known.objs[off];
      PaddedIs(|b0|, 4);
      var _ := PushOffset(off, child);
      AlignsWithinMore(child, old(minalign), minalign);
      hide Knows;
      TrackNew(field, b0, old(minalign), Ref(child));
    }

    /** Writes a struct into the table. */
    method AddStruct(field: nat, align: nat, bytes: seq<byte>)
      requires Valid() && nested && IsField(field) && IsAlignment(align) && HasRoom(|bytes| + 32)
      requires |bytes| > 0 && Aligned(|bytes|, align)
      modifies this`minalign, this`numFieldLoc, this`maxVOffset, this`known, buf, buf.buf
      ensures Valid() && Extended() && GetSize() == Padded(old(GetSize()), align) + |bytes|
      ensures maxVOffset == Max(old(maxVOffset), field)
      ensures known == old(known).(locs := old(known).locs + [FieldLoc(GetSize(), field)],
                                   flds := old(known).flds + [Inline(align, bytes)])
    {
      hide VectorDownward.Data, VectorDownward.Scratch, Knows, PoolOk, Extends, FieldStored, Aligned, LocsBytes,
        OffsetsBytes;
      ghost var b0 := buf.Data();
      WriteStruct(align, bytes);
      TrackNew(field, b0, old(minalign), Inline(align, bytes));
    }

    // ---------------------------------------------------------------- closing a table

    /** Drops the records of the fields. */
    method ClearOffsets()
      requires buf.Valid() && 8 * numFieldLoc <= |buf.Scratch()|
      modifies this`numFieldLoc, this`maxVOffset, buf`scratch
      ensures buf.Valid() && buf.Data() == old(buf.Data())
      ensures buf.Scratch() == old(buf.Scratch())[..|old(buf.Scratch())| - 8 * old(numFieldLoc)]
      ensures numFieldLoc == 0 && maxVOffset == 0
    {
      buf.ScratchPop(numFieldLoc * SIZEOF_FIELD_LOC);
      numFieldLoc, maxVOffset := 0, 0;
    }

    /** Writes the place of every tracked field into the vtable, from the records on the scratch stack. */
    method WriteFieldOffsets(table: nat, ghost below: seq<byte>, ghost locs: seq<FieldLoc>,
                             ghost n: nat, ghost objectSize: nat, ghost rest: seq<byte>)
      requires buf.Valid() && buf.buf != null && LocsOk(locs, table, n) && 4 <= n < 0x1_0000 && table < 0x8000_0000
      requires buf.Data() == EmptyVTable(n, objectSize) + rest
      requires buf.Scratch() == below + LocsBytes(locs) && numFieldLoc == |locs|
      modifies buf.buf
      ensures buf.Data() == VTable(locs, table, n, objectSize) + rest && buf.Scratch() == old(buf.Scratch())
    {
      hide VectorDownward.Data, VectorDownward.Scratch, VectorDownward.Load, Overwrite, EmptyVTable, LocsBytes, ToLE,
        LE;
      var i := 0;
      while i < numFieldLoc
        invariant 0 <= i <= |locs| && buf.Scratch() == old(buf.Scratch())
        invariant buf.Data() == VTableUpTo(locs, i, table, n, objectSize) + rest
      {
        var at := buf.scratch - SIZEOF_FIELD_LOC * (numFieldLoc - i);
        LocRead(below, locs, i);
        buf.LoadScratch(at, 4);
        buf.LoadScratch(at + 4, 2);
        var off, id := buf.Load(at, 4), buf.Load(at + 4, 2);
        NextCell(locs, i, table, n, objectSize, rest);
        buf.LoadData(buf.cur + id, 2);
        assert buf.Load(buf.cur + id, 2) == 0;  // a field is not set twice
        buf.Store(buf.cur + id, ToLE(table - off, 2));
        i := i + 1;
      }
    }

    /** The bytes a table may span, its offset to the vtable included. */
    predicate TableFits(start: nat)
      requires buf.Valid() && HasRoom(0)
      reads this, buf, buf.buf
    {
      GetSize() + PaddingBytes(GetSize(), 4) + 4 < start + 0x1_0000
    }

    /** A vtable of zeros, but for its own size and the table's. */
    method WriteVTableSizes(n: nat, tableObjectSize: nat)
      requires buf.Valid() && n >= 4 && HasRoom(0)
      modifies buf, buf.buf
      ensures buf.Valid() && buf.Kept() && buf.buf != null && buf.Scratch() == old(buf.Scratch())
      ensures buf.Data() == EmptyVTable(n, tableObjectSize) + old(buf.Data())
    {
      hide VectorDownward.Data, VectorDownward.Scratch, ToLE, EmptyVTable, Overwrite;
      HeaderWritten(n, tableObjectSize, buf.Data());
      buf.FillBig(n);
      buf.Store(buf.cur + SIZEOF_VOFFSET, ToLE(tableObjectSize, 2));
      buf.Store(buf.cur, ToLE(n, 2));
    }

    /** The place for the table's offset to its vtable, and in front of it the vtable. */
    method WriteVTable(start: nat, ghost below: seq<byte>, ghost locs: seq<FieldLoc>) returns (table: nat)
      requires buf.Valid() && IsAlignment(minalign) && maxVOffset < 0xFFFE && maxVOffset % 2 == 0
      requires HasRoom(maxVOffset + 32) && start <= GetSize() && TableFits(start)
      requires forall i :: 0 <= i < |locs| ==>
        IsField(locs[i].id) && locs[i].id <= maxVOffset && start < locs[i].off <= GetSize()
      requires forall i, j :: 0 <= i < j < |locs| ==> locs[i].id != locs[j].id
      requires buf.Scratch() == below + LocsBytes(locs) && numFieldLoc == |locs|
      modifies this`minalign, this`maxVOffset, buf, buf.buf
      ensures buf.Valid() && buf.Kept() && buf.buf != null && buf.Scratch() == old(buf.Scratch())
      ensures minalign == Max(old(minalign), 4) && maxVOffset == Max(old(maxVOffset) + 2, 4)
      ensures table == old(GetSize()) + PaddingBytes(old(GetSize()), 4) + 4 <= old(GetSize()) + 8 && Aligned(table, 4)
      ensures LocsOk(locs, table, maxVOffset) && table - start < 0x1_0000
      ensures buf.Data() == VTable(locs, table, maxVOffset, table - start)
                         + (ToLE(0, 4) + (Zeros(PaddingBytes(old(GetSize()), 4)) + old(buf.Data())))
    {
      hide VectorDownward.Data, VectorDownward.Scratch, ToLE, EmptyVTable, Overwrite, PaddingBytes, VTable, Aligned,
        Mask, LocsBytes, Zeros, Negate;
      ghost var b0, p := buf.Data(), PaddingBytes(GetSize(), 4);
      ghost var rest := ToLE(0, 4) + (Zeros(p) + b0);
      PaddingAligns(GetSize(), 4, 0);
      Assoc(ToLE(0, 4), Zeros(p), b0);
      table := PushElement(ToLE(0, 4));
      maxVOffset := Max(maxVOffset + SIZEOF_VOFFSET, FieldIndexToOffset(0));
      var tableObjectSize := table - start;
      WriteVTableSizes(maxVOffset, tableObjectSize);
      WriteFieldOffsets(table, below, locs, maxVOffset, tableObjectSize, rest);
    }

    /** Looks for an earlier vtable with the bytes of the one at the front. */
    method FindVTable(ghost v: seq<byte>, ghost b0: seq<byte>) returns (found: bool, vtUse: nat)
      requires buf.Valid() && buf.buf != null && VTableAt(buf.Data(), GetSize(), v) && GetSize() < MAX_BUFFER_SIZE
      requires Extends(buf.Data(), b0) && VTablesOk(b0, known.vtables)
      requires buf.Scratch() == OffsetsBytes(known.vtables)
      ensures found ==> vtUse in known.vtables && VTableAt(b0, vtUse, v)
      ensures found <==> HasVTable(b0, known.vtables, v)
    {
      hide VectorDownward.Data, VectorDownward.Scratch, VectorDownward.Load, VTableAt, VTableOf, OffsetsBytes,
        Extends, LE;
      VTableRead(GetSize(), v);
      var vt1, i := buf.cur, 0;
      var vt1Size := buf.Load(vt1, SIZEOF_VOFFSET);
      while 4 * i < buf.scratch
        invariant 0 <= i <= |known.vtables|
        invariant forall j :: 0 <= j < i ==> VTableOf(b0, known.vtables[j]) != v
      {
        ghost var w := VTableOf(b0, known.vtables[i]);
        VTableStays(buf.Data(), b0, known.vtables[i], w);
        VTableRead(known.vtables[i], w);
        VTableOffset(buf.Data(), known.vtables, i, w);
        buf.LoadScratch(4 * i, 4);
        var offset := buf.Load(4 * i, 4);
        var vt2 := buf.DataAt(offset);
        var vt2Size := buf.Load(vt2, SIZEOF_VOFFSET);
        if vt1Size == vt2Size && buf.buf[vt2..vt2 + vt1Size] == buf.buf[vt1..vt1 + vt1Size] {
          return true, offset;
        }
        i := i + 1;
      }
      return false, 0;
    }

    /** Reading a vtable in place. */
    lemma VTableRead(vt: nat, v: seq<byte>)
      requires buf.Valid() && VTableAt(buf.Data(), vt, v)
      ensures vt <= GetSize() && buf.buf != null
      ensures var p := buf.DataAt(vt);
              p + |v| <= buf.reserved && buf.cur <= p && buf.Load(p, 2) == |v| >= 2 && buf.buf[p..p + |v|] == v
    {
      hide FromLE;
      var p, q := buf.DataAt(vt), GetSize() - vt;
      SubRead(buf.Data(), q, v, 0, 2);
      buf.LoadData(p, 2);
      HasBytesSlice(buf.Data(), q, v);
      assert buf.Data()[q..q + |v|] == buf.buf[p..p + |v|];
    }

    /** Keeps the vtable at the front, or drops it for an earlier one with the same bytes; `front` is what stays. */
    method ShareVTable(table: nat, ghost v: seq<byte>, ghost rest: seq<byte>, ghost b0: seq<byte>)
      returns (vtUse: nat, ghost front: seq<byte>)
      requires buf.Valid() && buf.buf != null && HasRoom(0) && v != []
      requires buf.Data() == v + rest && VTableAt(buf.Data(), GetSize(), v) && table == |rest| > |b0|
      requires Extends(buf.Data(), b0) && VTablesOk(b0, known.vtables) && buf.Scratch() == OffsetsBytes(known.vtables)
      modifies buf, buf.buf
      ensures buf.Valid() && buf.Kept() && buf.buf != null && buf.Data() == front + rest && vtUse <= GetSize()
      ensures if front == [] then
                && vtUse in known.vtables && VTableAt(b0, vtUse, v) && buf.Scratch() == OffsetsBytes(known.vtables)
              else
                && front == v && vtUse == GetSize() && buf.Scratch() == OffsetsBytes(known.vtables + [vtUse])
      ensures front == [] <==> dedupVTables && HasVTable(b0, known.vtables, v)
    {
      hide VectorDownward.Data, VectorDownward.Scratch, ToLE, VTableAt, VTableOf, VTablesOk, Extends, OffsetsBytes;
      front := v;
      vtUse := GetSize();
      if dedupVTables {
        var found, earlier := FindVTable(v, b0);
        if found {
          vtUse := earlier;
          VTableWithin(b0, earlier, v);
          ExtendsDropFront(v, rest);
          buf.Pop(GetSize() - table);
          front := [];
        }
      }
      if vtUse == GetSize() {
        OffsetsSnoc(known.vtables, vtUse);
        buf.ScratchPushSmall(ToLE(vtUse, SIZEOF_UOFFSET));
      }
    }

    /** The bytes and the scratch stack after EndTable. */
    method CloseTable(start: nat, ghost b0: seq<byte>, ghost p: nat)
      returns (table: nat, vtUse: nat, ghost n: nat, ghost v: seq<byte>, ghost front: seq<byte>)
      requires Valid() && nested && start == known.start && TableFits(start) && HasRoom(maxVOffset + 32)
      requires forall i, j :: 0 <= i < j < |known.locs| ==> known.locs[i].id != known.locs[j].id
      requires b0 == buf.Data() && p == PaddingBytes(|b0|, 4)
      modifies this`minalign, this`numFieldLoc, this`maxVOffset, buf, buf.buf
      ensures buf.Valid() && buf.Kept() && numFieldLoc == 0 && maxVOffset == 0 && minalign == Max(old(minalign), 4)
      ensures table == 4 + p + |b0| && Aligned(table, 4) && p < 4 && n == Max(old(maxVOffset) + 2, 4)
      ensures 4 <= n < 0x1_0000 && n % 2 == 0
      ensures LocsOk(known.locs, table, n) && start <= table && v == VTable(known.locs, table, n, table - start)
      ensures vtUse <= GetSize() && table <= GetSize() < MAX_BUFFER_SIZE && GetSize() <= table + n
      ensures buf.Data() == front + (ToLE(OfI32(vtUse - table), 4) + (Zeros(p) + b0))
      ensures if front == [] then
                && vtUse in known.vtables && VTableAt(b0, vtUse, v) && buf.Scratch() == OffsetsBytes(known.vtables)
              else
                && front == v && vtUse == GetSize() && buf.Scratch() == OffsetsBytes(known.vtables + [vtUse])
      ensures front == [] <==> dedupVTables && HasVTable(b0, known.vtables, v)
    {
      hide VectorDownward.Data, VectorDownward.Scratch, ToLE, Overwrite, PaddingBytes, VTable, Aligned, VTableAt,
        VTableOf,
        VTablesOk, Extends, LocsBytes, OffsetsBytes, FieldStored, Stored, ObjsOk, PoolOk, FieldAlignsWithin, OfI32,
        Zeros;
      ghost var below, rest := OffsetsBytes(known.vtables), ToLE(0, 4) + (Zeros(p) + b0);
      PaddingAligns(|b0|, 4, 0);
      table := WriteVTable(start, below, known.locs);
      n, v := maxVOffset, VTable(known.locs, table, maxVOffset, table - start);
      VTableInFront(known.locs, table, n, table - start, rest, b0, p);
      ScratchBelow(below, LocsBytes(known.locs));
      ClearOffsets();
      vtUse, front := ShareVTable(table, v, rest, b0);
      FillVTableOffset(table, vtUse, front, p, b0);
    }

    /** The table starts with the distance to its vtable, which can lie on either side. */
    method FillVTableOffset(table: nat, vtUse: nat, ghost front: seq<byte>, ghost p: nat, ghost b0: seq<byte>)
      requires buf.Valid() && buf.buf != null && table == 4 + p + |b0| && vtUse <= GetSize() && HasRoom(0)
      requires buf.Data() == front + (ToLE(0, 4) + (Zeros(p) + b0))
      modifies buf.buf
      ensures table <= GetSize() && buf.Data() == front + (ToLE(OfI32(vtUse - table), 4) + (Zeros(p) + b0))
      ensures buf.Scratch() == old(buf.Scratch())
    {
      hide VectorDownward.Data, VectorDownward.Scratch, ToLE, Overwrite, OfI32;
      OverwriteMid(front, ToLE(0, 4), Zeros(p) + b0, ToLE(OfI32(vtUse - table), 4));
      buf.Store(buf.DataAt(table), ToLE(OfI32(vtUse - table), SIZEOF_UOFFSET));
    }

    /** Records a table that was just closed. */
    ghost method LearnTable(b0: seq<byte>, k: Knowledge, maxV: nat, m: nat, p: nat, table: nat, vtUse: nat, n: nat,
                            v: seq<byte>, front: seq<byte>)
      requires buf.Valid() && buf.Size() < MAX_BUFFER_SIZE && IsAlignment(minalign) && 4 <= minalign && m <= minalign
      requires known == k && Knows(b0, k, maxV, m) && PoolOk(stringPool, k.objs)
      requires !nested && numFieldLoc == 0 && maxVOffset == 0
      requires table == 4 + p + |b0| && table % 4 == 0 && 4 <= n < 0x1_0000 && n % 2 == 0 && LocsOk(k.locs, table, n)
      requires k.start <= table <= GetSize() && vtUse <= GetSize() && v == VTable(k.locs, table, n, table - k.start)
      requires buf.Data() == front + (ToLE(OfI32(vtUse - table), 4) + (Zeros(p) + b0))
      requires if front == [] then
                 vtUse in k.vtables && VTableAt(b0, vtUse, v) && buf.Scratch() == OffsetsBytes(k.vtables)
               else
                 front == v && vtUse == GetSize() && buf.Scratch() == OffsetsBytes(k.vtables + [vtUse])
      requires front == [] <==> dedupVTables && HasVTable(b0, k.vtables, v)
      modifies this`known
      ensures Valid() && Extends(buf.Data(), b0) && TableEnds(b0, k, buf.Data(), known, table, n, dedupVTables)
    {
      hide VectorDownward.Data, VectorDownward.Scratch, ToLE, VTable, VTableAt, VTableOf, TableEnds, LocsOk,
        Knows, Extends, FieldStored, Stored, OfI32, Zeros, GetVTable, HasVTable, OffsetsBytes;
      KnowsStart(b0, k, maxV, m);
      PoolStays(b0, k, maxV, m, stringPool, table, Table(FieldMap(k.locs, k.flds)));
      var b := buf.Data();
      var after := EndTableKnows(b0, p, front, b, table, vtUse, n, k, maxV, m, minalign, dedupVTables);
      EndTableKnown(b0, k, b, after, table, n, dedupVTables);
      NoLocs(OffsetsBytes(after.vtables));
      known := after;
    }

    /** Finishes a table with a vtable, shared with an earlier table where that is allowed and possible. */
    method EndTable(start: nat) returns (table: nat)
      requires Valid() && nested && start == known.start && TableFits(start) && HasRoom(maxVOffset + 32)
      requires forall i, j :: 0 <= i < j < |known.locs| ==> known.locs[i].id != known.locs[j].id
      modifies this`minalign, this`numFieldLoc, this`maxVOffset, this`nested, this`known, buf, buf.buf
      ensures Valid() && !nested && Extended() && minalign == Max(old(minalign), 4) && table !in old(known).objs
      ensures TableEnds(old(buf.Data()), old(known), buf.Data(), known, table,
                        Max(old(maxVOffset) + 2, 4), dedupVTables)
      ensures GetSize() <= old(GetSize()) + 8 + Max(old(maxVOffset) + 2, 4)
    {
      hide VectorDownward.Data, VectorDownward.Scratch, ToLE, PaddingBytes, VTable, VTableAt, TableEnds, LocsOk,
        Knows, PoolOk, Extends, OfI32, Zeros, HasVTable, OffsetsBytes, LocsBytes;
      ghost var b0, k, p := buf.Data(), known, PaddingBytes(GetSize(), 4);
      ghost var n, v, front, vtUse;
      table, vtUse, n, v, front := CloseTable(start, b0, p);
      AlignedFour(table);
      nested := false;
      PoolStays(b0, k, old(maxVOffset), old(minalign), stringPool, table, Table(map[]));
      LearnTable(b0, k, old(maxVOffset), old(minalign), p, table, vtUse, n, v, front);
    }

    // ---------------------------------------------------------------- the whole buffer

    method ClearBuffer()
      requires Valid()
      modifies this`numFieldLoc, this`maxVOffset, buf
      ensures buf.Valid() && buf.Data() == [] && buf.Scratch() == [] && buf.buf == old(buf.buf)
      ensures numFieldLoc == 0 && maxVOffset == 0
    {
      hide VectorDownward.Data, VectorDownward.Scratch, Knows, PoolOk, OffsetsBytes, LocsBytes;
      ClearOffsets();
      buf.Clear();
    }

    /** Starts over, with the memory and the options kept. */
    method Clear()
      requires Valid()
      modifies this`numFieldLoc, this`maxVOffset, this`nested, this`finished, this`minalign, this`stringPool,
        this`known, buf
      ensures Valid() && !nested && !finished && minalign == 1 && stringPool == {} && buf.Data() == []
      ensures known == NOTHING && buf.buf == old(buf.buf)
    {
      hide VectorDownward.Data, VectorDownward.Scratch, Knows, OffsetsBytes, LocsBytes;
      NothingKnown(1);
      ClearBuffer();
      nested, finished, minalign, stringPool := false, false, 1, {};
      known := NOTHING;
    }

    /** Starts over, and drops the memory. */
    method Reset()
      requires Valid()
      modifies this`numFieldLoc, this`maxVOffset, this`nested, this`finished, this`minalign, this`stringPool,
        this`known, buf
      ensures Valid() && !nested && !finished && minalign == 1 && stringPool == {} && buf.Data() == []
      ensures known == NOTHING && buf.buf == null
    {
      hide VectorDownward.Data, VectorDownward.Scratch, Knows, OffsetsBytes, LocsBytes;
      Clear();
      buf.Reset();
    }

    /** The optional size, the root's offset and the optional identifier, on a buffer padded for them. */
    method PushHeader(root: nat, fileIdentifier: Option<seq<byte>>, sizePrefix: bool, ghost o: Obj)
      requires buf.Valid() && IsAlignment(minalign) && minalign >= 4 && HasRoom(64) && Stored(buf.Data(), root, o)
      requires fileIdentifier.Some? ==> |fileIdentifier.value| == FILE_IDENTIFIER_LENGTH
      modifies this`minalign, buf, buf.buf
      ensures buf.Valid() && Extended() && buf.Scratch() == old(buf.Scratch()) && minalign == old(minalign)
      ensures Aligned(GetSize(), minalign)
      ensures old(GetSize()) + (if sizePrefix then 8 else 4) <= GetSize() <= old(GetSize()) + 28
      ensures IsFinished(buf.Data(), root, fileIdentifier, sizePrefix)
    {
      hide VectorDownward.Data, VectorDownward.Scratch, ToLE, PaddingBytes, Extends, Stored, RefStored, Zeros, Mask,
        IsAlignment, IsFinished;
      FourAligns();
      ghost var b0 := buf.Data();
      var header := (if sizePrefix then SIZEOF_UOFFSET else 0) + SIZEOF_UOFFSET
                    + if fileIdentifier.Some? then FILE_IDENTIFIER_LENGTH else 0;
      ghost var p := HeaderPads(|b0|, header, minalign);
      ghost var id := fileIdentifier.GetOr([]);
      PreAlign(header, minalign);
      HeaderExtends(b0, p, [], [], []);
      NoZerosBelow(buf.Data());
      StoredStays(buf.Data(), b0, root, o);
      PushRoot(root, fileIdentifier, o);
      ghost var b3 := buf.Data();
      ghost var prefix := if sizePrefix then ToLE(|b3|, 4) else [];
      HeaderDone(b0, p, id, |b3| - root, prefix, root, fileIdentifier, sizePrefix);
      WriteSizePrefix(sizePrefix);
    }

    method PushRoot(root: nat, fileIdentifier: Option<seq<byte>>, ghost o: Obj)
      requires buf.Valid() && HasRoom(16) && minalign >= 4 && Stored(buf.Data(), root, o) && Aligned(GetSize(), 4)
      requires fileIdentifier.Some? ==> |fileIdentifier.value| == FILE_IDENTIFIER_LENGTH
      modifies this`minalign, buf, buf.buf
      ensures buf.Valid() && buf.Kept() && buf.Scratch() == old(buf.Scratch()) && minalign == old(minalign)
      ensures var id := fileIdentifier.GetOr([]);
              buf.Data() == ToLE(old(GetSize()) + |id| + 4 - root, 4) + (id + old(buf.Data()))
      ensures Aligned(GetSize(), 4)
    {
      hide VectorDownward.Data, VectorDownward.Scratch, ToLE, PaddingBytes, Stored, RefStored, Zeros, Mask, Aligned,
        Extends;
      ghost var b1 := buf.Data();
      WriteIdentifier(fileIdentifier);
      ghost var b2 := buf.Data();
      ExtendsFront(fileIdentifier.GetOr([]), b1);
      StoredStays(b2, b1, root, o);
      HeaderStaysAligned(|b1|);
      NoPadding(|b2|, 4);
      NoZerosBelow(b2);
      var _ := PushOffset(root, o);
    }

    method WriteIdentifier(fileIdentifier: Option<seq<byte>>)
      requires buf.Valid() && HasRoom(0)
      modifies buf, buf.buf
      ensures buf.Valid() && buf.Kept() && buf.Scratch() == old(buf.Scratch())
      ensures buf.Data() == fileIdentifier.GetOr([]) + old(buf.Data())
    {
      hide VectorDownward.Data, VectorDownward.Scratch;
      if fileIdentifier.Some? {
        PushBytes(fileIdentifier.value);
      } else {
        assert [] + buf.Data() == buf.Data();
      }
    }

    method WriteSizePrefix(sizePrefix: bool)
      requires buf.Valid() && HasRoom(4) && Aligned(GetSize(), 4) && minalign >= 4
      modifies this`minalign, buf, buf.buf
      ensures buf.Valid() && buf.Kept() && buf.Scratch() == old(buf.Scratch()) && minalign == old(minalign)
      ensures buf.Data() == (if sizePrefix then ToLE(old(GetSize()), 4) else []) + old(buf.Data())
    {
      hide VectorDownward.Data, VectorDownward.Scratch, ToLE;
      if sizePrefix {
        var _ := PushUnpadded(ToLE(GetSize(), SIZEOF_UOFFSET));
      } else {
        assert [] + buf.Data() == buf.Data();
      }
    }

    /**
     * Ends the buffer with the offset of its root, after an optional file identifier and under an optional size.
     * The whole is then a multiple of the largest alignment used, so what was aligned from the end is aligned
     * from the start as well.
     */
    method Finish(root: nat, fileIdentifier: Option<seq<byte>>, sizePrefix: bool)
      requires Valid() && !nested && root in known.objs && HasRoom(64)
      requires fileIdentifier.Some? ==> |fileIdentifier.value| == FILE_IDENTIFIER_LENGTH
      modifies this`minalign, this`finished, this`known, buf, buf.buf
      ensures Valid() && finished && Extended() && known == old(known).(vtables := [], open := false)
      ensures minalign == old(minalign) >= 4 && Aligned(GetSize(), minalign)
      ensures GetSize() >= old(GetSize()) + (if sizePrefix then 8 else 4)
      ensures IsFinished(buf.Data(), root, fileIdentifier, sizePrefix)
    {
      hide VectorDownward.Data, VectorDownward.Scratch, Extends, Stored, AlignsWithin, Aligned, VTablesOk, PendingOk,
        IsFinished, PoolOk;
      ghost var b0, o := buf.Data(), known.objs[root];
      AlignsAtLeast(o, minalign);
      buf.ClearScratch();
      PushHeader(root, fileIdentifier, sizePrefix, o);
      hide Knows;
      KnowsStays(buf.Data(), b0, known, maxVOffset, minalign, minalign);
      KnowsNoVTables(buf.Data(), known, maxVOffset, minalign);
      known := known.(vtables := [], open := false);
      finished := true;
    }
  }

  lemma AlignsAtLeast(o: Obj, m: nat)
    requires AlignsWithin(o, m)
    ensures 4 <= m
  {
  }

  lemma KnowsNoVTables(b: seq<byte>, k: Knowledge, maxVOffset: nat, m: nat)
    requires Knows(b, k, maxVOffset, m)
    ensures Knows(b, k.(vtables := [], open := false), maxVOffset, m)
  {
    hide ObjsOk, PendingOk;
  }

  lemma HeaderPads(n: nat, header: nat, m: nat) returns (p: nat)
    requires IsAlignment(m) && m >= 4 && header in {4, 8, 12} && IsU64(n + header)
    ensures p == PaddingBytes(n + header, m) < 16 && Aligned(p + n + header, m) && Aligned(p + n, 4)
  {
    PaddingAligns(n + header, m, 0);
    p := PaddingBytes(n + header, m);
    assert p + n + header == n + header + p;
    AlignedDown(p + n + header, 4, m);
  }

  lemma HeaderStaysAligned(n: nat)
    requires Aligned(n, 4)
    ensures Aligned(n + 4, 4) && Aligned(4 + n, 4)
  {
  }

  lemma NoZerosBelow(b: seq<byte>)
    ensures Zeros(0) + b == b
  {
  }

  lemma HeaderDone(b0: seq<byte>, p: nat, id: seq<byte>, u: nat, prefix: seq<byte>, root: nat,
                   fileIdentifier: Option<seq<byte>>, sizePrefix: bool)
    requires var b3 := ToLE(u, 4) + (id + (Zeros(p) + b0));
             u == |b3| - root && |b3| < 0x8000_0000 && prefix == if sizePrefix then ToLE(|b3|, 4) else []
    requires id == fileIdentifier.GetOr([]) && (fileIdentifier.Some? ==> |id| == 4)
    ensures Extends(prefix + (ToLE(u, 4) + (id + (Zeros(p) + b0))), b0)
    ensures IsFinished(prefix + (ToLE(u, 4) + (id + (Zeros(p) + b0))), root, fileIdentifier, sizePrefix)
  {
    hide ToLE, IsFinished, Extends, Zeros;
    HeaderExtends(b0, p, id, ToLE(u, 4), prefix);
    HeaderRead(prefix, u, id, Zeros(p) + b0, root, fileIdentifier, sizePrefix);
  }

  lemma HeaderRead(prefix: seq<byte>, u: nat, id: seq<byte>, b1: seq<byte>, root: nat,
                   fileIdentifier: Option<seq<byte>>, sizePrefix: bool)
    requires var b3 := ToLE(u, 4) + (id + b1);
             u == |b3| - root && |b3| < 0x8000_0000 && prefix == if sizePrefix then ToLE(|b3|, 4) else []
    requires id == fileIdentifier.GetOr([]) && (fileIdentifier.Some? ==> |id| == 4)
    ensures IsFinished(prefix + (ToLE(u, 4) + (id + b1)), root, fileIdentifier, sizePrefix)
  {
    hide ToLE, FromLE;
    var b3 := ToLE(u, 4) + (id + b1);
    var b := prefix + b3;
    Powers();
    FromToLE(u, 4);
    FromToLE(|b3|, 4);
    SliceLeft(ToLE(u, 4), id + b1, 0, 4);
    ReadGrows(prefix, b3, 0, 4);
    SliceLeft(prefix, b3, 0, |prefix|);
    assert prefix[0..|prefix|] == prefix;
    Assoc(ToLE(u, 4), id, b1);
    SliceMid(ToLE(u, 4), id, b1, 0, |id|);
    SliceRight(prefix, b3, 4, |id|);
    assert id[0..|id|] == id;
  }

  lemma EndTableKnown(b0: seq<byte>, k: Knowledge, b: seq<byte>, after: Knowledge, table: nat, n: nat, dedup: bool)
    requires TableEnds(b0, k, b, after, table, n, dedup)
    ensures |k.locs| == |k.flds| && after.objs == k.objs[table := Table(FieldMap(k.locs, k.flds))]
    ensures after.locs == [] && after.flds == []
  {
  }

  /** What the fresh vtable is, before it is compared with the earlier ones. */
  lemma VTableInFront(locs: seq<FieldLoc>, table: nat, n: nat, objectSize: nat, rest: seq<byte>, b0: seq<byte>, p: nat)
    requires LocsOk(locs, table, n) && 4 <= n < 0x1_0000 && n % 2 == 0
    requires rest == ToLE(0, 4) + (Zeros(p) + b0) && Aligned(|rest|, 4)
    ensures VTableAt(VTable(locs, table, n, objectSize) + rest, n + |rest|, VTable(locs, table, n, objectSize))
    ensures Extends(VTable(locs, table, n, objectSize) + rest, b0)
  {
    hide ToLE, FromLE, Zeros, VTable, LocsOk, Extends, VTableAt;
    AlignedFour(|rest|);
    VTableSize(locs, table, n, objectSize);
    NewVTable(VTable(locs, table, n, objectSize), rest);
    ExtendsSelf(b0);
    ExtendsPush(Zeros(p), b0, b0);
    ExtendsPush(ToLE(0, 4), Zeros(p) + b0, b0);
    ExtendsPush(VTable(locs, table, n, objectSize), rest, b0);
  }

  lemma VTableWithin(b: seq<byte>, vt: nat, v: seq<byte>)
    requires VTableAt(b, vt, v)
    ensures vt <= |b|
  {
  }

  lemma ScratchBelow(below: seq<byte>, top: seq<byte>)
    ensures (below + top)[..|below + top| - |top|] == below
  {
  }

  lemma ExtendsDropFront(front: seq<byte>, b: seq<byte>)
    ensures (front + b)[|front|..] == b
  {
  }

  lemma VTableOffset(b: seq<byte>, vtables: seq<nat>, i: nat, v: seq<byte>)
    requires i < |vtables| && VTableAt(b, vtables[i], v) && |b| < 0x1_0000_0000
    ensures LE(OffsetsBytes(vtables), 4 * i, 4) == vtables[i]
  {
    OffsetAt(vtables, i);
    Powers();
    FromToLE(vtables[i], 4);
  }

  lemma NoLocs(below: seq<byte>)
    ensures below + LocsBytes([]) == below
  {
  }

  lemma KnowsStart(b: seq<byte>, k: Knowledge, maxVOffset: nat, m: nat)
    requires Knows(b, k, maxVOffset, m)
    ensures k.start <= |b| && |k.locs| == |k.flds|
  {
  }

  lemma ExtendsDrop(c: seq<byte>, b: seq<byte>)
    requires Extends(c, b)
    ensures |b| <= |c| && c[|c| - |b|..] == b
  {
  }

  lemma FourAligns()
    ensures IsAlignment(4)
  {
  }

  lemma AlignedBack(n: nat, k: nat)
    requires Aligned(n + Stride(k, 4), 4)
    ensures Aligned(n, 4)
  {
  }

  lemma ChildrenAlign(objs: map<nat, Obj>, v: seq<nat>, m: nat, n: nat, b: seq<byte>)
    requires ObjsOk(b, objs, m) && m <= n && 4 <= n && forall i :: 0 <= i < |v| ==> v[i] in objs
    ensures AlignsWithin(Offsets(Children(objs, v)), n)
  {
    forall i | 0 <= i < |v|
      ensures AlignsWithin(objs[v[i]], n)
    {
      AlignsWithinMore(objs[v[i]], m, n);
    }
  }

  lemma NoZeros(front: seq<byte>, b: seq<byte>)
    ensures front + Zeros(0) + b == front + b
  {
  }

  /** Padding to a multiple of 4, then to one of the element size, reaches both. */
  lemma VectorPads(n: nat, bytes: nat, s: nat) returns (p: nat, q: nat)
    requires IsAlignment(s) && IsU64(n + bytes + 16)
    ensures p == PaddingBytes(n + bytes, 4) < 4 && q == PaddingBytes(n + p + bytes, s) < 16
    ensures Aligned(q + (p + n) + bytes, 4) && Aligned(q + (p + n) + bytes, s)
  {
    PadsTo(n, bytes, 4);
    p := PaddingBytes(n + bytes, 4);
    var k := n + p + bytes;
    PaddingAligns(k, s, 0);
    q := PaddingBytes(k, s);
    if s <= 4 {
      AlignedDown(k, s, 4);
      NoPadding(k, s);
    } else {
      AlignedDown(k + q, 4, s);
    }
    assert q + (p + n) + bytes == k + q;
  }

  /** A new object at a new offset leaves the pool entries alone. */
  lemma PoolStays(b: seq<byte>, k: Knowledge, maxVOffset: nat, m: nat, pool: set<nat>, off: nat, o: Obj)
    requires Knows(b, k, maxVOffset, m) && PoolOk(pool, k.objs) && off > |b|
    ensures PoolOk(pool, k.objs[off := o]) && off !in k.objs
  {
  }

  lemma AlignedStep(n: nat, s: nat)
    requires IsAlignment(s) && Aligned(n, s)
    ensures Aligned(n + s, s)
  {
  }
}
