/** The builder: a byte buffer that only grows, a stack of values not yet in a parent, and two pools. */
module FlexBuilder {
  import opened Options
  import opened Bytes
  import opened FlexTypes
  import opened FlexReader
  import opened FlexTree
  import opened FlexWidth
  import opened FlexImage
  import opened FlexVector
  import opened FlexVectorReads
  import opened FlexMap
  import opened FlexMapReads
  import opened FlexPools
  import opened FlexFinish
  import opened FlexStack
  import opened FlexTidyStack

  class Builder {
    var buf: seq<byte>
    var stack: seq<Value>
    var finished: bool
    var forceMinBitWidth: BitWidth
    var keyPool: set<nat>
    var stringPool: set<(nat, nat)>
    const shareKeys: bool
    const shareStrings: bool

    /** What the values on the stack denote. */
    ghost var trees: seq<Tree>

    ghost predicate Valid()
      reads this
    {
      && AllDenote(buf, stack, trees)
      && |buf| <= MAX_BYTES && |stack| <= MAX_VALUES
      && KeyPoolOk(buf, keyPool)
      && StringPoolOk(buf, stringPool)
    }

    /** Memory for `n` more bytes and one more value. */
    ghost predicate HasRoom(n: nat)
      reads this
    {
      |buf| + n + 8 <= MAX_BYTES && |stack| < MAX_VALUES
    }

    /** No number on the stack or in the buffer shares a byte with anything else. */
    ghost predicate IsTidy()
      reads this
    {
      AllTidy(buf, stack, trees, keyPool, stringPool)
    }

    constructor (shareKeys: bool, shareStrings: bool)
      ensures Valid() && IsTidy() && buf == [] && trees == [] && !finished
      ensures this.shareKeys == shareKeys && this.shareStrings == shareStrings
      ensures forceMinBitWidth == BIT_WIDTH_8 && keyPool == {} && stringPool == {}
    {
      NothingTidy();
      buf, stack, finished, forceMinBitWidth := [], [], false, BIT_WIDTH_8;
      keyPool, stringPool := {}, {};
      this.shareKeys, this.shareStrings := shareKeys, shareStrings;
      trees := [];
    }

    lemma StackCount()
      requires Valid()
      ensures |stack| == |trees|
    {
    }

    method Clear()
      modifies this
      ensures Valid() && IsTidy() && buf == [] && trees == [] && !finished
      ensures forceMinBitWidth == BIT_WIDTH_8 && keyPool == {} && stringPool == {}
    {
      NothingTidy();
      buf, stack, finished, forceMinBitWidth := [], [], false, BIT_WIDTH_8;
      keyPool, stringPool := {}, {};
      trees := [];
    }

    method ForceMinimumBitWidth(bw: BitWidth)
      requires Valid()
      modifies this`forceMinBitWidth
      ensures Valid() && forceMinBitWidth == bw && (old(IsTidy()) ==> IsTidy())
    {
      forceMinBitWidth := bw;
    }

    // -------------------------------------------------------------- writing

    /** Pads to a multiple of the width. */
    method Align(alignment: BitWidth) returns (byteWidth: nat)
      requires |buf| <= MAX_BYTES
      modifies this`buf
      ensures byteWidth == ByteWidth(alignment)
      ensures buf == old(buf) + Zeros(AlignUp(old(|buf|), alignment) - old(|buf|))
      ensures |buf| == AlignUp(old(|buf|), alignment) && Lies(|buf|, ByteWidth(alignment))
    {
      AlignUpLies(|buf|, alignment);
      byteWidth := ByteWidth(alignment);
      buf := buf + Zeros(PaddingBytes(|buf|, byteWidth));
    }

    method WriteBytes(val: seq<byte>)
      modifies this`buf
      ensures buf == old(buf) + val
    {
      buf := buf + val;
    }

    /** The low `byteWidth` bytes of a number. */
    method Write(val: nat, byteWidth: nat)
      modifies this`buf
      ensures buf == old(buf) + ToLE(val, byteWidth)
    {
      WriteBytes(ToLE(val, byteWidth));
    }

    method WriteOffset(o: nat, byteWidth: nat)
      requires o <= |buf| && |buf| - o < Pow256(byteWidth)
      modifies this`buf
      ensures buf == old(buf) + ToLE(old(|buf|) - o, byteWidth)
    {
      var reloff := |buf| - o;
      Write(reloff, byteWidth);
    }

    method WriteAny(val: Value, bw: BitWidth)
      requires Placed(val, |buf|) && Holds(val, |buf|, bw)
      modifies this`buf
      ensures buf == old(buf) + AnyBytes(val, old(|buf|), ByteWidth(bw))
    {
      if IsInline(val.ty) {
        Write(val.u, ByteWidth(bw));
      } else {
        WriteOffset(val.u, ByteWidth(bw));
      }
    }

    // -------------------------------------------------------------- scalars

    /** Pushes a value on the stack, for a tree that it denotes. */
    method Push(v: Value, ghost t: Tree)
      requires Valid() && |stack| < MAX_VALUES && Denotes(buf, v, t)
      modifies this`stack, this`trees
      ensures Valid() && stack == old(stack) + [v] && trees == old(trees) + [t]
    {
      stack := stack + [v];
      trees := trees + [t];
    }

    method PushScalar(v: Value, ghost t: Tree)
      requires Valid() && |stack| < MAX_VALUES && Denotes(buf, v, t) && IsScalarTree(t)
      modifies this`stack, this`trees
      ensures Valid() && stack == old(stack) + [v] && trees == old(trees) + [t]
      ensures old(IsTidy()) ==> IsTidy()
    {
      hide Denotes, KeyPoolOk, StringPoolOk, AllTidy;
      if IsTidy() {
        ScalarTidy(buf, stack, trees, keyPool, stringPool, v, t);
      }
      Push(v, t);
    }

    method Null()
      requires Valid() && HasRoom(0)
      modifies this`stack, this`trees
      ensures Valid() && trees == old(trees) + [Tree.Null]
      ensures stack == old(stack) + [Value(0, FBT_NULL, BIT_WIDTH_8)] && (old(IsTidy()) ==> IsTidy())
    {
      PushScalar(Value(0, FBT_NULL, BIT_WIDTH_8), Tree.Null);
    }

    method Bool(b: bool)
      requires Valid() && HasRoom(0)
      modifies this`stack, this`trees
      ensures Valid() && trees == old(trees) + [Tree.Bool(b)]
      ensures stack == old(stack) + [Value(if b then 1 else 0, FBT_BOOL, BIT_WIDTH_8)] && (old(IsTidy()) ==> IsTidy())
    {
      PushScalar(Value(if b then 1 else 0, FBT_BOOL, BIT_WIDTH_8), Tree.Bool(b));
    }

    method Int(i: int)
      requires Valid() && HasRoom(0) && IsI64(i)
      modifies this`stack, this`trees
      ensures Valid() && trees == old(trees) + [Tree.Int(i)]
      ensures stack == old(stack) + [Value(ToU64(i), FBT_INT, WidthI(i))] && (old(IsTidy()) ==> IsTidy())
    {
      PushScalar(Value(ToU64(i), FBT_INT, WidthI(i)), Tree.Int(i));
    }

    method UInt(u: nat)
      requires Valid() && HasRoom(0) && IsU64(u)
      modifies this`stack, this`trees
      ensures Valid() && trees == old(trees) + [Tree.UInt(u)]
      ensures stack == old(stack) + [Value(u, FBT_UINT, WidthU(u))] && (old(IsTidy()) ==> IsTidy())
    {
      PushScalar(Value(u, FBT_UINT, WidthU(u)), Tree.UInt(u));
    }

    /** Writes a number to the buffer and pushes its position. */
    method PushIndirect(val: nat, ty: Type, bw: BitWidth, ghost t: Tree)
      requires Valid() && HasRoom(8)
      requires IsU64(val)
      requires t == if ty == FBT_INDIRECT_INT then Tree.IndirectInt(ToI64(val)) else Tree.IndirectUInt(val)
      requires (ty == FBT_INDIRECT_INT && bw == WidthI(ToI64(val))) || (ty == FBT_INDIRECT_UINT && bw == WidthU(val))
      modifies this
      ensures Valid() && old(buf) <= buf && |buf| <= old(|buf|) + 16 && trees == old(trees) + [t]
      ensures unchanged(this`finished, this`forceMinBitWidth, this`keyPool, this`stringPool)
      ensures buf == old(buf) + Zeros(AlignUp(old(|buf|), bw) - old(|buf|)) + ToLE(val, ByteWidth(bw))
      ensures ByteWidth(bw) <= |buf| && Lies(|buf| - ByteWidth(bw), ByteWidth(bw))
      ensures stack == old(stack) + [Value(|buf| - ByteWidth(bw), ty, bw)]
      ensures old(IsTidy()) ==> IsTidy()
    {
      hide KeyPoolOk, StringPoolOk, AlignUp, Zeros, AllTidy, Lies, WidthI, WidthU;
      var byteWidth := Align(bw);
      var iloc := |buf|;
      Write(val, byteWidth);
      assert HasBytes(buf, iloc, ToLE(val, byteWidth));
      if ty == FBT_INDIRECT_INT {
        WrittenInt(buf, iloc, bw, ToI64(val));
      } else {
        WrittenUInt(buf, iloc, byteWidth, val);
      }
      Grown(old(buf));
      if old(IsTidy()) {
        IndirectTidy(old(buf), buf, stack, trees, keyPool, stringPool, Value(iloc, ty, bw), t);
      }
      Push(Value(iloc, ty, bw), t);
    }

    /** After the buffer has grown, everything that held still holds. */
    lemma Grown(b: seq<byte>)
      requires AllDenote(b, stack, trees) && KeyPoolOk(b, keyPool) && StringPoolOk(b, stringPool)
      requires b <= buf
      ensures AllDenote(buf, stack, trees) && KeyPoolOk(buf, keyPool) && StringPoolOk(buf, stringPool)
    {
      StackGrows(b, buf, stack, trees);
      KeyPoolGrows(b, buf, keyPool);
      StringPoolGrows(b, buf, stringPool);
    }

    method IndirectInt(i: int)
      requires Valid() && HasRoom(8) && IsI64(i)
      modifies this
      ensures Valid() && old(buf) <= buf && |buf| <= old(|buf|) + 16 && trees == old(trees) + [Tree.IndirectInt(i)]
      ensures unchanged(this`finished, this`forceMinBitWidth, this`keyPool, this`stringPool)
      ensures ByteWidth(WidthI(i)) <= |buf| && Lies(|buf| - ByteWidth(WidthI(i)), ByteWidth(WidthI(i)))
      ensures old(IsTidy()) ==> IsTidy()
      ensures stack == old(stack) + [Value(|buf| - ByteWidth(WidthI(i)), FBT_INDIRECT_INT, WidthI(i))]
    {
      PushIndirect(ToU64(i), FBT_INDIRECT_INT, WidthI(i), Tree.IndirectInt(i));
    }

    method IndirectUInt(u: nat)
      requires Valid() && HasRoom(8) && IsU64(u)
      modifies this
      ensures Valid() && old(buf) <= buf && |buf| <= old(|buf|) + 16 && trees == old(trees) + [Tree.IndirectUInt(u)]
      ensures unchanged(this`finished, this`forceMinBitWidth, this`keyPool, this`stringPool)
      ensures ByteWidth(WidthU(u)) <= |buf| && Lies(|buf| - ByteWidth(WidthU(u)), ByteWidth(WidthU(u)))
      ensures old(IsTidy()) ==> IsTidy()
      ensures stack == old(stack) + [Value(|buf| - ByteWidth(WidthU(u)), FBT_INDIRECT_UINT, WidthU(u))]
    {
      PushIndirect(u, FBT_INDIRECT_UINT, WidthU(u), Tree.IndirectUInt(u));
    }

    // -------------------------------------------------------------- keys, strings, blobs

    /** Writes a terminated key, or finds it in the pool and takes the writing back. */
    method Key(str: seq<byte>) returns (sloc: nat)
      requires Valid() && HasRoom(|str| + 1)
      modifies this
      ensures Valid() && trees == old(trees) + [Tree.Key(Truncate(str))]
      ensures old(buf) <= buf && |buf| <= old(|buf|) + |str| + 1
      ensures stack == old(stack) + [Value(sloc, FBT_KEY, BIT_WIDTH_8)]
      ensures unchanged(this`finished, this`forceMinBitWidth, this`stringPool)
      ensures if shareKeys && HasKey(old(buf), old(keyPool), Truncate(str))
              then buf == old(buf) && keyPool == old(keyPool) && sloc in keyPool
              else buf == old(buf) + (str + [0]) && sloc == old(|buf|)
                   && keyPool == old(keyPool) + if shareKeys then {sloc} else {}
      ensures old(IsTidy()) ==> IsTidy()
    {
      hide Denotes, StringPoolOk, Truncate;
      sloc := |buf|;
      WriteBytes(str + [0]);
      assert buf[sloc..sloc + |str|] == str;
      TerminatedReads(buf, sloc, str);
      Grown(old(buf));
      KeyPoolGrows(old(buf), buf, keyPool);
      if shareKeys {
        if it :| it in keyPool && CStr(buf, it) == CStr(buf, sloc) {
          buf := buf[..sloc];
          assert buf == old(buf);
          sloc := it;
        } else {
          keyPool := keyPool + {sloc};
        }
      }
      KeyIsDenoted(buf, sloc, Truncate(str));
      if old(IsTidy()) {
        KeyTidy(old(buf), old(keyPool), sloc, str);
      }
      Push(Value(sloc, FBT_KEY, BIT_WIDTH_8), Tree.Key(Truncate(str)));
    }

    /** A key of the pool, or a new one. */
    lemma KeyTidy(b: seq<byte>, kp: set<nat>, sloc: nat, str: seq<byte>)
      requires AllTidy(b, stack, trees, kp, stringPool) && AllDenote(b, stack, trees)
      requires CStr(buf, sloc) == Some(Truncate(str))
      requires (buf == b && keyPool == kp && sloc in keyPool)
               || (buf == b + (str + [0]) && sloc == |b| && (keyPool == kp || keyPool == kp + {sloc}))
      ensures AllTidy(buf, stack + [Value(sloc, FBT_KEY, BIT_WIDTH_8)], trees + [Tree.Key(Truncate(str))], keyPool,
                      stringPool)
    {
      hide AllTidy, AllDenote, Truncate, CStr;
      var v, t := Value(sloc, FBT_KEY, BIT_WIDTH_8), Tree.Key(Truncate(str));
      if buf == b && keyPool == kp && sloc in keyPool {
        SharedTidy(b, stack, trees, kp, stringPool, v, t);
      } else {
        TextTidy(b, buf, stack, trees, kp, stringPool, v, t);
      }
    }

    /** Padding, size, data and trailing zeros. */
    method WriteBlob(data: seq<byte>, trailing: nat) returns (sloc: nat)
      requires |buf| <= MAX_BYTES && IsU64(|data|)
      modifies this`buf
      ensures buf == old(buf) + Zeros(AlignUp(old(|buf|), WidthU(|data|)) - old(|buf|)) + BlobImage(data, trailing)
      ensures old(buf) <= buf && Lies(sloc, ByteWidth(WidthU(|data|)))
      ensures old(|buf|) + ByteWidth(WidthU(|data|)) <= sloc <= old(|buf|) + 16
      ensures sloc + |data| + trailing == |buf| && buf[sloc..sloc + |data|] == data
      ensures buf[sloc + |data|..] == Zeros(trailing)
      ensures SizedBytes(buf, sloc, ByteWidth(WidthU(|data|))) == Some(data)
    {
      hide AlignUp, SizedBytes, ToLE;
      var byteWidth := Align(WidthU(|data|));
      BlobReads(buf, data, trailing);
      ghost var image := buf + BlobImage(data, trailing);
      NextLies(|buf|, byteWidth);
      Write(|data|, byteWidth);
      sloc := |buf|;
      WriteBytes(data + Zeros(trailing));
      assert buf == image;
    }

    method CreateBlob(data: seq<byte>, trailing: nat, ty: Type) returns (sloc: nat)
      requires Valid() && HasRoom(|data| + trailing + 8) && trailing <= 1
      requires ty == FBT_STRING || ty == FBT_BLOB
      modifies this`buf, this`stack, this`trees
      ensures Valid()
      ensures trees == old(trees) + [if ty == FBT_STRING then Tree.Str(data) else Tree.Blob(data)]
      ensures stack == old(stack) + [Value(sloc, ty, WidthU(|data|))]
      ensures old(buf) <= buf && old(|buf|) + ByteWidth(WidthU(|data|)) <= sloc
      ensures buf == old(buf) + Zeros(AlignUp(old(|buf|), WidthU(|data|)) - old(|buf|)) + BlobImage(data, trailing)
      ensures Lies(sloc, ByteWidth(WidthU(|data|)))
      ensures sloc + |data| + trailing == |buf| <= old(|buf|) + |data| + trailing + 16
      ensures buf[sloc..sloc + |data|] == data
      ensures buf[sloc + |data|..] == Zeros(trailing)
      ensures SizedBytes(buf, sloc, ByteWidth(WidthU(|data|))) == Some(data)
      ensures stack[..|stack| - 1] == old(stack) && trees[..|stack| - 1] == old(trees)
      ensures old(IsTidy()) ==> IsTidy()
    {
      hide KeyPoolOk, StringPoolOk, AlignUp, SizedBytes, AllTidy, BlobImage, Zeros;
      var bitWidth := WidthU(|data|);
      sloc := WriteBlob(data, trailing);
      Grown(old(buf));
      if old(IsTidy()) {
        TextTidy(old(buf), buf, stack, trees, keyPool, stringPool, Value(sloc, ty, bitWidth),
                 if ty == FBT_STRING then Tree.Str(data) else Tree.Blob(data));
      }
      Push(Value(sloc, ty, bitWidth), if ty == FBT_STRING then Tree.Str(data) else Tree.Blob(data));
    }

    method Blob(data: seq<byte>) returns (sloc: nat)
      requires Valid() && HasRoom(|data| + 8)
      modifies this`buf, this`stack, this`trees
      ensures Valid() && old(buf) <= buf && |buf| <= old(|buf|) + |data| + 16 && trees == old(trees) + [Tree.Blob(data)]
      ensures stack == old(stack) + [Value(sloc, FBT_BLOB, WidthU(|data|))] && Lies(sloc, ByteWidth(WidthU(|data|)))
      ensures buf == old(buf) + Zeros(AlignUp(old(|buf|), WidthU(|data|)) - old(|buf|)) + BlobImage(data, 0)
      ensures old(IsTidy()) ==> IsTidy()
    {
      sloc := CreateBlob(data, 0, FBT_BLOB);
    }

    /** All but the value on top of the stack denote their trees. */
    ghost predicate ValidBelow()
      reads this
    {
      && stack != [] && AllDenote(buf, stack[..|stack| - 1], trees)
      && |buf| <= MAX_BYTES && |stack| <= MAX_VALUES
      && KeyPoolOk(buf, keyPool)
      && StringPoolOk(buf, stringPool)
    }

    /** Forgets the string on top of the stack that was just written, for the one found in the pool. */
    method TakeBack(resetTo: nat, at: nat)
      requires Valid() && resetTo <= |buf| && stack != []
      requires var b, n := buf[..resetTo], |stack| - 1;
               AllDenote(b, stack[..n], trees[..n]) && KeyPoolOk(b, keyPool) && StringPoolOk(b, stringPool)
      modifies this`buf, this`stack, this`trees
      ensures ValidBelow() && buf == old(buf)[..resetTo] && trees == old(trees)[..|old(trees)| - 1]
      ensures stack == old(stack)[..|old(stack)| - 1] + [old(stack)[|old(stack)| - 1].(u := at)]
    {
      hide Denotes, KeyPoolOk, StringPoolOk;
      buf := buf[..resetTo];
      var last := |stack| - 1;
      stack := stack[..last] + [stack[last].(u := at)];
      trees := trees[..last];
      assert stack[..last] == old(stack)[..last];
    }

    /** The value on top denotes a tree after all. */
    ghost method Restore(t: Tree)
      requires ValidBelow() && Denotes(buf, stack[|stack| - 1], t)
      modifies this`trees
      ensures Valid() && trees == old(trees) + [t]
    {
      hide Denotes, KeyPoolOk, StringPoolOk;
      trees := trees + [t];
    }

    /**
     * What String leaves behind, given what was there before. Without a clash the value pushed denotes the argument,
     * and a string in the pool leaves the buffer as it was. With a clash the value leads to a different string of the
     * pool, whose size is then read at the width of the argument's size: it denotes that string if the widths agree.
     */
    ghost predicate StringDone(b: seq<byte>, pool: set<(nat, nat)>, ts: seq<Tree>, str: seq<byte>, sloc: nat)
      requires StringPoolOk(b, pool)
      reads this
    {
      if !shareStrings || NoClash(b, pool, str) then
        && Valid() && trees == ts + [Tree.Str(str)]
        && if shareStrings && HasString(b, pool, str) then
             buf == b && stringPool == pool && (sloc, |str|) in stringPool
           else
             && IsU64(|str|) && |b| + ByteWidth(WidthU(|str|)) <= sloc && sloc + |str| <= |buf|
             && Lies(sloc, ByteWidth(WidthU(|str|))) && IsU64(|b|)
             && buf == b + Zeros(AlignUp(|b|, WidthU(|str|)) - |b|) + BlobImage(str, 1)
             && buf[sloc..sloc + |str|] == str
             && stringPool == pool + if shareStrings then {(sloc, |str|)} else {}
      else
        buf == b && stringPool == pool && exists n: nat :: Misread(sloc, n, str) && Leads(sloc, n, str, ts)
    }

    /** The top value reads as the string of `n` bytes if its size is stored with the width expected. */
    ghost predicate Leads(sloc: nat, n: nat, str: seq<byte>, ts: seq<Tree>)
      requires sloc + n <= |buf|
      reads this
    {
      if IsU64(n) && IsU64(|str|) && WidthU(n) == WidthU(|str|) then
        Valid() && trees == ts + [Tree.Str(buf[sloc..sloc + n])]
      else ValidBelow() && trees == ts
    }

    /** Writes a string, or finds one in the pool and takes the writing back. */
    method String(str: seq<byte>) returns (sloc: nat)
      requires Valid() && HasRoom(|str| + 9)
      modifies this
      ensures stack == old(stack) + [Value(sloc, FBT_STRING, WidthU(|str|))]
      ensures unchanged(this`finished, this`forceMinBitWidth, this`keyPool)
      ensures old(buf) <= buf && |buf| <= old(|buf|) + |str| + 17
      ensures StringDone(old(buf), old(stringPool), old(trees), str, sloc)
      ensures old(IsTidy()) && (!shareStrings || NoClash(old(buf), old(stringPool), str)) ==> IsTidy()
    {
      hide Denotes, SizedBytes, Truncate, Clash, KeyPoolOk, AllDenote, SameString, PoolMatches, HasString, NoClash,
        AllTidy, BlobImage, Zeros, AlignUp;
      var resetTo := |buf|;
      sloc := CreateBlob(str, 1, FBT_STRING);
      if shareStrings {
        StringPoolGrows(old(buf), buf, stringPool);
        assert buf[..resetTo] == old(buf);
        sloc := ShareString(resetTo, sloc, str, old(trees));
        if old(IsTidy()) && NoClash(old(buf), old(stringPool), str) {
          StringTidy(old(buf), old(stack), old(trees), old(stringPool), str, sloc);
        }
      }
    }

    /** A string of the pool, or a new one. */
    lemma StringTidy(b: seq<byte>, vs: seq<Value>, ts: seq<Tree>, sp: set<(nat, nat)>, str: seq<byte>, sloc: nat)
      requires AllTidy(b, vs, ts, keyPool, sp) && AllDenote(b, vs, ts) && b <= buf && IsU64(|str|)
      requires StringPoolOk(b, sp) && NoClash(b, sp, str) && shareStrings && StringDone(b, sp, ts, str, sloc)
      requires stack == vs + [Value(sloc, FBT_STRING, WidthU(|str|))]
      ensures IsTidy()
    {
      hide AllTidy, AllDenote, NoClash, HasString, StringPoolOk;
      var v, t := Value(sloc, FBT_STRING, WidthU(|str|)), Tree.Str(str);
      if HasString(b, sp, str) {
        SharedTidy(b, vs, ts, keyPool, sp, v, t);
      } else {
        TextTidy(b, buf, vs, ts, keyPool, sp, v, t);
      }
    }

    /** Looks the string just written up in the pool. */
    method ShareString(resetTo: nat, at: nat, str: seq<byte>, ghost ts: seq<Tree>) returns (sloc: nat)
      requires Valid() && shareStrings && stack != [] && IsU64(|str|)
      requires resetTo + ByteWidth(WidthU(|str|)) <= at && resetTo <= |buf| && Lies(at, ByteWidth(WidthU(|str|)))
      requires Stored(buf, at, |str|) && buf[at..at + |str|] == str
      requires stack[|stack| - 1] == Value(at, FBT_STRING, WidthU(|str|)) && trees == ts + [Tree.Str(str)]
      requires buf == buf[..resetTo] + Zeros(AlignUp(resetTo, WidthU(|str|)) - resetTo) + BlobImage(str, 1)
      requires var b := buf[..resetTo];
               AllDenote(b, stack[..|stack| - 1], ts) && KeyPoolOk(b, keyPool) && StringPoolOk(b, stringPool)
      modifies this`buf, this`stack, this`trees, this`stringPool
      ensures old(buf)[..resetTo] <= buf <= old(buf) && StringDone(old(buf)[..resetTo], old(stringPool), ts, str, sloc)
      ensures stack == old(stack)[..|old(stack)| - 1] + [Value(sloc, FBT_STRING, WidthU(|str|))]
    {
      hide Denotes, SizedBytes, Truncate, Clash, KeyPoolOk, AllDenote, SameString, PoolMatches, Misread, ByteWidth,
        HasString, NoClash, BlobImage, Zeros, AlignUp;
      ghost var b := buf[..resetTo];
      StringPoolGrows(b, buf, stringPool);
      AllDenoteBelow(buf, stack, trees, |stack| - 1);
      assert trees[..|stack| - 1] == ts;
      if it :| it in stringPool && PoolMatches(buf[it.0..it.0 + it.1], str) {
        sloc := UsePooled(resetTo, str, it);
      } else {
        sloc := at;
        Remember(sloc, str);
        SameNoClash(b, buf, old(stringPool), str);
      }
    }

    lemma SameNoClash(b: seq<byte>, b': seq<byte>, pool: set<(nat, nat)>, str: seq<byte>)
      requires b <= b' && StringPoolOk(b, pool) && StringPoolOk(b', pool)
      ensures NoClash(b', pool, str) <==> NoClash(b, pool, str)
      ensures HasString(b', pool, str) <==> HasString(b, pool, str)
    {
      hide Clash, Truncate, SizedBytes;
      StringPoolGrows(b, b', pool);
    }

    /** Takes the string just written back, for the entry that the pool found. */
    method UsePooled(resetTo: nat, str: seq<byte>, it: (nat, nat)) returns (sloc: nat)
      requires Valid() && resetTo <= |buf| && stack != [] && IsU64(|str|)
      requires stack[|stack| - 1].ty == FBT_STRING && stack[|stack| - 1].minWidth == WidthU(|str|)
      requires var b, n := buf[..resetTo], |stack| - 1;
               && AllDenote(b, stack[..n], trees[..n]) && KeyPoolOk(b, keyPool) && StringPoolOk(b, stringPool)
               && it in stringPool && PoolMatches(b[it.0..it.0 + it.1], str)
      modifies this`buf, this`stack, this`trees
      ensures buf == old(buf)[..resetTo] && (sloc, it.1) == it
      ensures stack == old(stack)[..|old(stack)| - 1] + [Value(sloc, FBT_STRING, WidthU(|str|))]
      ensures NoClash(buf, stringPool, str) <==> buf[it.0..it.0 + it.1] == str
      ensures HasString(buf, stringPool, str) <==> buf[it.0..it.0 + it.1] == str
      ensures buf[it.0..it.0 + it.1] != str ==> Misread(sloc, it.1, str)
      ensures Leads(sloc, it.1, str, old(trees)[..|old(trees)| - 1])
    {
      hide Denotes, SizedBytes, Truncate, Clash, KeyPoolOk, AllDenote, SameString, PoolMatches;
      sloc := it.0;
      TakeBack(resetTo, sloc);
      PoolHit(buf, stringPool, str, it);
      MatchIsOnly(buf, stringPool, str, it);
      if WidthU(it.1) == WidthU(|str|) {
        Restore(Tree.Str(buf[it.0..it.0 + it.1]));
      }
    }

    /** A pooled string that the pool takes for this different one. */
    ghost predicate Misread(sloc: nat, n: nat, str: seq<byte>)
      reads this
    {
      (sloc, n) in stringPool && sloc + n <= |buf| && Clash(buf[sloc..sloc + n], str)
    }

    /** Adds a string that matches nothing to the pool. */
    method Remember(sloc: nat, str: seq<byte>)
      requires Valid() && Stored(buf, sloc, |str|) && buf[sloc..sloc + |str|] == str
      requires forall e :: e in stringPool ==> !PoolMatches(buf[e.0..e.0 + e.1], str)
      modifies this`stringPool
      ensures Valid() && stringPool == old(stringPool) + {(sloc, |str|)}
      ensures !HasString(buf, old(stringPool), str) && NoClash(buf, old(stringPool), str)
    {
      PoolMiss(buf, stringPool, str, sloc);
      stringPool := stringPool + {(sloc, |str|)};
    }

    // -------------------------------------------------------------- vectors

    /** The first loop of `CreateVector`: the width that fits everything, and the common type. */
    method ChooseWidth(start: nat, vecLen: nat, step: nat, typed: bool, keys: Option<Value>)
      returns (bitWidth: BitWidth, vectorType: Type)
      requires step > 0 && |stack| <= MAX_VALUES && |buf| <= MAX_BYTES
      requires AllPlaced(stack, |buf|) && KeysPlaced(keys, |buf|)
      requires vecLen == |Strided(stack, start, step)|
      ensures bitWidth == VectorWidth(|buf|, stack, start, step, forceMinBitWidth, keys)
      ensures vectorType == if start < |stack| && typed then stack[start].ty else FBT_KEY
    {
      hide ElemWidth, WidthU;
      bitWidth := MaxWidth(forceMinBitWidth, WidthU(vecLen));
      var prefixElems := 1;
      if keys.Some? {
        var keysWidth := ComputeElemWidth(keys.value, |buf|, 0);
        bitWidth := MaxWidth(bitWidth, keysWidth);
        prefixElems := prefixElems + 2;
      }
      ghost var target := VectorWidth(|buf|, stack, start, step, forceMinBitWidth, keys);
      vectorType := FBT_KEY;
      var i := start;
      while i < |stack|
        invariant start <= i && (i == start || start < |stack|)
        invariant Widens(bitWidth, stack, i, step, |buf|, prefixElems, target)
        invariant vectorType == if i == start || !typed then FBT_KEY else stack[start].ty
      {
        var elemWidth := ComputeElemWidth(stack[i], |buf|, i + prefixElems);
        WidensStep(bitWidth, stack, i, step, |buf|, prefixElems, target);
        bitWidth := MaxWidth(bitWidth, elemWidth);
        if typed {
          if i == start {
            vectorType := stack[i].ty;
          }
        }
        i := i + step;
      }
    }

    /** The second loop: the elements, at the width chosen. */
    method WriteElements(start: nat, step: nat, bw: BitWidth)
      requires step > 0 && AllPlaced(Strided(stack, start, step), |buf|)
      requires AllHold(Strided(stack, start, step), |buf|, bw)
      modifies this`buf
      ensures buf == old(buf) + AllBytes(Strided(stack, start, step), old(|buf|), ByteWidth(bw))
    {
      hide AnyBytes, Holds, Cells, AllBytes, Strided;
      ghost var vs := Strided(stack, start, step);
      ghost var head, done, w := buf, [], ByteWidth(bw);
      WrittenNone(vs, |head|, w);
      var i := start;
      ghost var k := 0;
      while i < |stack|
        invariant 0 <= k <= |vs| && vs[k..] == Strided(stack, i, step)
        invariant Written(vs, |head|, w, k, done) && buf == head + done
      {
        StridedNext(stack, i, step, vs, k);
        WriteStep(head, vs, bw, k, done, buf);
        done := done + AnyBytes(vs[k], |buf|, w);
        WriteAny(stack[i], bw);
        i := i + step;
        k := k + 1;
      }
      StridedDone(stack, i, step, vs, k);
    }

    /** The third loop: the packed types. */
    method WriteTypes(start: nat, step: nat, bw: BitWidth)
      requires step > 0
      modifies this`buf
      ensures buf == old(buf) + TypeBytes(Strided(stack, start, step), bw)
    {
      hide Strided;
      ghost var vs := Strided(stack, start, step);
      var i := start;
      ghost var k := 0;
      while i < |stack|
        invariant 0 <= k <= |vs| && vs[k..] == Strided(stack, i, step)
        invariant buf == old(buf) + TypeBytes(vs[..k], bw)
      {
        StridedNext(stack, i, step, vs, k);
        buf := buf + [stack[i].StoredPackedType(bw)];
        assert TypeBytes(vs[..k + 1], bw) == TypeBytes(vs[..k], bw) + [vs[k].StoredPackedType(bw)];
        i := i + step;
        k := k + 1;
      }
      StridedDone(stack, i, step, vs, k);
    }

    /** What comes before the elements: for a map its keys, and unless the type says it, the size. */
    method WritePrefix(vecLen: nat, byteWidth: nat, fixed: bool, keys: Option<Value>)
      requires KeysPlaced(keys, |buf|)
      requires keys.Some? ==> |buf| - keys.value.u < Pow256(byteWidth)
      modifies this`buf
      ensures buf == old(buf) + KeysBytes(old(|buf|), byteWidth, keys) + SizeBytes(vecLen, byteWidth, fixed)
      ensures |buf| == ElemsAt(old(|buf|), byteWidth, fixed, keys)
    {
      hide Cells, ToLE, Pow256;
      PrefixSize(|buf|, byteWidth, vecLen, fixed, keys);
      ghost var keysBytes := KeysBytes(|buf|, byteWidth, keys);
      if keys.Some? {
        ghost var offset := ToLE(|buf| - keys.value.u, byteWidth);
        ghost var width := ToLE(ByteWidth(keys.value.minWidth), byteWidth);
        Assoc(buf, offset, width);
        WriteOffset(keys.value.u, byteWidth);
        Write(ByteWidth(keys.value.minWidth), byteWidth);
      }
      assert buf == old(buf) + keysBytes;
      if !fixed {
        Write(vecLen, byteWidth);
      }
    }

    /** Prefix, elements and types, in an aligned buffer, at a width in which everything holds. */
    method WriteVector(start: nat, vecLen: nat, step: nat, typed: bool, fixed: bool, keys: Option<Value>, bw: BitWidth)
      returns (vloc: nat)
      requires step > 0 && vecLen == |Strided(stack, start, step)|
      requires AllPlaced(Strided(stack, start, step), |buf|) && KeysPlaced(keys, |buf|)
      requires AllHold(Strided(stack, start, step), ElemsAt(|buf|, ByteWidth(bw), fixed, keys), bw)
      requires keys.Some? ==> |buf| - keys.value.u < Pow256(ByteWidth(bw))
      modifies this`buf
      ensures buf == old(buf) + VectorImage(old(|buf|), Strided(stack, start, step), bw, typed, fixed, keys)
      ensures vloc == ElemsAt(old(|buf|), ByteWidth(bw), fixed, keys)
    {
      WritePrefix(vecLen, ByteWidth(bw), fixed, keys);
      vloc := |buf|;
      WriteElements(start, step, bw);
      if typed {
        assert buf + [] == buf;
      } else {
        WriteTypes(start, step, bw);
      }
      ImageFrom(old(buf), Strided(stack, start, step), bw, typed, fixed, keys, vloc);
    }

    /** Chooses the width, aligns and writes the vector; the value is for the stack of the caller. */
    method CreateVector(start: nat, vecLen: nat, step: nat, typed: bool, fixed: bool, keys: Option<Value>)
      returns (v: Value)
      requires step > 0 && |stack| <= MAX_VALUES && |buf| <= MAX_BYTES
      requires AllPlaced(stack, |buf|) && KeysPlaced(keys, |buf|) && (keys.Some? ==> !IsInline(keys.value.ty))
      requires vecLen == |Strided(stack, start, step)|
      requires ElementTypesOk(Strided(stack, start, step), typed, fixed, keys)
      modifies this`buf
      ensures (buf, v) == Created(old(buf), stack, start, step, typed, fixed, keys, forceMinBitWidth)
    {
      hide AlignUp, ElemsWidth, VectorWidth, AllBytes, TypeBytes, Cells;
      StridedPlaced(stack, start, step, |buf|);
      var bitWidth, vectorType := ChooseWidth(start, vecLen, step, typed, keys);
      WidthSuffices(|buf|, stack, start, step, forceMinBitWidth, fixed, keys);
      var _ := Align(bitWidth);
      var vloc := WriteVector(start, vecLen, step, typed, fixed, keys, bitWidth);
      v := Value(vloc,
                 if keys.Some? then FBT_MAP
                 else if typed then ToTypedVector(vectorType, if fixed then vecLen else 0)
                 else FBT_VECTOR,
                 bitWidth);
    }

    method StartVector() returns (start: nat)
      ensures start == |stack|
    {
      start := |stack|;
    }

    /** Replaces the values from `start` on by one vector of them. */
    method EndVector(start: nat, typed: bool, fixed: bool) returns (vloc: nat)
      requires Valid() && start <= |stack| && HasRoom(9 * (|stack| - start) + 32)
      requires TreesOk(trees[start..], typed, fixed)
      modifies this`buf, this`stack, this`trees
      ensures Valid() && old(buf) <= buf && |buf| <= old(|buf|) + 9 * (old(|stack|) - start) + 32
      ensures trees == old(trees)[..start] + [VectorTree(old(trees)[start..], typed, fixed)]
      ensures old(IsTidy()) ==> IsTidy()
      ensures |stack| == start + 1 && stack[..start] == old(stack)[..start]
      ensures CanCreate(old(buf), old(stack), start, 1, typed, fixed, None)
      ensures (buf, stack[start]) == Created(old(buf), old(stack), start, 1, typed, fixed, None, forceMinBitWidth)
    {
      hide Denotes, Created, KeyPoolOk, StringPoolOk, TreesOk, VectorTree, AllTidy;
      VectorEnds(buf, stack, trees, start, typed, fixed, forceMinBitWidth);
      if IsTidy() {
        VectorTidy(buf, stack, trees, keyPool, stringPool, start, typed, fixed, forceMinBitWidth);
      }
      ghost var tree := VectorTree(trees[start..], typed, fixed);
      var vec := CreateVector(start, |stack| - start, 1, typed, fixed, None);
      Replace(start, vec, tree, old(buf));
      vloc := vec.u;
    }

    /** Cuts the stack and pushes the value that stands for what was cut off. */
    method Replace(start: nat, vec: Value, ghost tree: Tree, ghost b: seq<byte>)
      requires start <= |stack| && b <= buf && |buf| <= MAX_BYTES && |stack| < MAX_VALUES
      requires AllDenote(b, stack, trees) && KeyPoolOk(b, keyPool) && StringPoolOk(b, stringPool)
      requires Denotes(buf, vec, tree)
      modifies this`stack, this`trees
      ensures Valid() && stack == old(stack)[..start] + [vec] && trees == old(trees)[..start] + [tree]
    {
      Grown(b);
      stack := stack[..start];
      trees := trees[..start];
      Push(vec, tree);
    }

    /** `std::sort` of the pairs from `start` on, by the keys in the buffer. */
    method SortPairs(start: nat)
      requires Valid() && start <= |stack| && (|stack| - start) % 2 == 0
      requires AllKeys(Strided(trees, start, 2))
      modifies this`stack, this`trees
      ensures Valid() && |stack| == old(|stack|) && (old(IsTidy()) ==> IsTidy())
      ensures stack[..start] == old(stack)[..start] && trees[..start] == old(trees)[..start]
      ensures var ks := KeyContents(Strided(old(trees), start, 2));
              var order := SortOrder(ks, |ks|);
              && Below(order, |Strided(old(trees), start + 1, 2)|) && Below(order, |Strided(old(stack), start, 2)|)
              && Below(order, |Strided(old(stack), start + 1, 2)|)
              && Strided(stack, start, 2) == Pick(Strided(old(stack), start, 2), order)
              && Strided(stack, start + 1, 2) == Pick(Strided(old(stack), start + 1, 2), order)
              && Strided(trees, start, 2) == Pick(Strided(old(trees), start, 2), order)
              && Strided(trees, start + 1, 2) == Pick(Strided(old(trees), start + 1, 2), order)
      ensures AllKeys(Strided(trees, start, 2))
      ensures Distinct(KeyContents(Strided(old(trees), start, 2))) ==>
                Ascending(KeyContents(Strided(trees, start, 2)))
    {
      hide Denotes, KeyPoolOk, StringPoolOk, SortOrder, Interleave, Strided, AllTidy, Ascending,
        Distinct;
      ghost var keyTrees, valTrees := Strided(trees, start, 2), Strided(trees, start + 1, 2);
      var keys, vals := Strided(stack, start, 2), Strided(stack, start + 1, 2);
      StridedDenote(buf, stack, trees, start, 2);
      KeysDenoted(buf, keys, keyTrees);
      var ks := KeysInBuffer(buf, keys);
      var order := SortOrder(ks, |ks|);
      StridedHalves(stack, start);
      StridedHalves(trees, start);
      SortedDenote(buf, stack, trees, start, order);
      if IsTidy() {
        SortedTidy(buf, stack, trees, keyPool, stringPool, start, order);
      }
      Rearranged(stack, start, Pick(keys, order), Pick(vals, order));
      Rearranged(trees, start, Pick(keyTrees, order), Pick(valTrees, order));
      PickedAscend(keyTrees);
      stack := stack[..start] + Interleave(Pick(keys, order), Pick(vals, order));
      trees := trees[..start] + Interleave(Pick(keyTrees, order), Pick(valTrees, order));
    }

    /** Sorts the pairs from `start` on and replaces them by one map. */
    method EndMap(start: nat) returns (vloc: nat)
      requires Valid() && start <= |stack| && (|stack| - start) % 2 == 0 && HasRoom(18 * (|stack| - start) + 80)
      requires AllKeys(Strided(trees, start, 2)) && Distinct(KeyContents(Strided(trees, start, 2)))
      modifies this`buf, this`stack, this`trees
      ensures Valid() && old(buf) <= buf && |buf| <= old(|buf|) + 18 * (old(|stack|) - start) + 64
      ensures var ks, ts := KeyContents(Strided(old(trees), start, 2)), Strided(old(trees), start + 1, 2);
              |ks| == |ts| && trees == old(trees)[..start] + [Map(MapOf(ks, ts))]
      ensures old(IsTidy()) ==> IsTidy()
      ensures |stack| == start + 1 && stack[..start] == old(stack)[..start]
    {
      hide Denotes, KeyPoolOk, StringPoolOk, MapOf, Ascending, AllTidy;
      ghost var ks, ts := PairsOf(trees, start).0, PairsOf(trees, start).1;
      ghost var order := SortOrder(ks, |ks|);
      SortPairs(start);
      PickedKeys(old(Strided(trees, start, 2)), order);
      SortedPairs(ks, ts, order);
      vloc := WriteMap(start, Pick(ks, order), Pick(ts, order));
    }

    /** The keys of sorted pairs as a typed vector, then the values with that in front. */
    method WriteMap(start: nat, ghost ks: seq<seq<byte>>, ghost ts: seq<Tree>) returns (vloc: nat)
      requires Valid() && start <= |stack| && (|stack| - start) % 2 == 0 && HasRoom(18 * (|stack| - start) + 80)
      requires |ks| == |ts| && Ascending(ks)
      requires Strided(trees, start, 2) == KeyTrees(ks) && Strided(trees, start + 1, 2) == ts
      modifies this`buf, this`stack, this`trees
      ensures Valid() && old(buf) <= buf && |buf| <= old(|buf|) + 18 * (old(|stack|) - start) + 64
      ensures trees == old(trees)[..start] + [Map(MapOf(ks, ts))] && (old(IsTidy()) ==> IsTidy())
      ensures |stack| == start + 1 && stack[..start] == old(stack)[..start]
      ensures CanCreate(old(buf), old(stack), start, 2, true, false, None)
      ensures var k := Created(old(buf), old(stack), start, 2, true, false, None, forceMinBitWidth);
              && CanCreate(k.0, old(stack), start + 1, 2, false, false, Some(k.1))
              && (buf, stack[start])
                 == Created(k.0, old(stack), start + 1, 2, false, false, Some(k.1), forceMinBitWidth)
    {
      hide Denotes, Created, KeyPoolOk, StringPoolOk, AllTidy, MapOf, Ascending;
      StridedHalves(stack, start);
      var len := (|stack| - start) / 2;
      MapKeysEnd(buf, stack, trees, start, ks, forceMinBitWidth);
      var keys := CreateVector(start, len, 2, true, false, None);
      ghost var k := (buf, keys);
      MapValuesEnd(old(buf), buf, stack, trees, start, ks, ts, keys, forceMinBitWidth);
      var vec := CreateVector(start + 1, len, 2, false, false, Some(keys));
      if old(IsTidy()) {
        MapTidy(old(buf), stack, trees, keyPool, stringPool, start, ks, ts, forceMinBitWidth, k, (buf, vec));
      }
      Replace(start, vec, Map(MapOf(ks, ts)), old(buf));
      vloc := vec.u;
    }

    /** A vector of numbers of one width, written at that width. */
    method ScalarVector(elems: seq<int>, ety: Type, bw: BitWidth, fixed: bool) returns (vloc: nat)
      requires Valid() && HasRoom(8 * |elems| + 24)
      requires AllElements(elems, ety, bw) && ety in {FBT_INT, FBT_UINT, FBT_BOOL} && IsU64(|elems|)
      requires WidthU(|elems|) <= bw
      requires fixed ==> 2 <= |elems| <= 4 && ety != FBT_BOOL
      modifies this`buf, this`stack, this`trees
      ensures Valid() && old(buf) <= buf && |buf| <= old(|buf|) + 8 * |elems| + 16
      ensures var ts := ElementTrees(elems, ety, bw);
              trees == old(trees) + [if fixed then FixedVector(ety, ts) else Tree.TypedVector(ety, ts)]
      ensures stack == old(stack) + [Value(vloc, ToTypedVector(ety, if fixed then |elems| else 0), bw)]
      ensures var size := old(buf) + Zeros(AlignUp(old(|buf|), bw) - old(|buf|))
                          + SizeBytes(|elems|, ByteWidth(bw), fixed);
              vloc == |size| && buf == size + AllBytes(ElementValues(elems, ety, bw), vloc, ByteWidth(bw))
      ensures old(IsTidy()) ==> IsTidy()
    {
      hide Denotes, KeyPoolOk, StringPoolOk, AllElements, ElementTrees, ElementValues, AllBytes, ToLE, AllTidy;
      var byteWidth := Align(bw);
      ghost var padded := buf;
      if !fixed {
        Write(|elems|, byteWidth);
      }
      assert buf == padded + SizeBytes(|elems|, byteWidth, fixed);
      vloc := |buf|;
      WriteScalars(elems, ety, bw);
      ScalarsWritten(padded, elems, ety, bw, fixed, buf);
      if old(IsTidy()) {
        PaddedScalarsTidy(old(buf), padded, buf, stack, trees, keyPool, stringPool, elems, ety, bw, fixed,
                          Value(vloc, ToTypedVector(ety, if fixed then |elems| else 0), bw));
      }
      Grown(old(buf));
      ghost var ts := ElementTrees(elems, ety, bw);
      Push(Value(vloc, ToTypedVector(ety, if fixed then |elems| else 0), bw),
           if fixed then FixedVector(ety, ts) else Tree.TypedVector(ety, ts));
    }

    method WriteScalars(elems: seq<int>, ety: Type, bw: BitWidth)
      requires AllElements(elems, ety, bw) && ety in {FBT_INT, FBT_UINT, FBT_BOOL}
      modifies this`buf
      ensures buf == old(buf) + AllBytes(ElementValues(elems, ety, bw), old(|buf|), ByteWidth(bw))
    {
      ghost var vs := ElementValues(elems, ety, bw);
      ghost var head, done := buf, [];
      ElementsDenoted([], elems, ety, bw, |head|);
      var i := 0;
      while i < |elems|
        invariant 0 <= i <= |elems|
        invariant Written(vs, |head|, ByteWidth(bw), i, done) && buf == head + done
      {
        WriteStep(head, vs, bw, i, done, buf);
        done := done + AnyBytes(vs[i], |buf|, ByteWidth(bw));
        Write(ElementValue(elems[i], ety, bw).u, ByteWidth(bw));
        i := i + 1;
      }
      assert vs[..i] == vs;
    }

    lemma LastTidy()
      requires Valid() && IsTidy() && HasRoom(16) && |stack| == 1
      ensures Placed(stack[0], |buf|)
      ensures Mutable(buf + RootImage(|buf|, stack[0], ElemWidth(stack[0], |buf|, 0)), trees[0])
    {
      hide Mutable, AllTidy, Denotes, KeyPoolOk, StringPoolOk, ElemWidth, RootImage;
      assert stack == [stack[0]] && trees == [trees[0]];
      RootTidy(buf, stack[0], trees[0], keyPool, stringPool);
    }

    /** Writes the last value as the root, its packed type and its width. */
    method Finish()
      requires Valid() && HasRoom(16) && |stack| == 1
      modifies this`buf, this`finished
      ensures finished && old(buf) <= buf
      ensures Placed(stack[0], old(|buf|))
      ensures buf == old(buf) + RootImage(old(|buf|), stack[0], ElemWidth(stack[0], old(|buf|), 0))
      ensures GetRoot(buf).Some? && Reads(buf, GetRoot(buf).value, trees[0])
      ensures old(IsTidy()) ==> Mutable(buf, trees[0])
    {
      hide Mutable, AllTidy, Denotes, KeyPoolOk, StringPoolOk, Reads, GetRoot, ElemWidth, ToLE, AlignUp, IsTidy,
        Holds, AnyBytes, RootImage, Zeros;
      RootReads(buf, stack[0], trees[0]);
      if IsTidy() {
        LastTidy();
      }
      var bw := ComputeElemWidth(stack[0], |buf|, 0);
      HoldsStays(stack[0], |buf|, 0, bw, 0);
      RootFrom(buf, stack[0], bw);
      var byteWidth := Align(bw);
      WriteAny(stack[0], bw);
      Write(stack[0].StoredPackedType(BIT_WIDTH_8), 1);
      Write(byteWidth, 1);
      finished := true;
    }
  }
}
