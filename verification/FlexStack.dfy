/** What the state of the builder means: the stack of values, the pools, and how they outlive growth. */
module FlexStack {
  import opened Options
  import opened Bytes
  import opened FlexTypes
  import opened FlexReader
  import opened FlexTree
  import opened FlexWidth
  import opened FlexImage
  import opened FlexVector
  import opened FlexVectorReads
  import opened FlexMap
  import opened FlexMapReads
  import opened FlexPools
  import opened FlexFinish

  /** Sizes a `std::vector` of bytes, or of 16-byte values, can reach. */
  const MAX_BYTES: nat := 0x4000_0000_0000_0000
  const MAX_VALUES: nat := 0x0400_0000_0000_0000

  // ---------------------------------------------------------------- pools

  ghost predicate KeyPoolOk(b: seq<byte>, pool: set<nat>) {
    && (forall k :: k in pool ==> CStr(b, k).Some? && k < |b|)
    && forall j, k :: j in pool && k in pool && CStr(b, j) == CStr(b, k) ==> j == k
  }

  /** A terminated string of `len` bytes whose size is stored in front of it. */
  ghost predicate Stored(b: seq<byte>, off: nat, len: nat) {
    && off + len < |b| && b[off + len] == 0 && IsU64(len)
    && SizedBytes(b, off, ByteWidth(WidthU(len))) == Some(b[off..off + len])
  }

  /** Two pool entries that `strncmp` does not tell apart. */
  ghost predicate SameString(b: seq<byte>, d: (nat, nat), e: (nat, nat))
    requires d.0 + d.1 <= |b| && e.0 + e.1 <= |b|
  {
    Truncate(b[d.0..d.0 + d.1]) == Truncate(b[e.0..e.0 + e.1])
  }

  ghost predicate StringPoolOk(b: seq<byte>, pool: set<(nat, nat)>) {
    && (forall e :: e in pool ==> Stored(b, e.0, e.1))
    && forall d, e :: d in pool && e in pool && SameString(b, d, e) ==> d == e
  }

  /** No pooled string is taken for this different one. */
  ghost predicate NoClash(b: seq<byte>, pool: set<(nat, nat)>, s: seq<byte>)
    requires StringPoolOk(b, pool)
  {
    forall e :: e in pool ==> !Clash(b[e.0..e.0 + e.1], s)
  }

  ghost predicate HasKey(b: seq<byte>, pool: set<nat>, k: seq<byte>) {
    exists j :: j in pool && CStr(b, j) == Some(k)
  }

  ghost predicate HasString(b: seq<byte>, pool: set<(nat, nat)>, s: seq<byte>)
    requires StringPoolOk(b, pool)
  {
    exists e :: e in pool && b[e.0..e.0 + e.1] == s
  }

  lemma KeyPoolGrows(b: seq<byte>, b': seq<byte>, pool: set<nat>)
    requires b <= b' && KeyPoolOk(b, pool)
    ensures KeyPoolOk(b', pool)
    ensures forall k :: k in pool ==> CStr(b', k) == CStr(b, k)
  {
    forall k | k in pool
      ensures CStr(b', k) == CStr(b, k)
    {
      CStrGrows(b, b', k);
    }
  }

  lemma StoredGrows(b: seq<byte>, b': seq<byte>, off: nat, len: nat)
    requires b <= b' && Stored(b, off, len)
    ensures Stored(b', off, len) && b'[off..off + len] == b[off..off + len]
  {
    SizedBytesGrows(b, b', off, ByteWidth(WidthU(len)));
  }

  lemma StringPoolGrows(b: seq<byte>, b': seq<byte>, pool: set<(nat, nat)>)
    requires b <= b' && StringPoolOk(b, pool)
    ensures StringPoolOk(b', pool)
    ensures forall e :: e in pool ==> b'[e.0..e.0 + e.1] == b[e.0..e.0 + e.1]
  {
    forall e | e in pool
      ensures Stored(b', e.0, e.1) && b'[e.0..e.0 + e.1] == b[e.0..e.0 + e.1]
    {
      StoredGrows(b, b', e.0, e.1);
    }
    forall d, e | d in pool && e in pool && SameString(b', d, e)
      ensures d == e
    {
      assert SameString(b, d, e);
    }
  }

  /** What the pool hands out for a match: the stored string, as long as the sizes have the same width. */
  lemma PoolHit(b: seq<byte>, pool: set<(nat, nat)>, s: seq<byte>, e: (nat, nat))
    requires |b| < TWO_64 && IsU64(|s|) && StringPoolOk(b, pool) && e in pool && PoolMatches(b[e.0..e.0 + e.1], s)
    ensures b[e.0..e.0 + e.1] == s || Clash(b[e.0..e.0 + e.1], s)
    ensures WidthU(e.1) == WidthU(|s|) ==>
              Denotes(b, Value(e.0, FBT_STRING, WidthU(|s|)), Str(b[e.0..e.0 + e.1]))
  {
    MatchesIsTruncated(b[e.0..e.0 + e.1], s);
  }

  /** No two entries match the same string, so a clash rules out that the string itself is in the pool. */
  lemma MatchIsOnly(b: seq<byte>, pool: set<(nat, nat)>, s: seq<byte>, e: (nat, nat))
    requires StringPoolOk(b, pool) && e in pool && PoolMatches(b[e.0..e.0 + e.1], s)
    ensures HasString(b, pool, s) <==> b[e.0..e.0 + e.1] == s
    ensures NoClash(b, pool, s) <==> b[e.0..e.0 + e.1] == s
  {
    MatchesIsTruncated(b[e.0..e.0 + e.1], s);
    forall d | d in pool && Truncate(b[d.0..d.0 + d.1]) == Truncate(s)
      ensures d == e
    {
      assert SameString(b, d, e);
    }
  }

  /** A value that stands for one string does not stand for another. */
  lemma DenotesOneString(b: seq<byte>, v: Value, s: seq<byte>, t: seq<byte>)
    requires Denotes(b, v, Str(s)) && Denotes(b, v, Str(t))
    ensures s == t
  {
  }

  /** Without a clash a string taken from the pool reads back. */
  lemma NoClashReads(b: seq<byte>, pool: set<(nat, nat)>, s: seq<byte>, e: (nat, nat))
    requires |b| < TWO_64 && IsU64(|s|) && StringPoolOk(b, pool) && e in pool && PoolMatches(b[e.0..e.0 + e.1], s)
    requires NoClash(b, pool, s)
    ensures Denotes(b, Value(e.0, FBT_STRING, WidthU(|s|)), Str(s))
  {
    hide Denotes, Clash, PoolMatches;
    PoolHit(b, pool, s, e);
    MatchIsOnly(b, pool, s, e);
  }

  /** A string taken from the pool reads back exactly when there was no clash, where the sizes have the same width. */
  lemma SharedReads(b: seq<byte>, pool: set<(nat, nat)>, s: seq<byte>, e: (nat, nat))
    requires |b| < TWO_64 && IsU64(|s|) && StringPoolOk(b, pool) && e in pool && PoolMatches(b[e.0..e.0 + e.1], s)
    requires WidthU(e.1) == WidthU(|s|)
    ensures Denotes(b, Value(e.0, FBT_STRING, WidthU(|s|)), Str(s)) <==> NoClash(b, pool, s)
  {
    hide Denotes, Clash, PoolMatches, NoClash;
    PoolHit(b, pool, s, e);
    MatchIsOnly(b, pool, s, e);
    if Denotes(b, Value(e.0, FBT_STRING, WidthU(|s|)), Str(s)) {
      DenotesOneString(b, Value(e.0, FBT_STRING, WidthU(|s|)), s, b[e.0..e.0 + e.1]);
    }
  }

  /** A number without its `k` lowest bytes. */
  function Upper(n: nat, k: nat): (u: nat)
    ensures u <= n
  {
    if k == 0 then n else Upper(n / 256, k - 1)
  }

  lemma {:induction false} UpperBytes(s: seq<byte>, k: nat)
    requires k <= |s|
    ensures FromLE(s[k..]) == Upper(FromLE(s), k)
    decreases k
  {
    if k > 0 {
      UpperBytes(s[1..], k - 1);
      assert s[1..][k - 1..] == s[k..];
      assert FromLE(s) / 256 == FromLE(s[1..]);
    } else {
      assert s[0..] == s;
    }
  }

  /**
   * A pooled string whose size is wider than the argument's: only the upper bytes of the size are read. The value
   * denotes the argument exactly when they happen to be its size, and the stored string begins with it.
   */
  lemma NarrowShares(b: seq<byte>, pool: set<(nat, nat)>, s: seq<byte>, e: (nat, nat))
    requires |b| < TWO_64 && IsU64(|s|) && StringPoolOk(b, pool) && e in pool
    requires WidthU(|s|) < WidthU(e.1)
    ensures var cut := ByteWidth(WidthU(e.1)) - ByteWidth(WidthU(|s|));
            Denotes(b, Value(e.0, FBT_STRING, WidthU(|s|)), Str(s)) <==>
            Upper(e.1, cut) == |s| && s <= b[e.0..e.0 + e.1]
  {
    hide FromLE, Pow256, Truncate, WidthU, Denotes, SizedBytes, SizeAt;
    assert Stored(b, e.0, e.1);
    StoredSize(b, e.0, e.1);
    NarrowRead(b, e.0, e.1, ByteWidth(WidthU(e.1)), ByteWidth(WidthU(|s|)));
    StringDenoted(b, e.0, WidthU(|s|), s);
    SizedIs(b, e.0, ByteWidth(WidthU(|s|)), s, e.1, Upper(e.1, ByteWidth(WidthU(e.1)) - ByteWidth(WidthU(|s|))));
  }

  lemma StoredSize(b: seq<byte>, off: nat, len: nat)
    requires Stored(b, off, len)
    ensures SizeAt(b, off, ByteWidth(WidthU(len))) == Some(len)
  {
  }

  /** Bytes behind a size of `m`, which is at most the `n` bytes there are. */
  lemma SizedIs(b: seq<byte>, at: nat, w: nat, s: seq<byte>, n: nat, m: nat)
    requires at + n <= |b| && m <= n && SizeAt(b, at, w) == Some(m)
    ensures SizedBytes(b, at, w) == Some(s) <==> m == |s| && s <= b[at..at + n]
  {
    hide SizeAt;
    assert b[at..at + n][..m] == b[at..at + m];
    assert SizedBytes(b, at, w) == Some(b[at..at + m]);
    if m == |s| && s <= b[at..at + n] {
      assert b[at..at + n][..m] == s;
    }
  }

  lemma StringDenoted(b: seq<byte>, at: nat, bw: BitWidth, s: seq<byte>)
    requires at <= |b| < TWO_64
    ensures Denotes(b, Value(at, FBT_STRING, bw), Str(s)) <==> SizedBytes(b, at, ByteWidth(bw)) == Some(s)
  {
  }

  lemma NarrowRead(b: seq<byte>, at: nat, n: nat, v: nat, w: nat)
    requires SizeAt(b, at, v) == Some(n) && v in {1, 2, 4, 8} && w in {1, 2, 4, 8} && w < v
    ensures SizeAt(b, at, w) == Some(Upper(n, v - w))
  {
    hide FromLE, Pow256, Upper;
    var size := b[at - v..at];
    UpperBytes(size, v - w);
    assert size[v - w..] == b[at - w..at];
  }

  /** A string that matches nothing in the pool is new, and keeps the pool free of doubles. */
  lemma PoolMiss(b: seq<byte>, pool: set<(nat, nat)>, s: seq<byte>, loc: nat)
    requires StringPoolOk(b, pool) && Stored(b, loc, |s|) && b[loc..loc + |s|] == s
    requires forall e :: e in pool ==> !PoolMatches(b[e.0..e.0 + e.1], s)
    ensures !HasString(b, pool, s) && NoClash(b, pool, s)
    ensures StringPoolOk(b, pool + {(loc, |s|)})
  {
    forall e | e in pool
      ensures Truncate(b[e.0..e.0 + e.1]) != Truncate(s)
    {
      MatchesIsTruncated(b[e.0..e.0 + e.1], s);
    }
  }

  lemma KeyIsDenoted(b: seq<byte>, pos: nat, k: seq<byte>)
    requires CStr(b, pos) == Some(k) && |b| < TWO_64
    ensures Denotes(b, Value(pos, FBT_KEY, BIT_WIDTH_8), Tree.Key(k))
  {
  }

  lemma StackGrows(b: seq<byte>, b': seq<byte>, vs: seq<Value>, ts: seq<Tree>)
    requires b <= b' && AllDenote(b, vs, ts)
    ensures AllDenote(b', vs, ts)
  {
    forall k | 0 <= k < |vs|
      ensures Denotes(b', vs[k], ts[k])
    {
      DenotesGrows(b, b', vs[k], ts[k]);
    }
  }

  lemma StackPlaced(b: seq<byte>, vs: seq<Value>, ts: seq<Tree>)
    requires AllDenote(b, vs, ts)
    ensures AllPlaced(vs, |b|)
  {
    forall k | 0 <= k < |vs|
      ensures Placed(vs[k], |b|)
    {
      DenotesPlaced(b, vs[k], ts[k]);
    }
  }

  // ---------------------------------------------------------------- what the blob image reads as

  /** Size, contents and `trailing` zero bytes, after the padding. */
  function BlobImage(data: seq<byte>, trailing: nat): seq<byte>
    requires IsU64(|data|)
  {
    ToLE(|data|, ByteWidth(WidthU(|data|))) + data + Zeros(trailing)
  }

  lemma BlobReads(b: seq<byte>, data: seq<byte>, trailing: nat)
    requires IsU64(|data|)
    ensures var w := ByteWidth(WidthU(|data|));
            var b' := b + BlobImage(data, trailing);
            && b <= b' && |b'| == |b| + w + |data| + trailing
            && SizedBytes(b', |b| + w, w) == Some(data)
            && b'[|b| + w..|b| + w + |data|] == data
            && (trailing > 0 ==> b'[|b| + w + |data|] == 0)
  {
    var w := ByteWidth(WidthU(|data|));
    var size := ToLE(|data|, w);
    var b' := b + BlobImage(data, trailing);
    assert HasBytes(b', |b|, size) && HasBytes(b', |b| + w, data);
    HasBytesSlice(b', |b| + w, data);
    WrittenUInt(b', |b|, w, |data|);
    assert SizeAt(b', |b| + w, w) == Some(|data|);
  }

  /** "a", a NUL and 298 bytes more. */
  function LongString(): (s: seq<byte>)
    ensures |s| == 300 && s[..2] == [97, 0] && Truncate(s) == [97]
  {
    var s: seq<byte> := [97, 0] + Zeros(298);
    assert s[1..][0] == 0 && Truncate(s[1..]) == [];
    s
  }

  /**
   * A clash without harm: 300 is 0x012C, so behind the pooled string of 300 bytes that begins with "a" and a NUL the
   * upper byte of the size is 1, and the value pushed for "a" reads as "a".
   */
  lemma LuckyClash()
    ensures var b, pool, s := BlobImage(LongString(), 1), {(2, 300)}, [97];
            && StringPoolOk(b, pool) && !NoClash(b, pool, s) && PoolMatches(b[2..302], s)
            && Denotes(b, Value(2, FBT_STRING, WidthU(|s|)), Str(s))
  {
    hide BlobImage, LongString, Truncate, PoolMatches, Denotes, FromLE, Pow256, SizedBytes;
    var long, s: seq<byte> := LongString(), [97];
    var b, pool := BlobImage(long, 1), {(2, 300)};
    BlobReads([], long, 1);
    assert [] + b == b;
    assert b[2..302] == long && Stored(b, 2, 300);
    assert StringPoolOk(b, pool);
    assert Truncate(s) == s by { NulFreeWhole(s); }
    MatchesIsTruncated(long, s);
    assert Clash(b[2..302], s);
    assert Upper(300, 1) == 1;
    assert long[..1] == long[..2][..1] == s;
    NarrowShares(b, pool, s, (2, 300));
  }

  // ---------------------------------------------------------------- values taken at a stride

  lemma {:induction false} StridedDenote(b: seq<byte>, vs: seq<Value>, ts: seq<Tree>, i: nat, step: nat)
    requires step > 0 && AllDenote(b, vs, ts)
    ensures AllDenote(b, Strided(vs, i, step), Strided(ts, i, step))
    decreases |vs| - i
  {
    if i < |vs| {
      StridedDenote(b, vs, ts, i + step, step);
    }
  }

  lemma {:induction false} StridedAll<T>(s: seq<T>, i: nat)
    requires i <= |s|
    ensures Strided(s, i, 1) == s[i..]
    decreases |s| - i
  {
    if i < |s| {
      StridedAll(s, i + 1);
    }
  }

  lemma AllBytesLast(vs: seq<Value>, size: nat, w: nat, m: nat)
    requires AllPlaced(vs, size) && |vs| == m + 1
    ensures AllBytes(vs, size, w) == AllBytes(vs[..m], size, w) + AnyBytes(vs[m], size + Cells(m, w), w)
  {
    hide AnyBytes, Cells;
  }

  lemma AllBytesSnoc(vs: seq<Value>, size: nat, w: nat, k: nat)
    requires AllPlaced(vs, size) && k < |vs|
    ensures AllBytes(vs[..k + 1], size, w) == AllBytes(vs[..k], size, w) + AnyBytes(vs[k], size + Cells(k, w), w)
  {
    var front := vs[..k + 1];
    assert front[..k] == vs[..k] && front[k] == vs[k];
    AllBytesLast(front, size, w, k);
  }

  /** The bytes of the first `k` values. */
  ghost predicate Written(vs: seq<Value>, size: nat, w: nat, k: nat, done: seq<byte>) {
    k <= |vs| && AllPlaced(vs, size) && done == AllBytes(vs[..k], size, w)
  }

  lemma WrittenNone(vs: seq<Value>, size: nat, w: nat)
    requires AllPlaced(vs, size)
    ensures Written(vs, size, w, 0, [])
  {
  }

  lemma WrittenSize(vs: seq<Value>, size: nat, w: nat, k: nat, done: seq<byte>)
    requires Written(vs, size, w, k, done)
    ensures |done| == Cells(k, w)
  {
  }

  lemma WrittenNext(vs: seq<Value>, size: nat, w: nat, k: nat, done: seq<byte>)
    requires Written(vs, size, w, k, done) && k < |vs|
    ensures Written(vs, size, w, k + 1, done + AnyBytes(vs[k], size + Cells(k, w), w))
  {
    AllBytesSnoc(vs, size, w, k);
  }

  lemma WriteStep(head: seq<byte>, vs: seq<Value>, bw: BitWidth, k: nat, done: seq<byte>, b: seq<byte>)
    requires Written(vs, |head|, ByteWidth(bw), k, done) && b == head + done
    requires k < |vs| && AllHold(vs, |head|, bw)
    ensures Placed(vs[k], |b|) && Holds(vs[k], |b|, bw)
    ensures var cell := AnyBytes(vs[k], |b|, ByteWidth(bw));
            Written(vs, |head|, ByteWidth(bw), k + 1, done + cell) && b + cell == head + (done + cell)
  {
    WrittenSize(vs, |head|, ByteWidth(bw), k, done);
    WrittenNext(vs, |head|, ByteWidth(bw), k, done);
    Assoc(head, done, AnyBytes(vs[k], |b|, ByteWidth(bw)));
  }

  /** The width so far and the widths still to come make the target. */
  ghost predicate Widens(w: BitWidth, stack: seq<Value>, i: nat, step: nat, n: nat, prefix: nat, target: BitWidth)
    requires step > 0 && AllPlaced(stack, n) && Roomy(n, |stack| + prefix)
  {
    MaxWidth(w, ElemsWidth(stack, i, step, n, prefix)) == target
  }

  lemma WidensStep(w: BitWidth, stack: seq<Value>, i: nat, step: nat, n: nat, prefix: nat, target: BitWidth)
    requires step > 0 && AllPlaced(stack, n) && Roomy(n, |stack| + prefix) && i < |stack|
    requires Widens(w, stack, i, step, n, prefix, target)
    ensures Widens(MaxWidth(w, ElemWidth(stack[i], n, i + prefix)), stack, i + step, step, n, prefix, target)
  {
  }

  /** The image, part by part, in the order in which it is written. */
  lemma ImageFrom(b: seq<byte>, vs: seq<Value>, bw: BitWidth, typed: bool, fixed: bool, keys: Option<Value>, p: nat)
    requires AllPlaced(vs, |b|) && KeysPlaced(keys, |b|) && p == ElemsAt(|b|, ByteWidth(bw), fixed, keys)
    ensures var w := ByteWidth(bw);
            b + VectorImage(|b|, vs, bw, typed, fixed, keys)
            == b + KeysBytes(|b|, w, keys) + SizeBytes(|vs|, w, fixed) + AllBytes(vs, p, w)
               + if typed then [] else TypeBytes(vs, bw)
  {
    var w := ByteWidth(bw);
    Regroup(b, KeysBytes(|b|, w, keys), SizeBytes(|vs|, w, fixed), AllBytes(vs, p, w),
            if typed then [] else TypeBytes(vs, bw));
  }

  /** Size bound of what `CreateVector` appends. */
  lemma BuiltSize(b: seq<byte>, vs: seq<Value>, bw: BitWidth, typed: bool, fixed: bool, keys: Option<Value>)
    requires IsU64(|b|) && AllPlaced(vs, |b|) && KeysPlaced(keys, |b|)
    ensures |Built(b, vs, bw, typed, fixed, keys)| <= |b| + 32 + 9 * |vs|
  {
    TimesIs(|vs|, bw);
  }

  /** The vector of the values from `start` on, written at the width chosen for it, denotes their trees. */
  lemma VectorEnds(b: seq<byte>, stack: seq<Value>, trees: seq<Tree>, start: nat, typed: bool, fixed: bool,
                   force: BitWidth)
    requires AllDenote(b, stack, trees) && start <= |stack| <= MAX_VALUES
    requires |b| + 9 * (|stack| - start) + 40 <= MAX_BYTES
    requires TreesOk(trees[start..], typed, fixed)
    ensures AllPlaced(stack, |b|) && Strided(stack, start, 1) == stack[start..]
    ensures ElementTypesOk(stack[start..], typed, fixed, None)
    ensures var c := Created(b, stack, start, 1, typed, fixed, None, force);
            |c.0| <= |b| + 32 + 9 * (|stack| - start) && b <= c.0
              && Denotes(c.0, c.1, VectorTree(trees[start..], typed, fixed))
  {
    var vs, ts := stack[start..], trees[start..];
    StridedAll(stack, start);
    StackPlaced(b, stack, trees);
    TypesDenoted(b, vs, ts, typed, fixed);
    WidthSuffices(|b|, stack, start, 1, force, fixed, None);
    var bw := VectorWidth(|b|, stack, start, 1, force, None);
    var p := ElemsAt(AlignUp(|b|, bw), ByteWidth(bw), fixed, None);
    BuiltSize(b, vs, bw, typed, fixed, None);
    BuiltExtends(b, vs, ts, bw, typed, fixed, None, p);
    VectorDenoted(b, Built(b, vs, bw, typed, fixed, None), p, vs, ts, bw, typed, fixed);
  }

  lemma {:induction false} InterleaveDenotes(b: seq<byte>, ks: seq<Value>, vs: seq<Value>, kts: seq<Tree>,
                                             vts: seq<Tree>)
    requires |ks| == |vs| && AllDenote(b, ks, kts) && AllDenote(b, vs, vts)
    ensures AllDenote(b, Interleave(ks, vs), Interleave(kts, vts))
    decreases |ks|
  {
    if ks != [] {
      InterleaveDenotes(b, ks[1..], vs[1..], kts[1..], vts[1..]);
      ConcatDenotes(b, [ks[0], vs[0]], Interleave(ks[1..], vs[1..]), [kts[0], vts[0]], Interleave(kts[1..], vts[1..]));
    }
  }

  lemma ConcatDenotes(b: seq<byte>, vs: seq<Value>, ws: seq<Value>, ts: seq<Tree>, us: seq<Tree>)
    requires AllDenote(b, vs, ts) && AllDenote(b, ws, us)
    ensures AllDenote(b, vs + ws, ts + us)
  {
  }

  lemma Rearranged<T>(s: seq<T>, start: nat, ks: seq<T>, vs: seq<T>)
    requires start <= |s| && |ks| == |vs| && |s| == start + 2 * |ks|
    ensures var r := s[..start] + Interleave(ks, vs);
            && |r| == |s| && r[..start] == s[..start]
            && Strided(r, start, 2) == ks && Strided(r, start + 1, 2) == vs
  {
    InterleaveStrided(s[..start], ks, vs);
  }

  lemma AllDenoteBelow(b: seq<byte>, vs: seq<Value>, ts: seq<Tree>, k: nat)
    requires AllDenote(b, vs, ts) && k <= |vs|
    ensures |vs| == |ts| && AllDenote(b, vs[..k], ts[..k])
  {
  }

  /** Sorting the pairs keeps every value next to the tree that it denotes. */
  lemma SortedDenote(b: seq<byte>, stack: seq<Value>, trees: seq<Tree>, start: nat, order: seq<nat>)
    requires AllDenote(b, stack, trees) && start <= |stack| && (|stack| - start) % 2 == 0
    requires Below(order, (|stack| - start) / 2)
    ensures |Strided(stack, start, 2)| == |Strided(stack, start + 1, 2)| == (|stack| - start) / 2
    ensures |Strided(trees, start, 2)| == |Strided(trees, start + 1, 2)| == (|stack| - start) / 2
    ensures
      AllDenote(b, stack[..start]
                   + Interleave(Pick(Strided(stack, start, 2), order), Pick(Strided(stack, start + 1, 2), order)),
                trees[..start]
                + Interleave(Pick(Strided(trees, start, 2), order), Pick(Strided(trees, start + 1, 2), order)))
  {
    hide *;
    AllDenoteBelow(b, stack, trees, start);
    StridedHalves(stack, start);
    StridedHalves(trees, start);
    StridedDenote(b, stack, trees, start, 2);
    StridedDenote(b, stack, trees, start + 1, 2);
    PickDenotes(b, Strided(stack, start, 2), Strided(trees, start, 2), order);
    PickDenotes(b, Strided(stack, start + 1, 2), Strided(trees, start + 1, 2), order);
    var ks, vs := Pick(Strided(stack, start, 2), order), Pick(Strided(stack, start + 1, 2), order);
    var kts, vts := Pick(Strided(trees, start, 2), order), Pick(Strided(trees, start + 1, 2), order);
    InterleaveDenotes(b, ks, vs, kts, vts);
    ConcatDenotes(b, stack[..start], Interleave(ks, vs), trees[..start], Interleave(kts, vts));
  }

  /** The pairs of a map still on the stack. */
  ghost function PairsOf(trees: seq<Tree>, start: nat): (p: (seq<seq<byte>>, seq<Tree>))
    requires start <= |trees| && (|trees| - start) % 2 == 0 && AllKeys(Strided(trees, start, 2))
    ensures |p.0| == |p.1| == (|trees| - start) / 2
  {
    StridedHalves(trees, start);
    (KeyContents(Strided(trees, start, 2)), Strided(trees, start + 1, 2))
  }

  lemma MapKeysEnd(b: seq<byte>, stack: seq<Value>, trees: seq<Tree>, start: nat, ks: seq<seq<byte>>, force: BitWidth)
    requires AllDenote(b, stack, trees) && start <= |stack| <= MAX_VALUES
    requires |b| + 9 * (|stack| - start) + 40 <= MAX_BYTES
    requires Strided(trees, start, 2) == KeyTrees(ks)
    ensures AllPlaced(stack, |b|) && |Strided(stack, start, 2)| == |ks|
    ensures ElementTypesOk(Strided(stack, start, 2), true, false, None)
    ensures var c := Created(b, stack, start, 2, true, false, None, force);
            |c.0| <= |b| + 32 + 9 * (|stack| - start) && b <= c.0
              && Denotes(c.0, c.1, Tree.TypedVector(FBT_KEY, KeyTrees(ks)))
  {
    StackPlaced(b, stack, trees);
    StridedDenote(b, stack, trees, start, 2);
    MapKeysDenoted(b, stack, start, ks, force);
    BuiltSize(b, Strided(stack, start, 2), VectorWidth(|b|, stack, start, 2, force, None), true, false, None);
  }

  lemma MapValuesEnd(b0: seq<byte>, b: seq<byte>, stack: seq<Value>, trees: seq<Tree>, start: nat,
                     ks: seq<seq<byte>>, ts: seq<Tree>, keys: Value, force: BitWidth)
    requires b0 <= b && AllDenote(b0, stack, trees) && start <= |stack| <= MAX_VALUES
    requires |b| + 9 * (|stack| - start) + 40 <= MAX_BYTES
    requires Strided(trees, start + 1, 2) == ts && |ks| == |ts| && Ascending(ks)
    requires Denotes(b, keys, Tree.TypedVector(FBT_KEY, KeyTrees(ks)))
    ensures AllPlaced(stack, |b|) && KeysPlaced(Some(keys), |b|) && !IsInline(keys.ty)
    ensures |Strided(stack, start + 1, 2)| == |ts|
    ensures var c := Created(b, stack, start + 1, 2, false, false, Some(keys), force);
            |c.0| <= |b| + 32 + 9 * (|stack| - start) && b <= c.0 && Denotes(c.0, c.1, Map(MapOf(ks, ts)))
  {
    hide Denotes, Ascending, MapOf, KeyTrees, VectorWidth, VectorImage, ElemsAt, Cells;
    StackGrows(b0, b, stack, trees);
    StackPlaced(b, stack, trees);
    StridedDenote(b, stack, trees, start + 1, 2);
    DenotesOffset(b, keys, Tree.TypedVector(FBT_KEY, KeyTrees(ks)));
    MapValuesDenoted(b, stack, start + 1, keys, ks, ts, force);
    BuiltSize(b, Strided(stack, start + 1, 2), VectorWidth(|b|, stack, start + 1, 2, force, Some(keys)),
              false, false, Some(keys));
  }

  lemma ScalarsSize(b: seq<byte>, xs: seq<int>, ety: Type, bw: BitWidth, fixed: bool)
    requires AllElements(xs, ety, bw) && ety in {FBT_INT, FBT_UINT, FBT_BOOL}
    ensures |WithScalars(b, xs, ety, bw, fixed)| <= |b| + 8 * |xs| + 8
    ensures ElemsAt(|b|, ByteWidth(bw), fixed, None) == |b + SizeBytes(|xs|, ByteWidth(bw), fixed)|
  {
    PrefixSize(|b|, ByteWidth(bw), |xs|, fixed, None);
    TimesIs(|xs|, bw);
  }

  /** The buffer after the elements of a scalar vector. */
  lemma ScalarsWritten(b: seq<byte>, xs: seq<int>, ety: Type, bw: BitWidth, fixed: bool, b': seq<byte>)
    requires AllElements(xs, ety, bw) && ety in {FBT_INT, FBT_UINT, FBT_BOOL}
    requires IsU64(|xs|) && WidthU(|xs|) <= bw && |b| + 8 * |xs| + 8 < TWO_64
    requires fixed ==> 2 <= |xs| <= 4 && ety != FBT_BOOL
    requires b' == b + SizeBytes(|xs|, ByteWidth(bw), fixed)
                   + AllBytes(ElementValues(xs, ety, bw), |b + SizeBytes(|xs|, ByteWidth(bw), fixed)|, ByteWidth(bw))
    ensures |b'| <= |b| + 8 * |xs| + 8
    ensures var ts := ElementTrees(xs, ety, bw);
            Denotes(b', Value(|b + SizeBytes(|xs|, ByteWidth(bw), fixed)|,
                              ToTypedVector(ety, if fixed then |xs| else 0), bw),
                    if fixed then FixedVector(ety, ts) else Tree.TypedVector(ety, ts))
  {
    ScalarsSize(b, xs, ety, bw, fixed);
    assert b' == WithScalars(b, xs, ety, bw, fixed);
    WidthUStays(|xs|, bw);
    ScalarVectorDenoted(b, xs, ety, bw, fixed);
  }
}
