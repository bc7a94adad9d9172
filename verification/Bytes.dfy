/** Bytes, little-endian scalars and alignment padding: the ground both formats stand on. */

module Options {
  /** `None` stands for behaviour the source leaves undefined: a read outside the buffer. */
  datatype Option<+T> = None | Some(value: T) {
    predicate IsFailure() { None? }

    function PropagateFailure<U>(): Option<U>
      requires None?
    {
      None
    }

    function GetOr(other: T): T {
      if Some? then value else other
    }

    function Extract(): T
      requires Some?
    {
      value
    }
  }
}

module Bytes {
  import opened Options

  type byte = x: int | 0 <= x < 256

  const TWO_63: int := 0x8000_0000_0000_0000
  const TWO_64: int := 0x1_0000_0000_0000_0000

  function Pow256(n: nat): (p: nat)
    ensures p > 0
  {
    if n == 0 then 1 else 256 * Pow256(n - 1)
  }

  /** The low `n` bytes of `v`, least significant first (`EndianScalar` is the identity here). */
  function ToLE(v: nat, n: nat): (s: seq<byte>)
    ensures |s| == n
  {
    if n == 0 then [] else [v % 256] + ToLE(v / 256, n - 1)
  }

  function FromLE(s: seq<byte>): (v: nat)
    ensures v < Pow256(|s|)
  {
    if s == [] then 0 else s[0] + 256 * FromLE(s[1..])
  }

  /** Reading back what was written gives the number, whenever it fits. */
  lemma {:induction false} FromToLE(v: nat, n: nat)
    requires v < Pow256(n)
    ensures FromLE(ToLE(v, n)) == v
  {
    if n > 0 {
      FromToLE(v / 256, n - 1);
      assert ToLE(v, n)[1..] == ToLE(v / 256, n - 1);
    }
  }

  /** Writing back what was read gives the bytes. */
  lemma {:induction false} ToFromLE(s: seq<byte>)
    ensures ToLE(FromLE(s), |s|) == s
  {
    if s != [] {
      ToFromLE(s[1..]);
      var rest := FromLE(s[1..]);
      assert (s[0] + 256 * rest) % 256 == s[0] && (s[0] + 256 * rest) / 256 == rest;
      assert s == [s[0]] + s[1..];
    }
  }

  /** `k * 256^n`. */
  function Shift256(k: nat, n: nat): nat {
    if n == 0 then k else 256 * Shift256(k, n - 1)
  }

  /** Only the low bytes matter: multiples of 256^n are dropped. */
  lemma {:induction false} ToLEDropsHigh(v: nat, k: nat, n: nat)
    ensures ToLE(v + Shift256(k, n), n) == ToLE(v, n)
  {
    if n > 0 {
      var q := Shift256(k, n - 1);
      assert (v + 256 * q) % 256 == v % 256 && (v + 256 * q) / 256 == v / 256 + q;
      ToLEDropsHigh(v / 256, k, n - 1);
    }
  }

  lemma Shifts(k: nat)
    ensures Shift256(k, 1) == 0x100 * k
    ensures Shift256(k, 2) == 0x1_0000 * k
    ensures Shift256(k, 4) == 0x1_0000_0000 * k
  {
    assert Shift256(k, 3) == 256 * Shift256(k, 2);
  }

  lemma Powers()
    ensures Pow256(1) == 0x100
    ensures Pow256(2) == 0x1_0000
    ensures Pow256(4) == 0x1_0000_0000
    ensures Pow256(8) == TWO_64
  {
    assert Pow256(3) == 256 * Pow256(2);
    assert Pow256(4) == 256 * Pow256(3);
    assert Pow256(6) == 256 * Pow256(5);
    assert Pow256(8) == 256 * Pow256(7);
  }

  // ---------------------------------------------------------------- slices

  function Zeros(n: nat): (z: seq<byte>)
    ensures |z| == n && forall i :: 0 <= i < n ==> z[i] == 0
  {
    seq(n, i => 0)
  }

  /** `v` is found in `b` at `p`. */
  predicate HasBytes(b: seq<byte>, p: int, v: seq<byte>) {
    0 <= p && p + |v| <= |b| && forall i :: 0 <= i < |v| ==> b[p + i] == v[i]
  }

  lemma HasBytesSlice(b: seq<byte>, p: nat, v: seq<byte>)
    requires p + |v| <= |b|
    ensures HasBytes(b, p, v) <==> b[p..p + |v|] == v
  {
    var part := b[p..p + |v|];
    if part == v {
      forall i | 0 <= i < |v|
        ensures b[p + i] == v[i]
      {
        assert part[i] == v[i];
      }
    }
  }

  /** Bytes found in a part are found in the whole. */
  lemma HasBytesWithin(x: seq<byte>, y: seq<byte>, z: seq<byte>, i: nat, v: seq<byte>)
    requires HasBytes(y, i, v)
    ensures HasBytes(x + y + z, |x| + i, v)
  {
  }

  lemma HasBytesTwo(a: seq<byte>, x: seq<byte>, y: seq<byte>, z: seq<byte>)
    ensures HasBytes(a + (x + y) + z, |a|, x) && HasBytes(a + (x + y) + z, |a| + |x|, y)
  {
  }

  lemma HasBytesPart(b: seq<byte>, p: nat, v: seq<byte>, f: nat, n: nat)
    requires HasBytes(b, p, v) && f + n <= |v|
    ensures b[p + f..p + f + n] == v[f..f + n]
  {
    var part := v[f..f + n];
    forall i | 0 <= i < n
      ensures b[p + f + i] == part[i]
    {
      assert part[i] == v[f + i];
    }
    HasBytesSlice(b, p + f, part);
  }

  /** The little-endian number of `n` bytes at `p`. */
  function LE(b: seq<byte>, p: nat, n: nat): nat
    requires p + n <= |b|
  {
    FromLE(b[p..p + n])
  }

  lemma LEPart(b: seq<byte>, p: nat, v: seq<byte>, f: nat, n: nat)
    requires HasBytes(b, p, v) && f + n <= |v|
    ensures LE(b, p + f, n) == LE(v, f, n)
  {
    HasBytesPart(b, p, v, f, n);
  }

  lemma Assoc<T>(x: seq<T>, y: seq<T>, z: seq<T>)
    ensures x + y + z == x + (y + z)
  {
  }

  lemma SliceLeft(y: seq<byte>, z: seq<byte>, i: nat, n: nat)
    requires i + n <= |y|
    ensures (y + z)[i..i + n] == y[i..i + n]
  {
  }

  lemma SliceRight(y: seq<byte>, z: seq<byte>, i: nat, n: nat)
    requires i + n <= |z|
    ensures (y + z)[|y| + i..|y| + i + n] == z[i..i + n]
  {
  }

  lemma SliceMid(x: seq<byte>, y: seq<byte>, z: seq<byte>, i: nat, n: nat)
    requires i + n <= |y|
    ensures (x + y + z)[|x| + i..|x| + i + n] == y[i..i + n]
  {
  }

  // ---------------------------------------------------------------- two's complement

  predicate IsI64(i: int) { -TWO_63 <= i < TWO_63 }

  predicate IsU64(u: int) { 0 <= u < TWO_64 }

  function ToU64(i: int): (u: nat)
    requires IsI64(i)
    ensures IsU64(u)
  {
    if i < 0 then i + TWO_64 else i
  }

  function ToI64(u: nat): (i: int)
    requires IsU64(u)
    ensures IsI64(i) && ToU64(i) == u
  {
    if u < TWO_63 then u else u - TWO_64
  }

  // ---------------------------------------------------------------- alignment

  predicate IsAlignment(s: nat) { s == 1 || s == 2 || s == 4 || s == 8 || s == 16 }

  /** `n & (s - 1)`: for a power of two the mask is the remainder. */
  function Mask(n: nat, s: nat): (r: nat)
    requires IsAlignment(s)
    ensures r < s
  {
    if s == 1 then 0
    else if s == 2 then n % 2
    else if s == 4 then n % 4
    else if s == 8 then n % 8
    else n % 16
  }

  predicate Aligned(n: nat, s: nat)
    requires IsAlignment(s)
  {
    Mask(n, s) == 0
  }

  /** `(~n) + 1` on 64-bit words. */
  function Negate(n: nat): (m: nat)
    requires IsU64(n)
    ensures IsU64(m)
  {
    if n == 0 then 0 else TWO_64 - n
  }

  /** `((~n) + 1) & (s - 1)` on 64-bit words. */
  function PaddingBytes(n: nat, s: nat): (p: nat)
    requires IsAlignment(s) && IsU64(n)
  {
    Mask(Negate(n), s)
  }

  lemma NegateMod2(m: nat, n: nat)
    requires m + n == TWO_64
    ensures m % 2 == if n % 2 == 0 then 0 else 2 - n % 2
  {
  }

  lemma NegateMod4(m: nat, n: nat)
    requires m + n == TWO_64
    ensures m % 4 == if n % 4 == 0 then 0 else 4 - n % 4
  {
  }

  lemma NegateMod8(m: nat, n: nat)
    requires m + n == TWO_64
    ensures m % 8 == if n % 8 == 0 then 0 else 8 - n % 8
  {
  }

  lemma NegateMod16(m: nat, n: nat)
    requires m + n == TWO_64
    ensures m % 16 == if n % 16 == 0 then 0 else 16 - n % 16
  {
  }

  /** The wrap-around at 2^64 does not show: every alignment divides 2^64. */
  lemma PaddingIs(n: nat, s: nat)
    requires IsAlignment(s) && IsU64(n)
    ensures PaddingBytes(n, s) == if Aligned(n, s) then 0 else s - Mask(n, s)
  {
    if n > 0 {
      if s == 2 { NegateMod2(Negate(n), n); }
      if s == 4 { NegateMod4(Negate(n), n); }
      if s == 8 { NegateMod8(Negate(n), n); }
      if s == 16 { NegateMod16(Negate(n), n); }
    }
  }

  lemma Least2(n: nat, q: nat)
    ensures n % 2 != 0 ==> (n + (2 - n % 2)) % 2 == 0
    ensures n % 2 != 0 && (n + q) % 2 == 0 ==> 2 - n % 2 <= q
  {
  }

  lemma Least4(n: nat, q: nat)
    ensures n % 4 != 0 ==> (n + (4 - n % 4)) % 4 == 0
    ensures n % 4 != 0 && (n + q) % 4 == 0 ==> 4 - n % 4 <= q
  {
  }

  lemma Least8(n: nat, q: nat)
    ensures n % 8 != 0 ==> (n + (8 - n % 8)) % 8 == 0
    ensures n % 8 != 0 && (n + q) % 8 == 0 ==> 8 - n % 8 <= q
  {
  }

  lemma Least16(n: nat, q: nat)
    ensures n % 16 != 0 ==> (n + (16 - n % 16)) % 16 == 0
    ensures n % 16 != 0 && (n + q) % 16 == 0 ==> 16 - n % 16 <= q
  {
  }

  /** The padding is the least number of bytes that makes the size a multiple of `s`. */
  lemma PaddingAligns(n: nat, s: nat, q: nat)
    requires IsAlignment(s) && IsU64(n)
    ensures PaddingBytes(n, s) < s
    ensures Aligned(n + PaddingBytes(n, s), s)
    ensures Aligned(n + q, s) ==> PaddingBytes(n, s) <= q
  {
    PaddingIs(n, s);
    if s == 2 { Least2(n, q); }
    if s == 4 { Least4(n, q); }
    if s == 8 { Least8(n, q); }
    if s == 16 { Least16(n, q); }
  }

  /** A size with the padding that an alignment asks for. */
  function Padded(n: nat, s: nat): (m: nat)
    requires IsAlignment(s)
    ensures n <= m < n + s
  {
    if Aligned(n, s) then n else n + (s - Mask(n, s))
  }

  lemma PaddedIs(n: nat, s: nat)
    requires IsAlignment(s) && IsU64(n)
    ensures Padded(n, s) == n + PaddingBytes(n, s)
  {
    PaddingIs(n, s);
  }

  lemma Repeats2(n: nat)
    ensures (n + 16) % 2 == n % 2
  {
    assert n + 16 == 2 * (n / 2 + 8) + n % 2;
  }

  lemma Repeats4(n: nat)
    ensures (n + 16) % 4 == n % 4
  {
    assert n + 16 == 4 * (n / 4 + 4) + n % 4;
  }

  lemma Repeats8(n: nat)
    ensures (n + 16) % 8 == n % 8
  {
    assert n + 16 == 8 * (n / 8 + 2) + n % 8;
  }

  lemma Repeats16(n: nat)
    ensures (n + 16) % 16 == n % 16
  {
    assert n + 16 == 16 * (n / 16 + 1) + n % 16;
  }

  lemma PaddedRepeats(n: nat, s: nat)
    requires IsAlignment(s)
    ensures Padded(n + 16, s) == Padded(n, s) + 16
  {
    Repeats2(n);
    Repeats4(n);
    Repeats8(n);
    Repeats16(n);
  }

  /** A multiple of a power of two is one of every smaller power of two. */
  lemma AlignedDown(n: nat, s: nat, t: nat)
    requires IsAlignment(s) && IsAlignment(t) && s <= t && Aligned(n, t)
    ensures Aligned(n, s)
  {
  }

  /** The bytes from `at` on are replaced. */
  function Overwrite(s: seq<byte>, at: nat, bytes: seq<byte>): (t: seq<byte>)
    requires at + |bytes| <= |s|
    ensures |t| == |s|
  {
    seq(|s|, i requires 0 <= i < |s| => if at <= i < at + |bytes| then bytes[i - at] else s[i])
  }

  // ---------------------------------------------------------------- C strings

  /** `strncmp(s, t, n) == 0`: the comparison ends at the first difference or NUL, or leaves one of the two. */
  function SameUpTo(s: seq<byte>, t: seq<byte>, n: nat): Option<bool> {
    if n == 0 then Some(true)
    else if s == [] || t == [] then None
    else if s[0] != t[0] then Some(false)
    else if s[0] == 0 then Some(true)
    else SameUpTo(s[1..], t[1..], n - 1)
  }

  lemma {:induction false} SameUpToSelf(s: seq<byte>, n: nat)
    requires n <= |s|
    ensures SameUpTo(s, s, n) == Some(true)
  {
    if n > 0 {
      SameUpToSelf(s[1..], n - 1);
    }
  }

  /** Only the first `n` bytes matter. */
  lemma {:induction false} SameUpToPrefix(s: seq<byte>, t: seq<byte>, n: nat)
    requires n <= |s| && n <= |t|
    ensures SameUpTo(s, t, n) == SameUpTo(s[..n], t, n)
  {
    if n > 0 {
      assert s[..n][1..] == s[1..][..n - 1];
      SameUpToPrefix(s[1..], t[1..], n - 1);
    }
  }

  /** The comparison runs off the end of `s` exactly when `s` is too short, begins `t`, and holds no NUL. */
  lemma {:induction false} SameUpToLeaves(s: seq<byte>, t: seq<byte>, n: nat)
    requires n <= |t|
    ensures SameUpTo(s, t, n).None? <==> |s| < n && s <= t && 0 !in s
  {
    if n > 0 && s != [] {
      assert s == [s[0]] + s[1..] && t == [t[0]] + t[1..];
      SameUpToLeaves(s[1..], t[1..], n - 1);
    }
  }

  // ---------------------------------------------------------------- the dictionary order

  /** They agree up to `k`, where the first one ends or has the smaller byte. */
  ghost predicate PrecedesAt(a: seq<byte>, b: seq<byte>, k: nat) {
    k <= |a| && k < |b| && a[..k] == b[..k] && (k == |a| || a[k] < b[k])
  }

  /** The dictionary order of byte strings, embedded NULs included. */
  ghost predicate Precedes(a: seq<byte>, b: seq<byte>) {
    exists k: nat :: PrecedesAt(a, b, k)
  }

  lemma PrecedesHead(a: seq<byte>, b: seq<byte>, k: nat)
    requires a != [] && b != []
    ensures PrecedesAt(a, b, k) ==> a[0] <= b[0]
  {
    if PrecedesAt(a, b, k) && k > 0 {
      assert a[..k][0] == b[..k][0];
    }
  }

  /** The order byte by byte. */
  lemma PrecedesSteps(a: seq<byte>, b: seq<byte>)
    ensures Precedes(a, b) <==>
            if a == [] || b == [] then a == [] && b != []
            else a[0] < b[0] || (a[0] == b[0] && Precedes(a[1..], b[1..]))
  {
    if a == [] {
      if b != [] {
        assert PrecedesAt(a, b, 0);
      }
    } else if b != [] {
      if a[0] == b[0] {
        if k: nat :| PrecedesAt(a[1..], b[1..], k) {
          assert a[..k + 1] == [a[0]] + a[1..][..k] && b[..k + 1] == [b[0]] + b[1..][..k];
          assert PrecedesAt(a, b, k + 1);
        }
        if k: nat :| PrecedesAt(a, b, k) {
          assert k > 0;
          assert a[1..][..k - 1] == a[..k][1..] && b[1..][..k - 1] == b[..k][1..];
          assert PrecedesAt(a[1..], b[1..], k - 1);
        }
      } else if a[0] < b[0] {
        assert PrecedesAt(a, b, 0);
      } else {
        forall k: nat
          ensures !PrecedesAt(a, b, k)
        {
          PrecedesHead(a, b, k);
        }
      }
    }
  }
}
