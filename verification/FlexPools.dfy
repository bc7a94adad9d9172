/** Keys and strings in the buffer, and when the pools take two of them for the same. */
module FlexPools {
  import opened Options
  import opened Bytes
  import opened FlexTypes
  import opened FlexReader
  import opened FlexTree

  /** What C string functions see of a byte string: everything before the first NUL. */
  function Truncate(s: seq<byte>): (t: seq<byte>)
    ensures NulFree(t) && |t| <= |s| && t == s[..|t|]
    ensures |t| == |s| || s[|t|] == 0
  {
    if s == [] || s[0] == 0 then [] else [s[0]] + Truncate(s[1..])
  }

  lemma MemberAt<T>(s: seq<T>, i: nat)
    requires i < |s|
    ensures s[i] in s
  {
  }

  lemma NulFreeWhole(s: seq<byte>)
    requires NulFree(s)
    ensures Truncate(s) == s
  {
    var n := |Truncate(s)|;
    if n < |s| {
      MemberAt(s, n);
    }
  }

  /** A terminated string in the buffer reads, as a C string, up to its first NUL. */
  lemma {:induction false} TerminatedReads(b: seq<byte>, pos: nat, s: seq<byte>)
    requires pos + |s| < |b| && b[pos..pos + |s|] == s && b[pos + |s|] == 0
    ensures CStr(b, pos) == Some(Truncate(s))
    decreases |s|
  {
    if s != [] {
      assert b[pos] == s[0];
      if s[0] != 0 {
        assert b[pos + 1..pos + 1 + |s[1..]|] == s[1..];
        TerminatedReads(b, pos + 1, s[1..]);
      }
    }
  }

  /** The string pool takes a stored string for an argument when `strncmp` over the shorter
      one and its terminator finds no difference. */
  predicate PoolMatches(stored: seq<byte>, s: seq<byte>) {
    SameUpTo(stored + [0], s + [0], 1 + if |stored| < |s| then |stored| else |s|) == Some(true)
  }

  lemma {:induction false} SameUpToMeans(s: seq<byte>, t: seq<byte>, n: nat, m: nat)
    requires n <= |s| && n <= |t| && m < n
    requires SameUpTo(s, t, n) == Some(true) && forall i :: 0 <= i < m ==> s[i] != 0
    ensures s[..m + 1] == t[..m + 1]
  {
    if m > 0 {
      SameUpToMeans(s[1..], t[1..], n - 1, m - 1);
      assert s[..m + 1] == [s[0]] + s[1..][..m] && t[..m + 1] == [t[0]] + t[1..][..m];
    }
  }

  lemma {:induction false} SameUpToHolds(s: seq<byte>, t: seq<byte>, n: nat, m: nat)
    requires n <= |s| && n <= |t| && m < n
    requires s[..m + 1] == t[..m + 1] && s[m] == 0
    ensures SameUpTo(s, t, n) == Some(true)
  {
    assert s[0] == s[..m + 1][0] && t[0] == t[..m + 1][0];
    if s[0] != 0 {
      assert s[1..][..m] == s[..m + 1][1..] && t[1..][..m] == t[..m + 1][1..];
      SameUpToHolds(s[1..], t[1..], n - 1, m - 1);
    }
  }

  lemma TruncateIs(s: seq<byte>, m: nat)
    requires m <= |s| && (m == |s| || s[m] == 0) && NulFree(s[..m])
    ensures Truncate(s) == s[..m]
  {
    var n := |Truncate(s)|;
    if n < m {
      MemberAt(s[..m], n);
    } else if m < n {
      MemberAt(Truncate(s), m);
    }
  }

  /** That comparison stops at a NUL, so it is equality up to the first one. */
  lemma MatchesIsTruncated(stored: seq<byte>, s: seq<byte>)
    ensures PoolMatches(stored, s) <==> Truncate(stored) == Truncate(s)
  {
    var p, q := stored + [0], s + [0];
    var n := 1 + if |stored| < |s| then |stored| else |s|;
    if Truncate(stored) == Truncate(s) {
      var m := |Truncate(s)|;
      assert p[..m + 1] == Truncate(s) + [0] == q[..m + 1];
      SameUpToHolds(p, q, n, m);
    }
    if PoolMatches(stored, s) {
      var a, c := |Truncate(stored)|, |Truncate(s)|;
      if a < n {
        MatchMeans(stored, s, n, a);
      } else {
        SameUpToFlips(p, q, n);
        MatchMeans(s, stored, n, c);
      }
    }
  }

  lemma MatchMeans(x: seq<byte>, y: seq<byte>, n: nat, m: nat)
    requires m == |Truncate(x)| && m < n && n <= |x| + 1 && n <= |y| + 1
    requires SameUpTo(x + [0], y + [0], n) == Some(true)
    ensures Truncate(x) == Truncate(y)
  {
    var p, q := x + [0], y + [0];
    forall i | 0 <= i < m
      ensures p[i] != 0
    {
      assert Truncate(x)[i] in Truncate(x);
    }
    SameUpToMeans(p, q, n, m);
    assert p[m] == p[..m + 1][m] && q[m] == q[..m + 1][m];
    assert q[..m] == q[..m + 1][..m] && p[..m] == p[..m + 1][..m];
    assert y[..m] == q[..m] && x[..m] == p[..m];
    TruncateIs(y, m);
  }

  lemma {:induction false} SameUpToFlips(s: seq<byte>, t: seq<byte>, n: nat)
    requires n <= |s| && n <= |t| && SameUpTo(s, t, n) == Some(true)
    ensures SameUpTo(t, s, n) == Some(true)
  {
    if n > 0 && s[0] != 0 {
      SameUpToFlips(s[1..], t[1..], n - 1);
    }
  }

  /** A stored string that the pool takes for the argument although it is a different one. */
  predicate Clash(stored: seq<byte>, s: seq<byte>) {
    stored != s && Truncate(stored) == Truncate(s)
  }

  /** Sharing hands out the right string exactly when no stored string clashes with the argument. */
  lemma SharingExact(pool: set<seq<byte>>, s: seq<byte>)
    ensures (forall p :: p in pool && PoolMatches(p, s) ==> p == s) <==> (forall p :: p in pool ==> !Clash(p, s))
  {
    forall p | p in pool
      ensures PoolMatches(p, s) <==> Truncate(p) == Truncate(s)
    {
      MatchesIsTruncated(p, s);
    }
  }

  /** "a\0b" in the pool is handed out for "a\0c". */
  lemma NulsClash()
    ensures Clash([97, 0, 98], [97, 0, 99]) && PoolMatches([97, 0, 98], [97, 0, 99])
  {
    var p: seq<byte>, s: seq<byte> := [97, 0, 98], [97, 0, 99];
    assert p[2] != s[2];
    assert Truncate(p) == [97] by { assert Truncate(p[1..]) == []; }
    assert Truncate(s) == [97] by { assert Truncate(s[1..]) == []; }
    MatchesIsTruncated(p, s);
  }
}
