/** The order by which shared strings are looked up. */
module FlatStrings {
  import opened Bytes

  /** The sign of the first difference among the first `n` bytes. */
  function Memcmp(a: seq<byte>, b: seq<byte>, n: nat): int
    requires n <= |a| && n <= |b|
    decreases n
  {
    if n == 0 then 0
    else if a[0] != b[0] then a[0] - b[0]
    else Memcmp(a[1..], b[1..], n - 1)
  }

  function Min(a: nat, b: nat): nat { if a < b then a else b }

  predicate StringLessThan(a: seq<byte>, b: seq<byte>) {
    var cmp := Memcmp(a, b, Min(|a|, |b|));
    if cmp == 0 then |a| < |b| else cmp < 0
  }

  /** The comparison is the dictionary order of byte strings, embedded NULs included. */
  lemma {:induction false} LessThanIsDictionaryOrder(a: seq<byte>, b: seq<byte>)
    ensures StringLessThan(a, b) <==> Precedes(a, b)
    decreases |a|
  {
    hide Precedes;
    PrecedesSteps(a, b);
    if a != [] && b != [] && a[0] == b[0] {
      LessThanIsDictionaryOrder(a[1..], b[1..]);
    }
  }

  /** Strings equivalent under the order are equal. */
  lemma {:induction false} LessThanTotal(a: seq<byte>, b: seq<byte>)
    ensures a == b <==> !StringLessThan(a, b) && !StringLessThan(b, a)
    decreases |a|
  {
    if a != [] && b != [] && a[0] == b[0] {
      LessThanTotal(a[1..], b[1..]);
      assert a == [a[0]] + a[1..] && b == [b[0]] + b[1..];
    }
  }

  lemma {:induction false} LessThanTransitive(a: seq<byte>, b: seq<byte>, c: seq<byte>)
    requires StringLessThan(a, b) && StringLessThan(b, c)
    ensures StringLessThan(a, c) && !StringLessThan(c, a)
    decreases |a|
  {
    if a != [] && b != [] && c != [] && a[0] == b[0] == c[0] {
      LessThanTransitive(a[1..], b[1..], c[1..]);
    }
  }
}
