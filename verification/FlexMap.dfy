/** Maps: sorting the pairs, and why looking keys up in the result agrees with the pairs. */
module FlexMap {
  import opened Options
  import opened Bytes
  import opened FlexTypes
  import opened FlexReader

  // ---------------------------------------------------------------- the order of keys

  lemma {:induction false} StrCmpFlips(s: seq<byte>, t: seq<byte>)
    ensures StrCmp(t, s) == 0 - StrCmp(s, t)
  {
    if s != [] && t != [] && s[0] == t[0] {
      StrCmpFlips(s[1..], t[1..]);
    }
  }

  lemma {:induction false} StrCmpTrans(s: seq<byte>, t: seq<byte>, u: seq<byte>)
    requires StrCmp(s, t) < 0 && StrCmp(t, u) < 0
    ensures StrCmp(s, u) < 0
  {
    if s != [] && t != [] && u != [] && s[0] == t[0] == u[0] {
      StrCmpTrans(s[1..], t[1..], u[1..]);
    }
  }

  /** The comparison of keys is the dictionary order. */
  lemma {:induction false} StrCmpIsDictionaryOrder(s: seq<byte>, t: seq<byte>)
    ensures StrCmp(s, t) < 0 <==> Precedes(s, t)
    ensures StrCmp(s, t) > 0 <==> Precedes(t, s)
    decreases |s|
  {
    hide Precedes;
    PrecedesSteps(s, t);
    PrecedesSteps(t, s);
    if s != [] && t != [] && s[0] == t[0] {
      StrCmpIsDictionaryOrder(s[1..], t[1..]);
    }
  }

  lemma PrecedesTrans(s: seq<byte>, t: seq<byte>, u: seq<byte>)
    requires Precedes(s, t) && Precedes(t, u)
    ensures Precedes(s, u)
  {
    hide Precedes, StrCmp;
    StrCmpIsDictionaryOrder(s, t);
    StrCmpIsDictionaryOrder(t, u);
    StrCmpIsDictionaryOrder(s, u);
    StrCmpTrans(s, t, u);
  }

  /** In dictionary order, without doubles. */
  ghost predicate Ascending(ks: seq<seq<byte>>) {
    forall i, j :: 0 <= i < j < |ks| ==> Precedes(ks[i], ks[j])
  }

  ghost predicate Compared(ks: seq<seq<byte>>) {
    forall i, j :: 0 <= i < j < |ks| ==> StrCmp(ks[i], ks[j]) < 0
  }

  lemma AscendingCompared(ks: seq<seq<byte>>)
    requires Ascending(ks)
    ensures Compared(ks)
  {
    hide Precedes, StrCmp;
    forall i, j | 0 <= i < j < |ks|
      ensures StrCmp(ks[i], ks[j]) < 0
    {
      StrCmpIsDictionaryOrder(ks[i], ks[j]);
    }
  }

  ghost predicate Distinct<T>(xs: seq<T>) {
    forall i, j :: 0 <= i < j < |xs| ==> xs[i] != xs[j]
  }

  // ---------------------------------------------------------------- sorting

  ghost predicate Below(order: seq<nat>, n: nat) {
    forall j :: 0 <= j < |order| ==> order[j] < n
  }

  function Pick<T>(xs: seq<T>, order: seq<nat>): (ys: seq<T>)
    requires Below(order, |xs|)
    ensures |ys| == |order| && forall j :: 0 <= j < |ys| ==> ys[j] == xs[order[j]]
  {
    seq(|order|, j requires 0 <= j < |order| => xs[order[j]])
  }

  function InsertIndex(ks: seq<seq<byte>>, x: nat, order: seq<nat>): (r: seq<nat>)
    requires x < |ks| && Below(order, |ks|)
    ensures |r| == |order| + 1 && Below(r, |ks|)
    ensures forall i :: i in r <==> i == x || i in order
  {
    if order == [] then [x]
    else if StrCmp(ks[x], ks[order[0]]) < 0 then [x] + order
    else
      assert order == [order[0]] + order[1..];
      [order[0]] + InsertIndex(ks, x, order[1..])
  }

  /** The indices `0..n` in ascending order of their keys: what `std::sort` does to the pairs. */
  function SortOrder(ks: seq<seq<byte>>, n: nat): (r: seq<nat>)
    requires n <= |ks|
    ensures |r| == n && Below(r, |ks|)
    ensures forall i :: i in r <==> 0 <= i < n
  {
    if n == 0 then [] else InsertIndex(ks, n - 1, SortOrder(ks, n - 1))
  }

  /** Ascending, but stated about the indices in sorted order. */
  ghost predicate Sorts(ks: seq<seq<byte>>, order: seq<nat>)
    requires Below(order, |ks|)
  {
    forall i, j :: 0 <= i < j < |order| ==> Precedes(ks[order[i]], ks[order[j]])
  }

  lemma InsertFirst(ks: seq<seq<byte>>, x: nat, order: seq<nat>)
    requires x < |ks| && Below(order, |ks|) && Sorts(ks, order)
    requires order != [] && Precedes(ks[x], ks[order[0]])
    ensures Sorts(ks, [x] + order)
  {
    hide Precedes;
    forall j | 0 <= j < |order|
      ensures Precedes(ks[x], ks[order[j]])
    {
      if j > 0 {
        PrecedesTrans(ks[x], ks[order[0]], ks[order[j]]);
      }
    }
  }

  lemma SortsCons(ks: seq<seq<byte>>, y: nat, order: seq<nat>)
    requires y < |ks| && Below(order, |ks|) && Sorts(ks, order)
    requires forall i :: i in order ==> i < |ks| && Precedes(ks[y], ks[i])
    ensures Sorts(ks, [y] + order)
  {
    hide Precedes;
    forall j | 0 <= j < |order|
      ensures Precedes(ks[y], ks[order[j]])
    {
      assert order[j] in order;
    }
  }

  lemma {:induction false} InsertKeepsOrder(ks: seq<seq<byte>>, x: nat, order: seq<nat>)
    requires x < |ks| && Below(order, |ks|) && Sorts(ks, order)
    requires forall i :: i in order ==> i < |ks| && ks[i] != ks[x]
    ensures Sorts(ks, InsertIndex(ks, x, order))
  {
    hide Precedes;
    if order != [] {
      var y, rest := order[0], order[1..];
      assert y in order;
      StrCmpIsDictionaryOrder(ks[x], ks[y]);
      if StrCmp(ks[x], ks[y]) < 0 {
        InsertFirst(ks, x, order);
      } else {
        InsertKeepsOrder(ks, x, rest);
        forall i | i in rest
          ensures Precedes(ks[y], ks[i])
        {
          var j :| 0 <= j < |rest| && rest[j] == i;
          assert order[j + 1] == i;
        }
        SortsCons(ks, y, InsertIndex(ks, x, rest));
      }
    }
  }

  lemma {:induction false} SortOrderSorts(ks: seq<seq<byte>>, n: nat)
    requires n <= |ks| && Distinct(ks)
    ensures Sorts(ks, SortOrder(ks, n))
  {
    hide Precedes;
    if n > 0 {
      SortOrderSorts(ks, n - 1);
      var order := SortOrder(ks, n - 1);
      forall i | i in order
        ensures i < |ks| && ks[i] != ks[n - 1]
      {
        assert 0 <= i < n - 1 < |ks|;
      }
      InsertKeepsOrder(ks, n - 1, order);
    }
  }

  /** Distinct keys come out in strictly ascending order. */
  lemma SortedAscends(ks: seq<seq<byte>>)
    requires Distinct(ks)
    ensures Ascending(Pick(ks, SortOrder(ks, |ks|)))
  {
    hide Precedes;
    SortOrderSorts(ks, |ks|);
  }

  lemma HeadIn<T>(xs: seq<T>)
    requires xs != []
    ensures xs[0] in xs
  {
  }

  /** There is only one ascending arrangement of a set of keys, whatever the sorting algorithm. */
  lemma {:induction false} AscendingUnique(xs: seq<seq<byte>>, ys: seq<seq<byte>>)
    requires Ascending(xs) && Ascending(ys)
    requires forall k :: k in xs <==> k in ys
    ensures xs == ys
  {
    hide Precedes;
    AscendingCompared(xs);
    AscendingCompared(ys);
    if xs == [] {
      if ys != [] {
        HeadIn(ys);
      }
    } else {
      assert xs[0] in xs;
      assert ys != [];
      assert ys[0] in ys;
      var i :| 0 <= i < |ys| && ys[i] == xs[0];
      var j :| 0 <= j < |xs| && xs[j] == ys[0];
      if xs[0] != ys[0] {
        StrCmpFlips(xs[0], ys[0]);
        assert false;
      }
      forall k
        ensures k in xs[1..] <==> k in ys[1..]
      {
        TailMembers(xs, k);
        TailMembers(ys, k);
      }
      assert Ascending(xs[1..]) && Ascending(ys[1..]);
      AscendingUnique(xs[1..], ys[1..]);
      assert xs == [xs[0]] + xs[1..] && ys == [ys[0]] + ys[1..];
    }
  }

  /** Whatever the sorting algorithm, an arrangement of all the pairs in which the keys ascend is this one. */
  lemma SortIsForced(ks: seq<seq<byte>>, order: seq<nat>)
    requires Distinct(ks) && Below(order, |ks|) && (forall i: nat :: i < |ks| ==> i in order)
    requires Ascending(Pick(ks, order))
    ensures order == SortOrder(ks, |ks|)
  {
    hide SortOrder, StrCmp, Precedes;
    var mine := SortOrder(ks, |ks|);
    SortedAscends(ks);
    forall k
      ensures k in Pick(ks, order) <==> k in Pick(ks, mine)
    {
      PickMembers(ks, order, k);
      PickMembers(ks, mine, k);
    }
    AscendingUnique(Pick(ks, order), Pick(ks, mine));
    forall j | 0 <= j < |mine|
      ensures order[j] == mine[j]
    {
      assert ks[order[j]] == Pick(ks, order)[j] == Pick(ks, mine)[j] == ks[mine[j]];
    }
  }

  lemma PickMembers(ks: seq<seq<byte>>, order: seq<nat>, k: seq<byte>)
    requires Below(order, |ks|) && forall i: nat :: i < |ks| ==> i in order
    ensures k in Pick(ks, order) <==> k in ks
  {
    if k in ks {
      var i :| 0 <= i < |ks| && ks[i] == k;
      assert i in order;
      var j :| 0 <= j < |order| && order[j] == i;
      assert Pick(ks, order)[j] == k;
    }
  }

  lemma TailMembers(xs: seq<seq<byte>>, k: seq<byte>)
    requires xs != [] && Ascending(xs)
    ensures k in xs[1..] <==> k in xs && k != xs[0]
  {
    hide Precedes;
    AscendingCompared(xs);
    if k in xs[1..] {
      var i :| 0 <= i < |xs| - 1 && xs[1..][i] == k;
      assert StrCmp(xs[0], xs[i + 1]) < 0;
    }
  }

  // ---------------------------------------------------------------- searching

  lemma AbsentBeyond(ks: seq<seq<byte>>, mid: nat, key: seq<byte>)
    requires Ascending(ks) && mid < |ks|
    ensures StrCmp(key, ks[mid]) < 0 ==> forall i :: mid <= i < |ks| ==> ks[i] != key
    ensures StrCmp(key, ks[mid]) > 0 ==> forall i :: 0 <= i <= mid ==> ks[i] != key
  {
    hide Precedes;
    AscendingCompared(ks);
    StrCmpFlips(key, ks[mid]);
    if i :| mid <= i < |ks| && ks[i] == key {
      assert i > mid ==> StrCmp(ks[mid], ks[i]) < 0;
    }
    if i :| 0 <= i <= mid && ks[i] == key {
      assert i < mid ==> StrCmp(ks[i], ks[mid]) < 0;
    }
  }

  /** `bsearch` over ascending keys finds exactly the index that holds the key, if there is one. */
  lemma {:induction false} SearchFinds(f: nat -> Option<seq<byte>>, ks: seq<seq<byte>>, lo: nat, hi: nat,
                                       key: seq<byte>)
    requires lo <= hi <= |ks| && Ascending(ks)
    requires forall i: nat :: i < |ks| ==> f(i) == Some(ks[i])
    ensures var r := BinarySearch(f, lo, hi, key);
            && r.Some?
            && if r.value == -1 then forall i :: lo <= i < hi ==> ks[i] != key
              else lo <= r.value < hi && ks[r.value] == key
    decreases hi - lo
  {
    hide Precedes;
    if lo < hi {
      var mid := (lo + hi) / 2;
      AbsentBeyond(ks, mid, key);
      if StrCmp(key, ks[mid]) < 0 {
        SearchFinds(f, ks, lo, mid, key);
      } else if StrCmp(key, ks[mid]) > 0 {
        SearchFinds(f, ks, mid + 1, hi, key);
      }
    }
  }
}
