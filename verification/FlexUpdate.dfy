/** Changing numbers of a finished document in place, one after another. */
module FlexUpdate {
  import opened Options
  import opened Bytes
  import opened FlexTypes
  import opened FlexReader
  import opened FlexTree
  import opened FlexMutate
  import opened FlexFootprint
  import opened FlexReplace
  import opened FlexTidyStack

  /** The number that a signed or an unsigned argument amounts to, in the kind of the number that is there. */
  ghost function NumberLike(t: Tree, i: int): Tree
    requires IsNumber(t) && IsI64(i)
  {
    match t
    case Int(_) => Tree.Int(i)
    case IndirectInt(_) => Tree.IndirectInt(i)
    case UInt(_) => Tree.UInt(ToU64(i))
    case _ => Tree.IndirectUInt(ToU64(i))
  }

  /** The number fits where it is to be written. */
  predicate Fits(r: Reference, i: int)
    requires IsI64(i) && IsWidth(NumberWidth(r))
  {
    (IsSigned(r.ty) && InRange(r, i)) || (IsUnsigned(r.ty) && InRange(r, ToU64(i)))
  }

  /** A number that has its bytes for itself can be changed. */
  lemma NumberReachable(b: seq<byte>, r: Reference, t: Tree, s: iset<int>, m: iset<int>)
    requires Reads(b, r, t) && Parted(b, r, t, s, m) && s !! m && IsNumber(t)
    ensures IsSigned(r.ty) || IsUnsigned(r.ty)
    ensures Reachable(b, r) && OffsetApart(b, r) && ScalarSize(NumberWidth(r)) == NumberWidth(r)
  {
    hide FromLE, Pow256;
    if IsIndirect(r.ty) {
      CellsApart(r.data, ScalarSize(r.parentWidth), NumberAt(b, r).value, NumberWidth(r), s, m);
    }
  }

  lemma CellsApart(p: int, n: nat, q: int, k: nat, s: iset<int>, m: iset<int>)
    requires In(p, n, s) && In(q, k, m) && s !! m && n > 0 && k > 0
    ensures Apart(p, n, q, k)
  {
    var x := if p < q then q else p;
    assert !(x in s && x in m);
  }

  /** What the accessors return for the changed number is the number written. */
  lemma NumberWritten(c: seq<byte>, r: Reference, t: Tree, b: seq<byte>, i: int)
    requires IsNumber(t) && Reads(b, r, t) && IsI64(i) && AsInt64(c, r) == Some(i) && NumberAt(c, r).Some?
    ensures IsNumber(NumberLike(t, i)) && Reads(c, r, NumberLike(t, i))
  {
    hide FromLE, Pow256;
  }

  lemma RootStays(b: seq<byte>, c: seq<byte>, s: iset<int>)
    requires |b| == |c| && Agree(b, c, s) && In(|b| - 2, 2, s) && GetRoot(b).Some?
    ensures GetRoot(c) == GetRoot(b)
  {
    BytesAgree(b, c, s, |b| - 1, 1);
    BytesAgree(b, c, s, |b| - 2, 1);
  }

  /** The root, and where the paths to numbers lead. */
  ghost predicate SamePaths(b: seq<byte>, c: seq<byte>, t: Tree) {
    && GetRoot(b).Some? && GetRoot(c) == GetRoot(b)
    && forall path :: HasNumber(t, path) ==> Walk(c, GetRoot(b).value, path) == Walk(b, GetRoot(b).value, path)
  }

  /**
   * The whole document reads with that number replaced, its numbers can still be changed, and all paths lead where they
   * led.
   */
  lemma DocumentUpdated(b: seq<byte>, c: seq<byte>, t: Tree, path: Path, i: int)
    requires Mutable(b, t) && HasNumber(t, path) && IsI64(i)
    requires Walk(b, GetRoot(b).value, path).Some?
    requires
      var r := Walk(b, GetRoot(b).value, path).value;
      && NumberAt(b, r).Some? && 0 <= NumberAt(b, r).value
      && SameElsewhere(b, c, NumberAt(b, r).value, NumberWidth(r)) && AsInt64(c, r) == Some(i)
    ensures Mutable(c, Replaced(t, path, NumberLike(NumberOf(t, path), i))) && SamePaths(b, c, t)
  {
    hide Reads, Parted, Walk, NumberAt, In, HasNumber, NumberOf, Replaced, GetRoot;
    var s: iset<int>, m: iset<int> :| MutableIn(b, t, s, m);
    var root := GetRoot(b).value;
    var r, n := Walk(b, root, path).value, NumberLike(NumberOf(t, path), i);
    WalkFinds(b, root, t, path, s, m);
    assert MutableIn(c, Replaced(t, path, n), s, m) by {
      NumberKept(b, c, root, t, path, s, m, i);
      ReplaceReads(b, c, root, t, path, n, s, m);
      SameAgree(b, c, NumberBytes(b, r), s);
      RootStays(b, c, s);
    }
    assert SamePaths(b, c, t) by {
      NumberKept(b, c, root, t, path, s, m, i);
      SameAgree(b, c, NumberBytes(b, r), s);
      PathsStay(b, c, t, s, m);
    }
  }

  lemma PathsStay(b: seq<byte>, c: seq<byte>, t: Tree, s: iset<int>, m: iset<int>)
    requires MutableIn(b, t, s, m) && |b| == |c| && Agree(b, c, s)
    ensures SamePaths(b, c, t)
  {
    hide Reads, Parted, Walk, In, HasNumber, GetRoot, Agree;
    RootStays(b, c, s);
    forall path | HasNumber(t, path)
      ensures Walk(c, GetRoot(b).value, path) == Walk(b, GetRoot(b).value, path)
    {
      WalkAgrees(b, c, GetRoot(b).value, t, path, s, m);
    }
  }

  lemma {:induction false} NumberKept(b: seq<byte>, c: seq<byte>, root: Reference, t: Tree, path: Path, s: iset<int>,
                                      m: iset<int>, i: int)
    requires Reads(b, root, t) && Parted(b, root, t, s, m) && s !! m && HasNumber(t, path) && IsI64(i)
    requires Walk(b, root, path).Some?
    requires var r := Walk(b, root, path).value;
             && NumberAt(b, r).Some? && 0 <= NumberAt(b, r).value
             && SameElsewhere(b, c, NumberAt(b, r).value, NumberWidth(r)) && AsInt64(c, r) == Some(i)
    ensures var r := Walk(b, root, path).value;
            && SameBut(b, c, NumberBytes(b, r)) && NumberBytes(b, r) !! s
            && IsNumber(NumberLike(NumberOf(t, path), i)) && Reads(c, r, NumberLike(NumberOf(t, path), i))
  {
    hide Reads, Parted, Walk, NumberAt, In, AsInt64, Reachable, OffsetApart;
    var r, n := Walk(b, root, path).value, NumberOf(t, path);
    WalkFinds(b, root, t, path, s, m);
    NumberReachable(b, r, n, s, m);
    NumberStays(b, c, r);
    NumberWritten(c, r, n, b, i);
    OnlyNumber(b, c, r);
  }

  lemma OnlyNumber(b: seq<byte>, c: seq<byte>, r: Reference)
    requires NumberAt(b, r).Some? && 0 <= NumberAt(b, r).value && ScalarSize(NumberWidth(r)) == NumberWidth(r)
    requires SameElsewhere(b, c, NumberAt(b, r).value, NumberWidth(r))
    ensures SameBut(b, c, NumberBytes(b, r))
  {
  }

  // ---------------------------------------------------------------- what a change leaves alone

  ghost function Outside(at: int, n: nat): iset<int> { iset k | !Within(k, at, n) }

  /** Whatever is read for a tree without touching the bytes that changed is read as before. */
  lemma ReadsElsewhere(b: seq<byte>, c: seq<byte>, at: nat, n: nat, r: Reference, t: Tree)
    requires SameElsewhere(b, c, at, n) && Reads(b, r, t) && Uses(b, r, t, Outside(at, n))
    ensures Reads(c, r, t)
  {
    ReadsAgree(b, c, r, t, Outside(at, n));
  }

  // ---------------------------------------------------------------- updates

  /** Other paths lead to numbers as before. */
  lemma {:induction false} StillNumbers(t: Tree, path: Path, n: Tree, other: Path)
    requires HasNumber(t, path) && HasNumber(t, other) && IsNumber(n)
    ensures HasNumber(Replaced(t, path, n), other)
    decreases path
  {
    match path
    case Here =>
    case Elem(i, rest) =>
      if other.Elem? && other.i == i {
        StillNumbers(t.elems[i], rest, n, other.rest);
      }
    case Entry(k, rest) =>
      if other.Entry? && other.k == k {
        StillNumbers(t.entries[k], rest, n, other.rest);
      }
  }

  /** The number at the end of the path, and that it can be changed. */
  lemma Found(b: seq<byte>, t: Tree, path: Path)
    requires Mutable(b, t) && HasNumber(t, path)
    ensures GetRoot(b).Some? && Walk(b, GetRoot(b).value, path).Some?
    ensures var r := Walk(b, GetRoot(b).value, path).value;
            && (IsSigned(r.ty) || IsUnsigned(r.ty)) && Reachable(b, r) && OffsetApart(b, r)
            && Reads(b, r, NumberOf(t, path))
  {
    hide Reads, Parted, Walk, NumberAt, In, HasNumber, NumberOf, Reachable, OffsetApart;
    var s: iset<int>, m: iset<int> :| MutableIn(b, t, s, m);
    WalkFinds(b, GetRoot(b).value, t, path, s, m);
    NumberReachable(b, Walk(b, GetRoot(b).value, path).value, NumberOf(t, path), s, m);
  }

  /** The path leads to a number, and the new one fits there. */
  ghost predicate HasRoom(b: seq<byte>, path: Path, i: int)
    requires IsI64(i)
  {
    && GetRoot(b).Some? && Walk(b, GetRoot(b).value, path).Some?
    && var r := Walk(b, GetRoot(b).value, path).value;
       IsWidth(NumberWidth(r)) && Fits(r, i)
  }

  /**
   * Walks to a number and changes it. That succeeds exactly when the new one fits there; then the buffer holds the
   * document with that number replaced, and otherwise what it held before.
   */
  method UpdateInt(buf: array<byte>, path: Path, i: int, ghost t: Tree) returns (ok: bool)
    requires IsI64(i) && Mutable(buf[..], t) && HasNumber(t, path)
    modifies buf
    ensures ok <==> HasRoom(old(buf[..]), path, i)
    ensures SamePaths(old(buf[..]), buf[..], t)
    ensures Mutable(buf[..], if ok then Replaced(t, path, NumberLike(NumberOf(t, path), i)) else t)
    ensures !ok ==> buf[..] == old(buf[..])
  {
    hide Mutable, Walk, Reads, HasNumber, NumberOf, Replaced, SameElsewhere, OffsetApart, NumberAt, GetRoot;
    ghost var b := buf[..];
    Found(b, t, path);
    var r := Walk(buf[..], GetRoot(buf[..]).Extract(), path).Extract();
    ok := MutateInt(buf, r, i);
    if ok {
      DocumentUpdated(b, buf[..], t, path, i);
    }
  }

  /** The same with an unsigned argument. */
  method UpdateUInt(buf: array<byte>, path: Path, u: nat, ghost t: Tree) returns (ok: bool)
    requires IsU64(u) && Mutable(buf[..], t) && HasNumber(t, path)
    modifies buf
    ensures ok <==> HasRoom(old(buf[..]), path, ToI64(u))
    ensures SamePaths(old(buf[..]), buf[..], t)
    ensures Mutable(buf[..], if ok then Replaced(t, path, NumberLike(NumberOf(t, path), ToI64(u))) else t)
    ensures !ok ==> buf[..] == old(buf[..])
  {
    hide Mutable, Walk, Reads, HasNumber, NumberOf, Replaced, SameElsewhere, OffsetApart, NumberAt, GetRoot;
    ghost var b := buf[..];
    Found(b, t, path);
    var r := Walk(buf[..], GetRoot(buf[..]).Extract(), path).Extract();
    ok := MutateUInt(buf, r, u);
    if ok {
      SignedToo(buf[..], r, u);
      DocumentUpdated(b, buf[..], t, path, ToI64(u));
    }
  }

  lemma SignedToo(c: seq<byte>, r: Reference, u: nat)
    requires (IsSigned(r.ty) || IsUnsigned(r.ty)) && IsU64(u) && AsUInt64(c, r) == Some(u)
    ensures AsInt64(c, r) == Some(ToI64(u))
  {
  }

  /** The document after the updates that succeeded. */
  ghost function Updated(t: Tree, edits: seq<(Path, int)>, oks: seq<bool>): (u: Tree)
    requires |oks| == |edits|
    requires forall j :: 0 <= j < |edits| ==> HasNumber(t, edits[j].0) && IsI64(edits[j].1)
    ensures forall path :: HasNumber(t, path) ==> HasNumber(u, path)
    decreases |edits|
  {
    if edits == [] then t
    else
      var n := |edits| - 1;
      var u := Updated(t, edits[..n], oks[..n]);
      var (path, i) := edits[n];
      if oks[n] then
        assert forall other :: HasNumber(t, other) ==>
                                 HasNumber(Replaced(u, path, NumberLike(NumberOf(u, path), i)), other) by {
          forall other | HasNumber(t, other)
            ensures HasNumber(Replaced(u, path, NumberLike(NumberOf(u, path), i)), other)
          {
            StillNumbers(u, path, NumberLike(NumberOf(u, path), i), other);
          }
        }
        Replaced(u, path, NumberLike(NumberOf(u, path), i))
      else u
  }

  lemma SameStart(b: seq<byte>, t: Tree)
    requires Mutable(b, t)
    ensures SamePaths(b, b, t)
  {
    hide Reads, Parted, Walk, GetRoot, HasNumber, In;
  }

  lemma SameRoom(b: seq<byte>, c: seq<byte>, t: Tree, path: Path, i: int)
    requires SamePaths(b, c, t) && HasNumber(t, path) && IsI64(i)
    ensures HasRoom(c, path, i) <==> HasRoom(b, path, i)
  {
    hide Walk, GetRoot, HasNumber, Fits;
  }

  lemma PathsOn(b: seq<byte>, c: seq<byte>, d: seq<byte>, t: Tree, u: Tree)
    requires SamePaths(b, c, t) && SamePaths(c, d, u) && forall path :: HasNumber(t, path) ==> HasNumber(u, path)
    ensures SamePaths(b, d, t)
  {
    hide Walk, GetRoot, HasNumber;
  }

  /** Any run of updates leaves the document with exactly those numbers replaced that fit where they were to go. */
  method UpdateInts(buf: array<byte>, edits: seq<(Path, int)>, ghost t: Tree) returns (oks: seq<bool>)
    requires Mutable(buf[..], t)
    requires forall j :: 0 <= j < |edits| ==> HasNumber(t, edits[j].0) && IsI64(edits[j].1)
    modifies buf
    ensures |oks| == |edits| && Mutable(buf[..], Updated(t, edits, oks))
    ensures forall j :: 0 <= j < |edits| ==> (oks[j] <==> HasRoom(old(buf[..]), edits[j].0, edits[j].1))
  {
    hide Mutable, Walk, HasNumber, Fits, Replaced, NumberLike, GetRoot, SamePaths, HasRoom;
    ghost var b := buf[..];
    SameStart(b, t);
    oks := [];
    var j := 0;
    while j < |edits|
      invariant 0 <= j <= |edits| && |oks| == j && Mutable(buf[..], Updated(t, edits[..j], oks))
      invariant SamePaths(b, buf[..], t)
      invariant forall k :: 0 <= k < j ==> (oks[k] <==> HasRoom(b, edits[k].0, edits[k].1))
    {
      ghost var u, c := Updated(t, edits[..j], oks), buf[..];
      SameRoom(b, c, t, edits[j].0, edits[j].1);
      var ok := UpdateInt(buf, edits[j].0, edits[j].1, u);
      PathsOn(b, c, buf[..], t, u);
      assert edits[..j + 1][..j] == edits[..j] && (oks + [ok])[..j] == oks;
      oks := oks + [ok];
      j := j + 1;
    }
    assert edits[..j] == edits;
  }
}
