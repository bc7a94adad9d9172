/** Where the numbers, sizes, offsets and elements of a finished buffer lie. */
module FlexAlignment {
  import opened Options
  import opened Bytes
  import opened FlexTypes
  import opened FlexReader
  import opened FlexTree
  import opened FlexFootprint
  import opened FlexReplace
  import opened FlexTidyStack

  /** Everything with a width that is read for the tree lies at a multiple of it. */
  ghost predicate AlignedTree(b: seq<byte>, r: Reference, t: Tree)
    decreases t, 1
  {
    t.Null? ||
    (&& Lies(r.data, r.parentWidth)
     && (t.Bool? || t.Int? || t.UInt? ||
         (Target(b, r).Some? && AlignedAt(b, Target(b, r).value, r.byteWidth, t))))
  }

  /** The number itself, the size in front of the data, the offset and width of the keys in front of that. */
  ghost predicate AlignedAt(b: seq<byte>, pos: int, w: nat, t: Tree)
    decreases t, 0
  {
    && (t.IndirectInt? || t.IndirectUInt? ==> Lies(pos, w))
    && (t.Str? || t.Blob? ==> Lies(pos - w, w))
    && (IsCompound(t) ==>
          && (t.FixedVector? || Lies(pos - w, w))
          && (t.Map? ==> Lies(pos - 3 * w, w) && Lies(pos - 2 * w, w) && KeysAligned(b, pos, w, |t.entries|))
          && forall i :: 0 <= i < Count(t) ==>
               HasElem(b, pos, w, t, i) && AlignedTree(b, ElemRef(b, pos, w, t, i).value, ElemTree(b, pos, w, t, i)))
  }

  /** The size of the keys vector, and each offset to a key. */
  ghost predicate KeysAligned(b: seq<byte>, pos: int, w: nat, n: nat) {
    && KeysOf(b, pos, w).Some?
    && var keys := KeysOf(b, pos, w).value;
       && Lies(keys.data - keys.byteWidth, keys.byteWidth)
       && forall i: nat :: i < n ==> KeyOffsetAligned(keys, i)
  }

  ghost predicate KeyOffsetAligned(keys: TypedVector, i: nat) {
    Lies(keys.data + i * keys.byteWidth, keys.byteWidth)
  }

  lemma KeysLieAll(b: seq<byte>, pos: int, w: nat, n: nat)
    requires KeysLie(b, pos, w)
    ensures KeysAligned(b, pos, w, n)
  {
    hide KeysOf, Lies;
    var keys := KeysOf(b, pos, w).value;
    NextLies(keys.data, keys.byteWidth);
    forall i: nat | i < n
      ensures KeyOffsetAligned(keys, i)
    {
      CellsLie(keys.data, keys.byteWidth, i);
      CellsIs(i, keys.byteWidth);
    }
  }

  lemma PrefixLies(pos: int, w: nat)
    requires Lies(pos, w)
    ensures Lies(pos - w, w) && Lies(pos - 2 * w, w) && Lies(pos - 3 * w, w)
  {
    hide Lies;
    NextLies(pos, w);
    NextLies(pos - w, w);
    NextLies(pos - 2 * w, w);
  }

  lemma {:induction false} PartedAligned(b: seq<byte>, r: Reference, t: Tree, s: iset<int>, m: iset<int>)
    requires Parted(b, r, t, s, m)
    ensures AlignedTree(b, r, t)
    decreases t, 1
  {
    hide Lies, PlaceLies, PartedAt, AlignedAt;
    if !t.Null? && !t.Bool? && !t.Int? && !t.UInt? {
      PlaceAligned(b, Target(b, r).value, r.byteWidth, t, s, m);
    }
  }

  lemma {:induction false} PlaceAligned(b: seq<byte>, pos: int, w: nat, t: Tree, s: iset<int>, m: iset<int>)
    requires PartedAt(b, pos, w, t, s, m)
    ensures AlignedAt(b, pos, w, t)
    decreases t, 0
  {
    hide Lies, FrameIn, Parted, KeysAligned, KeysLie;
    if !t.Key? {
      PrefixLies(pos, w);
    }
    if t.Map? {
      KeysLieAll(b, pos, w, |t.entries|);
    }
    if IsCompound(t) {
      var ms: seq<iset<int>> :| ElemsParted(b, pos, w, t, s, m, ms);
      forall i | 0 <= i < Count(t)
        ensures HasElem(b, pos, w, t, i)
        ensures AlignedTree(b, ElemRef(b, pos, w, t, i).value, ElemTree(b, pos, w, t, i))
      {
        assert ElemParted(b, pos, w, t, i, s, ms[i]);
        PartedAligned(b, ElemRef(b, pos, w, t, i).value, ElemTree(b, pos, w, t, i), s, ms[i]);
      }
    }
  }

  /** A buffer that the builder has finished, before and after its numbers are changed. */
  lemma FinishedAligned(b: seq<byte>, t: Tree)
    requires Mutable(b, t)
    ensures GetRoot(b).Some? && AlignedTree(b, GetRoot(b).value, t)
  {
    hide Parted, GetRoot, In, AlignedTree;
    var s: iset<int>, m: iset<int> :| MutableIn(b, t, s, m);
    PartedAligned(b, GetRoot(b).value, t, s, m);
  }
}
