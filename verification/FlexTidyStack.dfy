/** Every operation of the builder keeps its buffer tidy. */
module FlexTidyStack {
  import opened Options
  import opened Bytes
  import opened FlexTypes
  import opened FlexReader
  import opened FlexTree
  import opened FlexWidth
  import opened FlexImage
  import opened FlexVector
  import opened FlexVectorReads
  import FlexMap
  import opened FlexMapReads
  import opened FlexFinish
  import opened FlexStack
  import opened FlexFootprint
  import opened FlexReplace
  import opened FlexTidy

  /** The strings and keys that may be shared are not numbers. */
  ghost predicate PoolsIn(b: seq<byte>, kp: set<nat>, sp: set<(nat, nat)>, s: iset<int>) {
    && (forall k :: k in kp ==> KeyBytesIn(b, k, s))
    && forall e :: e in sp ==> StringBytesIn(e, s)
  }

  ghost predicate KeyBytesIn(b: seq<byte>, k: nat, s: iset<int>) {
    CStr(b, k).Some? && In(k, |CStr(b, k).value| + 1, s)
  }

  ghost predicate StringBytesIn(e: (nat, nat), s: iset<int>) {
    && IsU64(e.1) && In(e.0, e.1, s) && Lies(e.0, ByteWidth(WidthU(e.1)))
    && In(e.0 - ByteWidth(WidthU(e.1)), ByteWidth(WidthU(e.1)), s)
  }

  ghost predicate TidyWith(b: seq<byte>, vs: seq<Value>, ts: seq<Tree>, kp: set<nat>, sp: set<(nat, nat)>,
                           s: iset<int>, ms: seq<iset<int>>) {
    Tidy(b, vs, ts, s, ms) && PoolsIn(b, kp, sp, s)
  }

  /** The bytes written so far can be divided into those of numbers, apart for each number, and the others. */
  ghost predicate AllTidy(b: seq<byte>, vs: seq<Value>, ts: seq<Tree>, kp: set<nat>, sp: set<(nat, nat)>) {
    exists s: iset<int>, ms: seq<iset<int>> :: TidyWith(b, vs, ts, kp, sp, s, ms)
  }

  lemma NothingTidy()
    ensures AllTidy([], [], [], {}, {})
  {
    assert TidyWith([], [], [], {}, {}, iset{}, []);
  }

  lemma PoolsGrow(b: seq<byte>, b': seq<byte>, kp: set<nat>, sp: set<(nat, nat)>, s: iset<int>, s': iset<int>)
    requires b <= b' && PoolsIn(b, kp, sp, s) && s <= s'
    ensures PoolsIn(b', kp, sp, s')
  {
    forall k | k in kp
      ensures KeyBytesIn(b', k, s')
    {
      assert KeyBytesIn(b, k, s);
      CStrGrows(b, b', k);
    }
    forall e | e in sp
      ensures StringBytesIn(e, s')
    {
      assert StringBytesIn(e, s);
    }
  }

  /** The structure grows only behind the old end. */
  ghost predicate GrowsBehind(s: iset<int>, s': iset<int>, n: nat) {
    s <= s' && forall x :: x in s' && x !in s ==> x >= n
  }

  /** Some values of the stack are replaced by one whose numbers are theirs, or new. */
  lemma Wrapped(b: seq<byte>, b': seq<byte>, vs: seq<Value>, ts: seq<Tree>, s: iset<int>, ms: seq<iset<int>>,
                start: nat, v: Value, t: Tree, s': iset<int>, m: iset<int>)
    requires Tidy(b, vs, ts, s, ms) && AllDenote(b, vs, ts) && b <= b' && start <= |vs|
    requires ValueParted(b', v, t, s', m) && GrowsBehind(s, s', |b|) && s' <= Below(|b'|)
    requires m <= Below(|b'|) && m !! s' && forall i :: 0 <= i < start ==> ms[i] !! m
    ensures Tidy(b', vs[..start] + [v], ts[..start] + [t], s', ms[..start] + [m])
  {
    hide ValueParted, Denotes;
    var r := ms[..start] + [m];
    forall i | 0 <= i < start
      ensures ms[i] <= Below(|b'|) && ms[i] !! s' && ValueParted(b', vs[i], ts[i], s', ms[i])
    {
      ValueGrows(b, b', vs[i], ts[i], s, ms[i], s', ms[i]);
    }
  }

  /** A value is pushed whose numbers, if it has any, are new. */
  lemma Pushed(b: seq<byte>, b': seq<byte>, vs: seq<Value>, ts: seq<Tree>, kp: set<nat>, sp: set<(nat, nat)>,
               v: Value, t: Tree, s: iset<int>, ms: seq<iset<int>>, s': iset<int>, m: iset<int>)
    requires TidyWith(b, vs, ts, kp, sp, s, ms) && AllDenote(b, vs, ts) && b <= b'
    requires ValueParted(b', v, t, s', m) && GrowsBehind(s, s', |b|) && s' <= Below(|b'|)
    requires m <= Below(|b'|) && m !! s' && forall x :: x in m ==> x >= |b|
    ensures TidyWith(b', vs + [v], ts + [t], kp, sp, s', ms + [m])
  {
    hide ValueParted, AllDenote, PoolsIn;
    PoolsGrow(b, b', kp, sp, s, s');
    Wrapped(b, b', vs, ts, s, ms, |vs|, v, t, s', m);
    assert vs[..|vs|] == vs && ts[..|vs|] == ts && ms[..|vs|] == ms;
  }

  /** A number, truth value or null that is not written yet. */
  lemma ScalarTidy(b: seq<byte>, vs: seq<Value>, ts: seq<Tree>, kp: set<nat>, sp: set<(nat, nat)>, v: Value, t: Tree)
    requires AllTidy(b, vs, ts, kp, sp) && AllDenote(b, vs, ts) && IsScalarTree(t)
    ensures AllTidy(b, vs + [v], ts + [t], kp, sp)
  {
    hide TidyWith, AllDenote;
    var s: iset<int>, ms: seq<iset<int>> :| TidyWith(b, vs, ts, kp, sp, s, ms);
    InBounds(b, vs, ts, kp, sp, s, ms);
    Pushed(b, b, vs, ts, kp, sp, v, t, s, ms, s, iset{});
  }

  lemma InBounds(b: seq<byte>, vs: seq<Value>, ts: seq<Tree>, kp: set<nat>, sp: set<(nat, nat)>, s: iset<int>,
                 ms: seq<iset<int>>)
    requires TidyWith(b, vs, ts, kp, sp, s, ms)
    ensures s <= Below(|b|) && |ms| == |vs| == |ts|
  {
  }

  /** A number written for itself, at the end of the buffer. */
  lemma IndirectTidy(b: seq<byte>, b': seq<byte>, vs: seq<Value>, ts: seq<Tree>, kp: set<nat>, sp: set<(nat, nat)>,
                     v: Value, t: Tree)
    requires AllTidy(b, vs, ts, kp, sp) && AllDenote(b, vs, ts) && b <= b'
    requires t.IndirectInt? || t.IndirectUInt?
    requires |b| <= v.u && v.u + ByteWidth(v.minWidth) <= |b'| && Lies(v.u, ByteWidth(v.minWidth))
    ensures AllTidy(b', vs + [v], ts + [t], kp, sp)
  {
    hide TidyWith, AllDenote;
    var s: iset<int>, ms: seq<iset<int>> :| TidyWith(b, vs, ts, kp, sp, s, ms);
    InBounds(b, vs, ts, kp, sp, s, ms);
    var m := Range(v.u, ByteWidth(v.minWidth));
    WidthIsSize(ByteWidth(v.minWidth));
    Pushed(b, b', vs, ts, kp, sp, v, t, s, ms, s, m);
  }

  predicate IsText(t: Tree) { t.Key? || t.Str? || t.Blob? }

  /** A key, string or blob written at the end of the buffer. */
  lemma TextTidy(b: seq<byte>, b': seq<byte>, vs: seq<Value>, ts: seq<Tree>, kp: set<nat>, sp: set<(nat, nat)>,
                 v: Value, t: Tree)
    requires AllTidy(b, vs, ts, kp, sp) && AllDenote(b, vs, ts) && b <= b' && IsText(t)
    requires |b| + (if t.Key? then 0 else ByteWidth(v.minWidth)) <= v.u
    requires v.u + (if t.Key? then |t.k| + 1 else |t.s|) <= |b'| && (t.Key? || Lies(v.u, ByteWidth(v.minWidth)))
    ensures AllTidy(b', vs + [v], ts + [t], kp, sp)
    ensures t.Key? && CStr(b', v.u) == Some(t.k) ==> AllTidy(b', vs + [v], ts + [t], kp + {v.u}, sp)
    ensures t.Str? && IsU64(|t.s|) && v.minWidth == WidthU(|t.s|) ==>
              AllTidy(b', vs + [v], ts + [t], kp, sp + {(v.u, |t.s|)})
  {
    hide AllDenote, Tidy;
    var s: iset<int>, ms: seq<iset<int>> :| TidyWith(b, vs, ts, kp, sp, s, ms);
    InBounds(b, vs, ts, kp, sp, s, ms);
    var s' := s + Range(|b|, |b'| - |b|);
    WidthIsSize(ByteWidth(v.minWidth));
    Pushed(b, b', vs, ts, kp, sp, v, t, s, ms, s', iset{});
    var vs', ts', ms' := vs + [v], ts + [t], ms + [iset{}];
    assert TidyWith(b', vs', ts', kp, sp, s', ms');
    if t.Key? && CStr(b', v.u) == Some(t.k) {
      assert KeyBytesIn(b', v.u, s');
      assert TidyWith(b', vs', ts', kp + {v.u}, sp, s', ms');
    }
    if t.Str? && IsU64(|t.s|) && v.minWidth == WidthU(|t.s|) {
      assert StringBytesIn((v.u, |t.s|), s');
      assert TidyWith(b', vs', ts', kp, sp + {(v.u, |t.s|)}, s', ms');
    }
  }

  /** A key or string taken from its pool. */
  lemma SharedTidy(b: seq<byte>, vs: seq<Value>, ts: seq<Tree>, kp: set<nat>, sp: set<(nat, nat)>, v: Value, t: Tree)
    requires AllTidy(b, vs, ts, kp, sp) && AllDenote(b, vs, ts)
    requires (t.Key? && v.u in kp && CStr(b, v.u) == Some(t.k))
             || (t.Str? && (v.u, |t.s|) in sp && IsU64(|t.s|) && v.minWidth == WidthU(|t.s|))
    ensures AllTidy(b, vs + [v], ts + [t], kp, sp)
  {
    hide AllDenote, Tidy;
    var s: iset<int>, ms: seq<iset<int>> :| TidyWith(b, vs, ts, kp, sp, s, ms);
    InBounds(b, vs, ts, kp, sp, s, ms);
    WidthIsSize(ByteWidth(v.minWidth));
    if t.Key? {
      assert KeyBytesIn(b, v.u, s);
    } else {
      assert StringBytesIn((v.u, |t.s|), s);
    }
    Pushed(b, b, vs, ts, kp, sp, v, t, s, ms, s, iset{});
  }

  // ---------------------------------------------------------------- vectors

  /** Where the image of a vector ends, and that its prefix is behind the old end. */
  lemma BuiltEnds(b: seq<byte>, vs: seq<Value>, bw: BitWidth, typed: bool, fixed: bool, keys: Option<Value>)
    requires IsU64(|b|) && AllPlaced(vs, |b|) && KeysPlaced(keys, |b|)
    ensures var w, p := ByteWidth(bw), ElemsAt(AlignUp(|b|, bw), ByteWidth(bw), fixed, keys);
            && Lies(p, w) && |b| + (if fixed then 0 else w) <= p && (keys.Some? && !fixed ==> |b| + 3 * w <= p)
            && |Built(b, vs, bw, typed, fixed, keys)| == p + Cells(|vs|, w) + if typed then 0 else |vs|
  {
    hide Cells, Lies, PaddingBytes, Mask;
    PrefixSize(AlignUp(|b|, bw), ByteWidth(bw), |vs|, fixed, keys);
    AlignUpLies(|b|, bw);
    CellsLie(AlignUp(|b|, bw), ByteWidth(bw), PrefixCells(fixed, keys));
  }

  lemma {:induction false} StridedIndex<T>(s: seq<T>, i: nat, k: nat)
    requires k < |Strided(s, i, 2)|
    ensures i + 2 * k < |s| && Strided(s, i, 2)[k] == s[i + 2 * k]
    decreases |s| - i
  {
    if k > 0 {
      StridedIndex(s, i + 2, k - 1);
    }
  }

  lemma {:induction false} StridedCount<T, U>(s: seq<T>, u: seq<U>, i: nat)
    requires |s| == |u|
    ensures |Strided(s, i, 2)| == |Strided(u, i, 2)|
    decreases |s| - i
  {
    if i < |s| {
      StridedCount(s, u, i + 2);
    }
  }

  /** Every second value, with its numbers. */
  lemma StridedTidy(b: seq<byte>, vs: seq<Value>, ts: seq<Tree>, s: iset<int>, ms: seq<iset<int>>, i: nat)
    requires Tidy(b, vs, ts, s, ms)
    ensures Tidy(b, Strided(vs, i, 2), Strided(ts, i, 2), s, Strided(ms, i, 2))
    ensures forall j, k :: 0 <= j < i && j < |ms| && 0 <= k < |Strided(ms, i, 2)| ==> ms[j] !! Strided(ms, i, 2)[k]
  {
    hide ValueParted, Strided;
    var sub := Strided(ms, i, 2);
    StridedCount(vs, ts, i);
    StridedCount(vs, ms, i);
    forall k | 0 <= k < |sub|
      ensures i + 2 * k < |ms| && sub[k] == ms[i + 2 * k] && Strided(vs, i, 2)[k] == vs[i + 2 * k]
      ensures Strided(ts, i, 2)[k] == ts[i + 2 * k]
    {
      StridedIndex(ms, i, k);
      StridedIndex(vs, i, k);
      StridedIndex(ts, i, k);
    }
  }

  lemma SuffixTidy(b: seq<byte>, vs: seq<Value>, ts: seq<Tree>, s: iset<int>, ms: seq<iset<int>>, i: nat)
    requires Tidy(b, vs, ts, s, ms) && i <= |vs|
    ensures Tidy(b, vs[i..], ts[i..], s, ms[i..])
    ensures forall j, k :: 0 <= j < i && 0 <= k < |ms[i..]| ==> ms[j] !! ms[i..][k]
  {
    hide ValueParted;
  }

  /** A vector takes the place of its elements. */
  lemma Closed(b: seq<byte>, b': seq<byte>, stack: seq<Value>, trees: seq<Tree>, kp: set<nat>, sp: set<(nat, nat)>,
               s: iset<int>, ms: seq<iset<int>>, start: nat, vs: seq<Value>, ts: seq<Tree>, sub: seq<iset<int>>,
               v: Value, typed: bool, fixed: bool, t: Tree)
    requires TidyWith(b, stack, trees, kp, sp, s, ms) && AllDenote(b, stack, trees) && start <= |stack|
    requires Adds(b, b', v.u, vs, ts, v.minWidth, typed, fixed, s, sub)
    requires |sub| == |vs| && !IsScalarTree(t)
    requires PartedAt(b', v.u, ByteWidth(v.minWidth), t, After(b, b', v.u, vs, v.minWidth, s),
                      Union(WithCells(vs, sub, v.u, ByteWidth(v.minWidth))))
    requires |ms| == |stack| && forall j, k :: 0 <= j < start && 0 <= k < |sub| ==> ms[j] !! sub[k]
    ensures AllTidy(b', stack[..start] + [v], trees[..start] + [t], kp, sp)
  {
    hide AllDenote, PartedAt, Extends, ValueParted, PoolsIn, WithCells, Union, Structure, Cells, Disjoint;
    var w := ByteWidth(v.minWidth);
    var s', m := After(b, b', v.u, vs, v.minWidth, s), Union(WithCells(vs, sub, v.u, w));
    PartsTidy(b, b', v.u, vs, ts, v.minWidth, typed, fixed, s, sub);
    AddsParts(b, b', v.u, vs, ts, v.minWidth, typed, fixed, s, sub);
    StructureBehind(s, |b|, |b'|, vs, v.u, w);
    forall i | 0 <= i < start
      ensures ms[i] !! m
    {
      CellsBehind(|b|, ms[i], vs, sub, v.u, w);
    }
    ValueIs(b', v, t, s', m);
    Wrapped(b, b', stack, trees, s, ms, start, v, t, s', m);
    PoolsGrow(b, b', kp, sp, s, s');
    assert TidyWith(b', stack[..start] + [v], trees[..start] + [t], kp, sp, s', ms[..start] + [m]);
  }

  lemma ValueIs(b: seq<byte>, v: Value, t: Tree, s: iset<int>, m: iset<int>)
    requires PartedAt(b, v.u, ByteWidth(v.minWidth), t, s, m)
    ensures ValueParted(b, v, t, s, m)
  {
  }

  lemma StructureBehind(s: iset<int>, from: nat, to: nat, vs: seq<Value>, p: nat, w: nat)
    ensures GrowsBehind(s, Structure(s, from, to, vs, p, w), from)
  {
  }

  lemma CellsBehind(n: nat, m: iset<int>, vs: seq<Value>, sub: seq<iset<int>>, p: nat, w: nat)
    requires |sub| == |vs| && m <= Below(n) && n <= p && forall k :: 0 <= k < |sub| ==> m !! sub[k]
    ensures m !! Union(WithCells(vs, sub, p, w))
  {
    hide Cells;
  }

  lemma VectorTidy(b: seq<byte>, stack: seq<Value>, trees: seq<Tree>, kp: set<nat>, sp: set<(nat, nat)>, start: nat,
                   typed: bool, fixed: bool, force: BitWidth)
    requires AllTidy(b, stack, trees, kp, sp)
    requires AllDenote(b, stack, trees) && start <= |stack| <= MAX_VALUES
    requires |b| + 9 * (|stack| - start) + 40 <= MAX_BYTES
    requires TreesOk(trees[start..], typed, fixed)
    ensures AllPlaced(stack, |b|) && Strided(stack, start, 1) == stack[start..]
    ensures ElementTypesOk(stack[start..], typed, fixed, None)
    ensures var c := Created(b, stack, start, 1, typed, fixed, None, force);
            AllTidy(c.0, stack[..start] + [c.1], trees[..start] + [VectorTree(trees[start..], typed, fixed)], kp, sp)
  {
    hide Denotes, Tidy, PoolsIn, TreesOk, AlignUp, Cells, VectorWidth, Laid, Union, WithCells;
    var s: iset<int>, ms: seq<iset<int>> :| TidyWith(b, stack, trees, kp, sp, s, ms);
    var vs, ts := stack[start..], trees[start..];
    VectorEnds(b, stack, trees, start, typed, fixed, force);
    StridedAll(trees, start);
    AllDenoteFrom(b, stack, trees, start);
    CreatedExtends(b, stack, trees, start, 1, typed, fixed, None, force);
    var c := Created(b, stack, start, 1, typed, fixed, None, force);
    TidyCount(b, stack, trees, s, ms);
    SuffixTidy(b, stack, trees, s, ms, start);
    BuiltEnds(b, vs, c.1.minWidth, typed, fixed, None);
    VectorParted(b, c.0, c.1.u, vs, ts, c.1.minWidth, typed, fixed, s, ms[start..]);
    Closed(b, c.0, stack, trees, kp, sp, s, ms, start, vs, ts, ms[start..], c.1, typed, fixed,
           VectorTree(ts, typed, fixed));
  }

  lemma AllDenoteFrom(b: seq<byte>, vs: seq<Value>, ts: seq<Tree>, k: nat)
    requires AllDenote(b, vs, ts) && k <= |vs|
    ensures |vs| == |ts| && AllDenote(b, vs[k..], ts[k..])
  {
  }

  lemma TidyCount(b: seq<byte>, vs: seq<Value>, ts: seq<Tree>, s: iset<int>, ms: seq<iset<int>>)
    requires Tidy(b, vs, ts, s, ms)
    ensures |ms| == |vs| == |ts|
  {
  }

  /** What `CreateVector` leaves behind is a vector of the values it takes. */
  lemma CreatedExtends(b: seq<byte>, stack: seq<Value>, trees: seq<Tree>, start: nat, step: nat, typed: bool,
                       fixed: bool, keys: Option<Value>, force: BitWidth)
    requires step > 0 && AllDenote(b, Strided(stack, start, step), Strided(trees, start, step))
    requires |stack| <= MAX_VALUES && AllPlaced(stack, |b|) && KeysPlaced(keys, |b|) && (keys.Some? ==> !fixed)
    requires |b| + 9 * |Strided(stack, start, step)| + 40 <= MAX_BYTES
    requires ElementTypesOk(Strided(stack, start, step), typed, fixed, keys)
    ensures var c := Created(b, stack, start, step, typed, fixed, keys, force);
            && Extends(b, c.0, c.1.u, Strided(stack, start, step), Strided(trees, start, step), c.1.minWidth, typed,
                       fixed)
            && (keys.Some? ==> AlignUp(|b|, c.1.minWidth) - keys.value.u < Pow256(ByteWidth(c.1.minWidth))
                               || IsInline(keys.value.ty))
  {
    hide Denotes, AlignUp, Cells, VectorWidth, Laid, VectorImage, ElementTypesOk, Strided;
    var vs, ts := Strided(stack, start, step), Strided(trees, start, step);
    StridedPlaced(stack, start, step, |b|);
    WidthSuffices(|b|, stack, start, step, force, fixed, keys);
    var bw := VectorWidth(|b|, stack, start, step, force, keys);
    var p := ElemsAt(AlignUp(|b|, bw), ByteWidth(bw), fixed, keys);
    BuiltSize(b, vs, bw, typed, fixed, keys);
    BuiltExtends(b, vs, ts, bw, typed, fixed, keys, p);
  }

  // ---------------------------------------------------------------- maps

  lemma TidyGrows(b: seq<byte>, b': seq<byte>, vs: seq<Value>, ts: seq<Tree>, s: iset<int>, ms: seq<iset<int>>,
                  s': iset<int>)
    requires Tidy(b, vs, ts, s, ms) && AllDenote(b, vs, ts) && b <= b' && GrowsBehind(s, s', |b|) && s' <= Below(|b'|)
    ensures Tidy(b', vs, ts, s', ms)
  {
    hide ValueParted, Denotes;
    forall i | 0 <= i < |vs|
      ensures ms[i] <= Below(|b'|) && ms[i] !! s' && ValueParted(b', vs[i], ts[i], s', ms[i])
    {
      ValueGrows(b, b', vs[i], ts[i], s, ms[i], s', ms[i]);
    }
  }

  /** A map takes the place of its keys and values; its keys vector is part of the structure. */
  lemma MapTidy(b: seq<byte>, stack: seq<Value>, trees: seq<Tree>, kp: set<nat>, sp: set<(nat, nat)>, start: nat,
                ks: seq<seq<byte>>, ts: seq<Tree>, force: BitWidth, k: (seq<byte>, Value), c: (seq<byte>, Value))
    requires AllTidy(b, stack, trees, kp, sp) && AllDenote(b, stack, trees) && start <= |stack| <= MAX_VALUES
    requires |b| + 18 * (|stack| - start) + 80 <= MAX_BYTES && (|stack| - start) % 2 == 0
    requires |ks| == |ts| && FlexMap.Ascending(ks)
    requires Strided(trees, start, 2) == KeyTrees(ks) && Strided(trees, start + 1, 2) == ts
    requires AllPlaced(stack, |b|) && ElementTypesOk(Strided(stack, start, 2), true, false, None)
    requires k == Created(b, stack, start, 2, true, false, None, force)
    requires Denotes(k.0, k.1, Tree.TypedVector(FBT_KEY, KeyTrees(ks)))
    requires b <= k.0 && |k.0| + 9 * (|stack| - start) + 40 <= MAX_BYTES
    requires AllPlaced(stack, |k.0|) && KeysPlaced(Some(k.1), |k.0|) && !IsInline(k.1.ty)
    requires c == Created(k.0, stack, start + 1, 2, false, false, Some(k.1), force)
    ensures AllTidy(c.0, stack[..start] + [c.1], trees[..start] + [Map(MapOf(ks, ts))], kp, sp)
  {
    hide Denotes, Tidy, PoolsIn, TreesOk, AlignUp, Cells, VectorWidth, Laid, Union, WithCells, PartedAt, Strided, Built,
      MapOf, FlexMap.Ascending;
    var s: iset<int>, ms: seq<iset<int>> :| TidyWith(b, stack, trees, kp, sp, s, ms);
    var s1, m1 := KeysTidy(b, stack, trees, start, ks, force, s, ms, k);
    TidyGrows(b, k.0, stack, trees, s, ms, s1);
    StackGrows(b, k.0, stack, trees);
    PoolsGrow(b, k.0, kp, sp, s, s1);
    ValuesTidy(k.0, stack, trees, kp, sp, start, ks, ts, force, s1, ms, k.1, m1, c);
  }

  lemma KeysTidy(b: seq<byte>, stack: seq<Value>, trees: seq<Tree>, start: nat, ks: seq<seq<byte>>, force: BitWidth,
                 s: iset<int>, ms: seq<iset<int>>, k: (seq<byte>, Value)) returns (s': iset<int>, m: iset<int>)
    requires Tidy(b, stack, trees, s, ms) && AllDenote(b, stack, trees) && start <= |stack| <= MAX_VALUES
    requires |b| + 18 * (|stack| - start) + 80 <= MAX_BYTES && (|stack| - start) % 2 == 0
    requires Strided(trees, start, 2) == KeyTrees(ks)
    requires AllPlaced(stack, |b|) && ElementTypesOk(Strided(stack, start, 2), true, false, None)
    requires k == Created(b, stack, start, 2, true, false, None, force)
    ensures GrowsBehind(s, s', |b|) && s' <= Below(|k.0|)
    ensures ValueParted(k.0, k.1, Tree.TypedVector(FBT_KEY, KeyTrees(ks)), s', m)
  {
    hide Denotes, Tidy, AlignUp, Cells, VectorWidth, Laid, Union, WithCells, PartedAt, Strided, Structure;
    var vs, ts, sub := Strided(stack, start, 2), Strided(trees, start, 2), Strided(ms, start, 2);
    StridedDenote(b, stack, trees, start, 2);
    StridedHalves(stack, start);
    CreatedExtends(b, stack, trees, start, 2, true, false, None, force);
    StridedTidy(b, stack, trees, s, ms, start);
    BuiltEnds(b, vs, k.1.minWidth, true, false, None);
    KeysDenoted(b, vs, ts);
    VectorParted(b, k.0, k.1.u, vs, ts, k.1.minWidth, true, false, s, sub);
    PartsTidy(b, k.0, k.1.u, vs, ts, k.1.minWidth, true, false, s, sub);
    StructureBehind(s, |b|, |k.0|, vs, k.1.u, ByteWidth(k.1.minWidth));
    s' := After(b, k.0, k.1.u, vs, k.1.minWidth, s);
    m := Union(WithCells(vs, sub, k.1.u, ByteWidth(k.1.minWidth)));
    KeysTree(ks);
    ValueIs(k.0, k.1, Tree.TypedVector(FBT_KEY, KeyTrees(ks)), s', m);
  }

  lemma KeysTree(ks: seq<seq<byte>>)
    ensures VectorTree(KeyTrees(ks), true, false) == Tree.TypedVector(FBT_KEY, KeyTrees(ks))
  {
  }

  lemma ValuesTidy(b: seq<byte>, stack: seq<Value>, trees: seq<Tree>, kp: set<nat>, sp: set<(nat, nat)>, start: nat,
                   ks: seq<seq<byte>>, ts: seq<Tree>, force: BitWidth, s: iset<int>, ms: seq<iset<int>>, keys: Value,
                   m: iset<int>, c: (seq<byte>, Value))
    requires TidyWith(b, stack, trees, kp, sp, s, ms) && AllDenote(b, stack, trees) && start <= |stack| <= MAX_VALUES
    requires |b| + 9 * (|stack| - start) + 40 <= MAX_BYTES && (|stack| - start) % 2 == 0
    requires |ks| == |ts| && FlexMap.Ascending(ks) && Strided(trees, start + 1, 2) == ts
    requires Denotes(b, keys, Tree.TypedVector(FBT_KEY, KeyTrees(ks)))
    requires ValueParted(b, keys, Tree.TypedVector(FBT_KEY, KeyTrees(ks)), s, m)
    requires AllPlaced(stack, |b|) && KeysPlaced(Some(keys), |b|) && !IsInline(keys.ty)
    requires c == Created(b, stack, start + 1, 2, false, false, Some(keys), force)
    ensures AllTidy(c.0, stack[..start] + [c.1], trees[..start] + [Map(MapOf(ks, ts))], kp, sp)
  {
    hide Denotes, Tidy, PoolsIn, AlignUp, Cells, VectorWidth, Laid, Union, WithCells, PartedAt, Strided, Structure,
      ValueParted, MapOf, FlexMap.Ascending, Placed, KeyTrees, Disjoint, ByteWidth, Lies, Built, Pow256, ElemsAt,
      IsInline;
    var vs, sub := Strided(stack, start + 1, 2), Strided(ms, start + 1, 2);
    StridedDenote(b, stack, trees, start + 1, 2);
    StridedHalves(stack, start);
    CreatedExtends(b, stack, trees, start + 1, 2, false, false, Some(keys), force);
    TidyCount(b, stack, trees, s, ms);
    StridedTidy(b, stack, trees, s, ms, start + 1);
    BuiltEnds(b, vs, c.1.minWidth, false, false, Some(keys));
    BuiltKeys(b, vs, c.1.minWidth, keys);
    MapParted(b, c.0, c.1.u, vs, ts, c.1.minWidth, keys, ks, s, sub, m);
    Closed(b, c.0, stack, trees, kp, sp, s, ms, start, vs, ts, sub, c.1, false, false, Map(MapOf(ks, ts)));
  }

  // ---------------------------------------------------------------- sorting

  ghost predicate Injective(order: seq<nat>) {
    forall i, j :: 0 <= i < j < |order| ==> order[i] != order[j]
  }

  /** Rearranging the stack rearranges the parts. */
  lemma PermutedTidy(b: seq<byte>, vs: seq<Value>, ts: seq<Tree>, s: iset<int>, ms: seq<iset<int>>, perm: seq<nat>)
    requires Tidy(b, vs, ts, s, ms) && FlexMap.Below(perm, |vs|) && Injective(perm)
    ensures |ms| == |vs| == |ts|
    ensures Tidy(b, FlexMap.Pick(vs, perm), FlexMap.Pick(ts, perm), s, FlexMap.Pick(ms, perm))
  {
    hide ValueParted;
  }

  /** The places of the keys and values in order, above the part of the stack that stays. */
  function PairPlaces(start: nat, order: seq<nat>): (perm: seq<nat>)
    ensures |perm| == start + 2 * |order|
    ensures forall i :: 0 <= i < start ==> perm[i] == i
    ensures forall j :: 0 <= j < |order| ==>
              perm[start + 2 * j] == start + 2 * order[j] && perm[start + 2 * j + 1] == start + 2 * order[j] + 1
  {
    seq(start + 2 * |order|,
        i requires 0 <= i < start + 2 * |order| =>
          if i < start then i else start + 2 * order[(i - start) / 2] + (i - start) % 2)
  }

  lemma PairPlace(start: nat, order: seq<nat>, i: nat)
    requires start <= i < start + 2 * |order|
    ensures var j := (i - start) / 2;
            j < |order| && PairPlaces(start, order)[i] == start + 2 * order[j] + (i - start) % 2
  {
    hide PairPlaces;
    var j := (i - start) / 2;
    if (i - start) % 2 == 0 {
      assert i == start + 2 * j;
    } else {
      assert i == start + 2 * j + 1;
    }
  }

  lemma PairPlacesApart(start: nat, order: seq<nat>, n: nat)
    requires FlexMap.Below(order, n) && Injective(order)
    ensures FlexMap.Below(PairPlaces(start, order), start + 2 * n) && Injective(PairPlaces(start, order))
  {
    hide PairPlaces;
    var perm := PairPlaces(start, order);
    forall i | 0 <= i < |perm|
      ensures perm[i] < start + 2 * n
    {
      if i >= start {
        PairPlace(start, order, i);
      }
    }
    forall i, j | 0 <= i < j < |perm|
      ensures perm[i] != perm[j]
    {
      if i >= start {
        PairPlace(start, order, i);
      }
      if j >= start {
        PairPlace(start, order, j);
      }
    }
  }

  lemma {:induction false} InterleaveAt<T>(ks: seq<T>, vs: seq<T>, j: nat)
    requires |ks| == |vs| && j < |ks|
    ensures Interleave(ks, vs)[2 * j] == ks[j] && Interleave(ks, vs)[2 * j + 1] == vs[j]
    decreases |ks|
  {
    if j > 0 {
      InterleaveAt(ks[1..], vs[1..], j - 1);
    }
  }

  /** The stack with its pairs in order. */
  function Sorted<T>(s: seq<T>, start: nat, order: seq<nat>): seq<T>
    requires start <= |s| && FlexMap.Below(order, |Strided(s, start, 2)|)
    requires FlexMap.Below(order, |Strided(s, start + 1, 2)|)
  {
    s[..start]
    + Interleave(FlexMap.Pick(Strided(s, start, 2), order), FlexMap.Pick(Strided(s, start + 1, 2), order))
  }

  lemma SortedAt<T>(s: seq<T>, start: nat, order: seq<nat>, i: nat)
    requires start <= i < start + 2 * |order| && start <= |s|
    requires FlexMap.Below(order, |Strided(s, start, 2)|) && FlexMap.Below(order, |Strided(s, start + 1, 2)|)
    ensures PairPlaces(start, order)[i] < |s| && Sorted(s, start, order)[i] == s[PairPlaces(start, order)[i]]
  {
    hide Strided, Interleave, PairPlaces;
    var j := (i - start) / 2;
    PairPlace(start, order, i);
    InterleaveAt(FlexMap.Pick(Strided(s, start, 2), order), FlexMap.Pick(Strided(s, start + 1, 2), order), j);
    StridedIndex(s, start, order[j]);
    StridedIndex(s, start + 1, order[j]);
  }

  /** It picks from the old one. */
  lemma SortedPicks<T>(s: seq<T>, start: nat, order: seq<nat>)
    requires start <= |s| && (|s| - start) % 2 == 0 && FlexMap.Below(order, (|s| - start) / 2)
    requires |order| == (|s| - start) / 2
    ensures |Strided(s, start, 2)| == |Strided(s, start + 1, 2)| == |order|
    ensures FlexMap.Below(PairPlaces(start, order), |s|)
    ensures Sorted(s, start, order) == FlexMap.Pick(s, PairPlaces(start, order))
  {
    hide Strided, Interleave, PairPlaces;
    StridedHalves(s, start);
    var perm, sorted := PairPlaces(start, order), Sorted(s, start, order);
    forall i | 0 <= i < |s|
      ensures perm[i] < |s| && sorted[i] == s[perm[i]]
    {
      if i >= start {
        SortedAt(s, start, order, i);
      }
    }
    assert sorted == FlexMap.Pick(s, perm);
  }

  lemma SortedTidy(b: seq<byte>, stack: seq<Value>, trees: seq<Tree>, kp: set<nat>, sp: set<(nat, nat)>, start: nat,
                   order: seq<nat>)
    requires AllTidy(b, stack, trees, kp, sp) && |trees| == |stack| && start <= |stack| && (|stack| - start) % 2 == 0
    requires |order| == (|stack| - start) / 2 && FlexMap.Below(order, |order|)
    requires forall i: nat :: i < |order| ==> i in order
    ensures |Strided(stack, start, 2)| == |Strided(stack, start + 1, 2)| == |order|
    ensures |Strided(trees, start, 2)| == |Strided(trees, start + 1, 2)| == |order|
    ensures AllTidy(b, Sorted(stack, start, order), Sorted(trees, start, order), kp, sp)
  {
    hide Tidy, PoolsIn, Strided, Interleave, Sorted, PairPlaces, Injective;
    var s: iset<int>, ms: seq<iset<int>> :| TidyWith(b, stack, trees, kp, sp, s, ms);
    OrderInjective(order);
    PairPlacesApart(start, order, |order|);
    SortedPicks(stack, start, order);
    SortedPicks(trees, start, order);
    var perm := PairPlaces(start, order);
    PermutedTidy(b, stack, trees, s, ms, perm);
    assert TidyWith(b, FlexMap.Pick(stack, perm), FlexMap.Pick(trees, perm), kp, sp, s, FlexMap.Pick(ms, perm));
  }

  lemma OrderInjective(order: seq<nat>)
    requires forall i: nat :: i < |order| ==> i in order
    ensures Injective(order)
  {
    var dom := set i: nat | i < |order| && i in order;
    DomCount(|order|, dom);
    forall i, j | 0 <= i < j < |order|
      ensures order[i] != order[j]
    {
      if order[i] == order[j] {
        PlacesDiffer(order, dom, i, j);
      }
    }
  }

  lemma {:induction false} DomCount(n: nat, dom: set<nat>)
    requires forall i: nat :: i in dom <==> i < n
    ensures |dom| == n
  {
    if n > 0 {
      DomCount(n - 1, dom - {n - 1});
    } else {
      assert dom == {};
    }
  }

  // ---------------------------------------------------------------- arrays of numbers

  ghost function NoNumbers(n: nat): (ms: seq<iset<int>>)
    ensures |ms| == n && forall i :: 0 <= i < n ==> ms[i] == iset{}
  {
    seq(n, i => iset{})
  }

  /** Numbers that are not written yet have no bytes. */
  lemma FreshTidy(b: seq<byte>, vs: seq<Value>, ts: seq<Tree>, s: iset<int>)
    requires |vs| == |ts| && s <= Below(|b|) && forall i :: 0 <= i < |ts| ==> IsScalarTree(ts[i])
    ensures Tidy(b, vs, ts, s, NoNumbers(|vs|))
  {
  }

  lemma ScalarTrees(xs: seq<int>, ety: Type, bw: BitWidth)
    requires AllElements(xs, ety, bw) && ety in {FBT_INT, FBT_UINT, FBT_BOOL}
    ensures var vs, ts := ElementValues(xs, ety, bw), ElementTrees(xs, ety, bw);
            && (forall i :: 0 <= i < |ts| ==> IsScalarTree(ts[i]) && IsTypedElement(ts[i]) && ElementType(ts[i]) == ety)
            && forall i :: 0 <= i < |vs| ==> vs[i].ty == ety
  {
  }

  /** An array of numbers, written at once. */
  lemma ScalarsTidy(b: seq<byte>, b': seq<byte>, stack: seq<Value>, trees: seq<Tree>, kp: set<nat>, sp: set<(nat, nat)>,
                    xs: seq<int>, ety: Type, bw: BitWidth, fixed: bool, v: Value)
    requires AllTidy(b, stack, trees, kp, sp) && AllDenote(b, stack, trees)
    requires AllElements(xs, ety, bw) && ety in {FBT_INT, FBT_UINT, FBT_BOOL}
    requires |xs| < Pow256(ByteWidth(bw)) && |WithScalars(b, xs, ety, bw, fixed)| < TWO_64
    requires fixed ==> 2 <= |xs| <= 4 && ety != FBT_BOOL
    requires Lies(|b|, ByteWidth(bw))
    requires b' == WithScalars(b, xs, ety, bw, fixed)
    requires v == Value(ElemsAt(|b|, ByteWidth(bw), fixed, None), ToTypedVector(ety, if fixed then |xs| else 0), bw)
    ensures var ts := ElementTrees(xs, ety, bw);
            AllTidy(b', stack + [v],
                    trees + [if fixed then FixedVector(ety, ts) else Tree.TypedVector(ety, ts)], kp, sp)
  {
    hide Denotes, PoolsIn, Cells, Union, WithCells, PartedAt, Structure, ValueParted, IsElement, Extends, Tidy,
      ElementTrees, ElementValues, ElementAt, After;
    var s: iset<int>, ms: seq<iset<int>> :| TidyWith(b, stack, trees, kp, sp, s, ms);
    TidyCount(b, stack, trees, s, ms);
    InBounds(b, stack, trees, kp, sp, s, ms);
    var vs, ts, p := ElementValues(xs, ety, bw), ElementTrees(xs, ety, bw), v.u;
    var t := if fixed then FixedVector(ety, ts) else Tree.TypedVector(ety, ts);
    var sub := NoNumbers(|vs|);
    ScalarTrees(xs, ety, bw);
    FreshTidy(b, vs, ts, s);
    CellsLie(|b|, ByteWidth(bw), PrefixCells(fixed, None));
    ScalarsExtend(b, xs, ety, bw, fixed);
    PrefixSize(|b|, ByteWidth(bw), |xs|, fixed, None);
    assert Adds(b, b', p, vs, ts, bw, true, fixed, s, sub);
    FrameAdded(b, b', p, vs, ts, bw, true, fixed, s, sub);
    ScalarsFrame(b', p, ByteWidth(bw), ts, ety, fixed, After(b, b', p, vs, bw, s));
    forall k | 0 <= k < |ts|
      ensures ElementAt(b', p, vs, ts, bw, t, k)
    {
      ScalarFound(b, b', p, vs, ts, bw, ety, fixed, k);
    }
    VectorAdded(b, b', p, vs, ts, bw, true, fixed, s, sub, t);
    Closed(b, b', stack, trees, kp, sp, s, ms, |stack|, vs, ts, sub, v, true, fixed, t);
    assert stack[..|stack|] == stack && trees[..|stack|] == trees;
  }

  lemma ScalarsFrame(b: seq<byte>, p: nat, w: nat, ts: seq<Tree>, ety: Type, fixed: bool, s: iset<int>)
    requires !fixed ==> In(p - w, ScalarSize(w), s)
    ensures FrameIn(b, p, w, if fixed then FixedVector(ety, ts) else Tree.TypedVector(ety, ts), s)
  {
    hide In;
  }

  lemma ScalarFound(b: seq<byte>, b': seq<byte>, p: nat, vs: seq<Value>, ts: seq<Tree>, bw: BitWidth, ety: Type,
                    fixed: bool, k: nat)
    requires Extends(b, b', p, vs, ts, bw, true, fixed) && k < |ts| == |vs| && vs[k].ty == ety && IsTypedElement(ts[k])
    ensures ElementAt(b', p, vs, ts, bw, if fixed then FixedVector(ety, ts) else Tree.TypedVector(ety, ts), k)
  {
    hide Denotes, Laid, AllHold, Cells, TypedVectorAt, FixedTypedVectorAt, Unpack;
    var w := ByteWidth(bw);
    CellsIs(k, w);
    if fixed {
      FixedCell(p, |ts|, w, ety, k);
    } else {
      SizeReads(b, b', p, vs, ts, bw, true);
      TypedCell(b', p, |vs|, w, ety, k);
    }
  }

  /** Padding, and what is written for an array of numbers. */
  lemma PaddedScalarsTidy(b0: seq<byte>, b: seq<byte>, b': seq<byte>, stack: seq<Value>, trees: seq<Tree>, kp: set<nat>,
                          sp: set<(nat, nat)>, xs: seq<int>, ety: Type, bw: BitWidth, fixed: bool, v: Value)
    requires AllTidy(b0, stack, trees, kp, sp) && AllDenote(b0, stack, trees) && b0 <= b
    requires AllElements(xs, ety, bw) && ety in {FBT_INT, FBT_UINT, FBT_BOOL} && IsU64(|xs|)
    requires WidthU(|xs|) <= bw && |b| + 8 * |xs| + 8 < TWO_64 && Lies(|b|, ByteWidth(bw))
    requires fixed ==> 2 <= |xs| <= 4 && ety != FBT_BOOL
    requires b' == b + SizeBytes(|xs|, ByteWidth(bw), fixed)
                   + AllBytes(ElementValues(xs, ety, bw), |b + SizeBytes(|xs|, ByteWidth(bw), fixed)|, ByteWidth(bw))
    requires v == Value(|b + SizeBytes(|xs|, ByteWidth(bw), fixed)|, ToTypedVector(ety, if fixed then |xs| else 0), bw)
    ensures var ts := ElementTrees(xs, ety, bw);
            AllTidy(b', stack + [v],
                    trees + [if fixed then FixedVector(ety, ts) else Tree.TypedVector(ety, ts)], kp, sp)
  {
    hide AllTidy, Denotes, AllElements, AllBytes, Pow256;
    PaddingTidy(b0, b, stack, trees, kp, sp);
    StackGrows(b0, b, stack, trees);
    ScalarsSize(b, xs, ety, bw, fixed);
    WidthUStays(|xs|, bw);
    ScalarsTidy(b, b', stack, trees, kp, sp, xs, ety, bw, fixed, v);
  }

  lemma PaddingTidy(b: seq<byte>, b': seq<byte>, vs: seq<Value>, ts: seq<Tree>, kp: set<nat>, sp: set<(nat, nat)>)
    requires AllTidy(b, vs, ts, kp, sp) && AllDenote(b, vs, ts) && b <= b'
    ensures AllTidy(b', vs, ts, kp, sp)
  {
    hide Tidy, AllDenote, PoolsIn;
    var s: iset<int>, ms: seq<iset<int>> :| TidyWith(b, vs, ts, kp, sp, s, ms);
    InBounds(b, vs, ts, kp, sp, s, ms);
    TidyGrows(b, b', vs, ts, s, ms, s);
    PoolsGrow(b, b', kp, sp, s, s);
    assert TidyWith(b', vs, ts, kp, sp, s, ms);
  }

  // ---------------------------------------------------------------- the root

  /** A finished buffer whose numbers can be changed: each has its bytes for itself. */
  ghost predicate Mutable(b: seq<byte>, t: Tree) {
    exists s: iset<int>, m: iset<int> :: MutableIn(b, t, s, m)
  }

  /** The last two bytes, which say what the root is, are no numbers either. */
  ghost predicate MutableIn(b: seq<byte>, t: Tree, s: iset<int>, m: iset<int>) {
    && GetRoot(b).Some? && Reads(b, GetRoot(b).value, t) && Parted(b, GetRoot(b).value, t, s, m) && s !! m
    && In(|b| - 2, 2, s)
  }

  lemma RootTidy(b: seq<byte>, v: Value, t: Tree, kp: set<nat>, sp: set<(nat, nat)>)
    requires AllTidy(b, [v], [t], kp, sp) && |b| + 8 < TWO_64 && Denotes(b, v, t)
    ensures Placed(v, |b|)
    ensures Mutable(b + RootImage(|b|, v, ElemWidth(v, |b|, 0)), t)
  {
    hide PoolsIn, Denotes, ElemWidth, RootImage, Mutable, ValueParted;
    var s: iset<int>, ms: seq<iset<int>> :| TidyWith(b, [v], [t], kp, sp, s, ms);
    DenotesPlaced(b, v, t);
    RootMutable(b, v, t, s, ms[0]);
  }

  lemma RootMutable(b: seq<byte>, v: Value, t: Tree, s: iset<int>, m: iset<int>)
    requires ValueParted(b, v, t, s, m) && s <= Below(|b|) && m <= Below(|b|) && m !! s
    requires |b| + 8 < TWO_64 && Denotes(b, v, t) && Placed(v, |b|)
    ensures Mutable(b + RootImage(|b|, v, ElemWidth(v, |b|, 0)), t)
  {
    hide Denotes, Reads, HasBytes, In, AlignUp, ElemWidth, RootImage, Holds, GetRoot, ValueParted, Below, Parted, Range,
      Unpack;
    DenotesKnownType(b, v, t);
    var bw := ElemWidth(v, |b|, 0);
    var b', p, w := b + RootImage(|b|, v, bw), AlignUp(|b|, bw), ByteWidth(bw);
    RootReads(b, v, t);
    RootFound(b, v, bw);
    RootEnds(b, v, bw);
    AlignUpLies(|b|, bw);
    HoldsStays(v, |b|, 0, bw, 0);
    var s' := s + if IsNumberType(v.ty) then Range(|b'| - 2, 2) else Range(p, w + 2);
    var m' := m + if IsNumberType(v.ty) then Range(p, w) else iset{};
    RootSets(b, s, m, p, w, IsNumberType(v.ty), |b'|, s', m');
    RootCellParted(b, b', v, t, p, bw, s, m, s', m');
    assert MutableIn(b', t, s', m');
  }

  lemma RootEnds(b: seq<byte>, v: Value, bw: BitWidth)
    requires IsU64(|b|) && Placed(v, |b|)
    ensures |b| <= AlignUp(|b|, bw)
    ensures |b + RootImage(|b|, v, bw)| == AlignUp(|b|, bw) + ByteWidth(bw) + 2
  {
  }

  lemma RootSets(b: seq<byte>, s: iset<int>, m: iset<int>, p: nat, w: nat, number: bool, n: nat, s': iset<int>,
                 m': iset<int>)
    requires s <= Below(|b|) && m <= Below(|b|) && m !! s && |b| <= p && n == p + w + 2
    requires s' == s + if number then Range(n - 2, 2) else Range(p, w + 2)
    requires m' == m + if number then Range(p, w) else iset{}
    ensures s <= s' && m <= m' && s' !! m' && In(n - 2, 2, s') && In(p, w, if number then m' else s')
  {
  }

  lemma RootCellParted(b: seq<byte>, b': seq<byte>, v: Value, t: Tree, p: nat, bw: BitWidth, s: iset<int>, m: iset<int>,
                       s': iset<int>, m': iset<int>)
    requires Denotes(b, v, t) && b <= b' && v.ty <= FBT_VECTOR_BOOL && Placed(v, p) && Holds(v, p, bw)
    requires HasBytes(b', p, AnyBytes(v, p, ByteWidth(bw)))
    requires ValueParted(b, v, t, s, m) && s <= s' && m <= m'
    requires In(p, ByteWidth(bw), if IsNumberType(v.ty) then m' else s') && Lies(p, ByteWidth(bw))
    ensures Parted(b', Unpack(p, ByteWidth(bw), v.StoredPackedType(BIT_WIDTH_8)), t, s', m')
  {
    hide PartedAt, HasBytes, In, Pow256, ReadsAt;
    PackedUnpacks(v, p, ByteWidth(bw), BIT_WIDTH_8);
    if !IsScalarTree(t) {
      DenotesOffset(b, v, t);
    }
    CellParted(b, b', v, t, p, bw, ByteWidth(v.StoredWidth(BIT_WIDTH_8)), s, m, s', m');
  }
}
