/** Everything that the builder makes passes the verifier, within the limits. */
module FlatAccepts {
  import opened Options
  import opened Bytes
  import opened VectorDownward
  import opened FlatReader
  import opened FlatObject
  import opened FlatState
  import opened FlatVerifier

  // ---------------------------------------------------------------- objects that match a schema

  ghost predicate Conforms(o: Obj, schema: Schema, t: nat)
    requires SchemaOk(schema) && t < |schema|
    decreases o, 2
  {
    o.Table? && forall i :: 0 <= i < |schema[t]| ==>
      var d := schema[t][i];
      if d.field in o.fields then FieldConforms(o.fields[d.field], schema, d.kind) else !d.required
  }

  ghost predicate KindOk(schema: Schema, k: Kind) {
    && (k.InlineData? ==> k.size > 0) && (k.ScalarVector? ==> IsAlignment(k.size))
    && (k.TableRef? || k.TableVector? ==> k.table < |schema|)
  }

  ghost predicate FieldConforms(fld: Field, schema: Schema, k: Kind)
    requires SchemaOk(schema) && KindOk(schema, k)
    decreases fld, 1
  {
    match k
    case InlineData(size) => fld.Inline? && |fld.bytes| == size
    case StringRef => fld.Ref? && fld.child.Str?
    case ScalarVector(size) => fld.Ref? && fld.child.Scalars? && fld.child.size == size
    case StringVector =>
      fld.Ref? && fld.child.Offsets? && forall i :: 0 <= i < |fld.child.children| ==> fld.child.children[i].Str?
    case TableRef(t) => fld.Ref? && Conforms(fld.child, schema, t)
    case TableVector(t) =>
      fld.Ref? && fld.child.Offsets? &&
      forall i :: 0 <= i < |fld.child.children| ==> Conforms(fld.child.children[i], schema, t)
  }

  /** Tables are nested no deeper than `depth`. */
  ghost predicate DepthWithin(o: Obj, schema: Schema, t: nat, depth: int)
    requires SchemaOk(schema) && t < |schema|
    decreases o, 2
  {
    depth >= 1 && (o.Table? ==> forall i :: 0 <= i < |schema[t]| ==>
      var d := schema[t][i];
      d.field in o.fields ==> FieldDepthWithin(o.fields[d.field], schema, d.kind, depth - 1))
  }

  ghost predicate FieldDepthWithin(fld: Field, schema: Schema, k: Kind, depth: int)
    requires SchemaOk(schema) && KindOk(schema, k)
    decreases fld, 1
  {
    match k
    case TableRef(t) => fld.Ref? ==> DepthWithin(fld.child, schema, t, depth)
    case TableVector(t) =>
      fld.Ref? && fld.child.Offsets? ==>
        forall i :: 0 <= i < |fld.child.children| ==> DepthWithin(fld.child.children[i], schema, t, depth)
    case _ => true
  }

  /** How many tables the verifier visits; an object referred to twice counts twice. */
  ghost function Visits(o: Obj, schema: Schema, t: nat): nat
    requires SchemaOk(schema) && t < |schema|
    decreases o, 3, 0
  {
    1 + VisitsFrom(o, schema, t, 0)
  }

  ghost function VisitsFrom(o: Obj, schema: Schema, t: nat, i: nat): nat
    requires SchemaOk(schema) && t < |schema| && i <= |schema[t]|
    decreases o, 2, |schema[t]| - i
  {
    if i == |schema[t]| then 0
    else
      var d := schema[t][i];
      (if o.Table? && d.field in o.fields then FieldVisits(o.fields[d.field], schema, d.kind) else 0)
      + VisitsFrom(o, schema, t, i + 1)
  }

  ghost function FieldVisits(fld: Field, schema: Schema, k: Kind): nat
    requires SchemaOk(schema) && KindOk(schema, k)
    decreases fld, 1, 0
  {
    match k
    case TableRef(t) => if fld.Ref? then Visits(fld.child, schema, t) else 0
    case TableVector(t) => if fld.Ref? && fld.child.Offsets? then ElemVisits(fld.child.children, schema, t, 0) else 0
    case _ => 0
  }

  ghost function ElemVisits(children: seq<Obj>, schema: Schema, t: nat, i: nat): nat
    requires SchemaOk(schema) && t < |schema| && i <= |children|
    decreases children, 0, |children| - i
  {
    if i == |children| then 0 else Visits(children[i], schema, t) + ElemVisits(children, schema, t, i + 1)
  }

  // ---------------------------------------------------------------- the checks that stored parts pass

  /** The buffer ends with the bytes in which things are stored, after a header of at least an offset. */
  ghost predicate Headed(b: seq<byte>, front: seq<byte>, b0: seq<byte>) {
    b == front + b0 && |front| >= SIZEOF_UOFFSET && |b| % 4 == 0 && |b| < MAX_BUFFER_SIZE
  }

  lemma TableStartPasses(b: seq<byte>, front: seq<byte>, b0: seq<byte>, off: nat, check: bool)
    requires Headed(b, front, b0) && 4 <= off <= |b0| && off % 4 == 0 && VTableStored(b0, off)
    ensures TableStartOk(b, |b| - off, check)
  {
    hide FromLE;
    var pos, vt := |b| - off, |front| + GetVTable(b0, |b0| - off).value;
    VTableGrows(front, b0, |b0| - off);
    ReadGrows(front, b0, |b0| - off, 4);
    ReadGrows(front, b0, GetVTable(b0, |b0| - off).value, 2);
    assert pos == |front| + (|b0| - off);
    assert ReadInt32(b, pos).Some? && GetVTable(b, pos) == Some(vt);
    assert WrappingMinus(pos, ReadInt32(b, pos).value) == vt;
    assert ReadUInt(b, vt, 2) == Some(LE(b, vt, 2));
    EvenStart(|b|, |b0|, GetVTable(b0, |b0| - off).value, |front|);
  }

  lemma EvenStart(n: nat, n0: nat, vt: nat, f: nat)
    requires n == f + n0 && n % 4 == 0 && vt <= n0 && (n0 - vt) % 2 == 0
    ensures Aligned(f + vt, 2)
  {
  }

  lemma StringPasses(b: seq<byte>, front: seq<byte>, b0: seq<byte>, off: nat, s: seq<byte>, check: bool)
    requires Headed(b, front, b0) && 4 <= off <= |b0| && off % 4 == 0 && StringStored(b0, off, s)
    ensures StringOk(b, |b| - off, check)
  {
    hide FromLE;
    var q := |b| - off;
    StringGrows(front, b0, off, s);
    assert ReadUInt(b, q, 4) == Some(LE(b, q, 4));
  }

  lemma ScalarsPass(b: seq<byte>, front: seq<byte>, b0: seq<byte>, off: nat, size: nat, elems: seq<nat>, check: bool)
    requires Headed(b, front, b0) && 4 <= off <= |b0| && off % 4 == 0 && ScalarsStored(b0, off, size, elems)
    ensures VectorEnd(b, |b| - off, size, check).Some?
  {
    hide FromLE;
    var q := |b| - off;
    ReadGrows(front, b0, |b0| - off, 4);
    assert ReadUInt(b, q, 4) == Some(LE(b, q, 4));
    if |elems| > 0 {
      var last := |elems| - 1;
      assert VectorGet(b0, |b0| - off, last, size) == Some(elems[last]);
      StrideIs(last, size);
    }
    FewElems(|elems|, size, |b|);
  }

  lemma FewElems(n: nat, size: nat, total: nat)
    requires IsAlignment(size) && size <= 8 && Stride(n, size) + 8 <= total < MAX_BUFFER_SIZE
    ensures n < MaxElems(size)
  {
  }

  lemma OffsetsPass(b: seq<byte>, front: seq<byte>, b0: seq<byte>, off: nat, children: seq<Obj>, check: bool)
    requires Headed(b, front, b0) && Stored(b0, off, Offsets(children))
    ensures VectorEnd(b, |b| - off, 4, check).Some? && VectorSize(b, |b| - off) == Some(|children|)
  {
    hide FromLE;
    var q := |b| - off;
    ReadGrows(front, b0, |b0| - off, 4);
    assert ReadUInt(b, q, 4) == Some(LE(b, q, 4));
    if |children| > 0 {
      var last := |children| - 1;
      assert RefStored(b0, off - 4 - 4 * last, children[last]);
    }
    FewElems(|children|, 4, |b|);
  }

  /** A stored reference passes VerifyOffset, and leads to its child. */
  lemma RefPasses(b: seq<byte>, front: seq<byte>, b0: seq<byte>, off: nat, child: Obj, check: bool) returns (u: nat)
    requires Headed(b, front, b0) && RefStored(b0, off, child)
    ensures 0 < u < off && CheckedOffset(b, |b| - off, check) == u && Stored(b0, off - u, child)
    ensures ReadUInt(b, |b| - off, 4) == Some(u) && 4 <= off - u <= |b0| && (off - u) % 4 == 0
  {
    hide FromLE;
    u := ReadUInt(b0, |b0| - off, 4).value;
    ReadGrows(front, b0, |b0| - off, 4);
    assert ReadUInt(b, |b| - off, 4) == Some(LE(b, |b| - off, 4));
    hide Stored;
    StoredPlace(b0, off - u, child);
    FourStart(|b|, off);
  }

  lemma TableParts(b: seq<byte>, off: int, o: Obj, schema: Schema, t: nat, depth: int)
    requires Stored(b, off, o) && SchemaOk(schema) && t < |schema| && Conforms(o, schema, t)
    requires DepthWithin(o, schema, t, depth)
    ensures o.Table? && VTableStored(b, off) && depth >= 1
  {
  }

  lemma RefPlace(b: seq<byte>, off: int, child: Obj)
    requires RefStored(b, off, child)
    ensures 4 <= off <= |b|
  {
  }

  lemma HeadedLonger(b: seq<byte>, front: seq<byte>, b0: seq<byte>)
    requires Headed(b, front, b0)
    ensures |b0| + 4 <= |b|
  {
  }

  lemma StoredPlace(b: seq<byte>, off: int, o: Obj)
    requires Stored(b, off, o)
    ensures 4 <= off <= |b| && off % 4 == 0
  {
  }

  lemma FourStart(n: nat, off: nat)
    requires n % 4 == 0 && off % 4 == 0 && off <= n
    ensures Aligned(n - off, 4)
  {
  }

  // ---------------------------------------------------------------- the whole object

  /** The verifier accepts a stored object that matches the schema, and visits as many tables as it has. */
  lemma {:induction false} Accepted(b: seq<byte>, front: seq<byte>, b0: seq<byte>, off: nat, o: Obj,
                                    schema: Schema, lim: Limits, t: nat, depth: nat, tables: nat)
    requires Headed(b, front, b0) && Stored(b0, off, o)
    requires SchemaOk(schema) && t < |schema| && Conforms(o, schema, t)
    requires DepthWithin(o, schema, t, lim.maxDepth - depth) && tables + Visits(o, schema, t) <= lim.maxTables
    ensures Verdict(b, schema, lim, t, |b| - off, depth, tables) == Some(tables + Visits(o, schema, t))
    decreases o, 3, 0
  {
    hide TableStartOk, FieldsVerdict, Conforms, DepthWithin, VisitsFrom, VTableStored, Stored, Headed;
    StoredPlace(b0, off, o);
    TableParts(b0, off, o, schema, t, lim.maxDepth - depth);
    HeadedLonger(b, front, b0);
    TableStartPasses(b, front, b0, off, lim.checkAlignment);
    FieldsAccepted(b, front, b0, off, o, schema, lim, t, 0, depth + 1, tables + 1);
  }

  lemma {:induction false} FieldsAccepted(b: seq<byte>, front: seq<byte>, b0: seq<byte>, off: nat, o: Obj,
                                          schema: Schema, lim: Limits, t: nat, i: nat, depth: nat, tables: nat)
    requires Headed(b, front, b0) && Stored(b0, off, o)
    requires SchemaOk(schema) && t < |schema| && i <= |schema[t]| && Conforms(o, schema, t)
    requires DepthWithin(o, schema, t, lim.maxDepth - depth + 1)
    requires tables + VisitsFrom(o, schema, t, i) <= lim.maxTables
    ensures FieldsVerdict(b, schema, lim, t, i, |b| - off, depth, tables) == Some(tables + VisitsFrom(o, schema, t, i))
    decreases o, 2, |schema[t]| - i
  {
    hide FieldVerdict, Conforms, DepthWithin, FieldConforms, FieldDepthWithin, FieldVisits, Stored, Headed;
    if i < |schema[t]| {
      var d := schema[t][i];
      FieldParts(o, schema, t, i, lim.maxDepth - depth + 1);
      var n := if d.field in o.fields then FieldVisits(o.fields[d.field], schema, d.kind) else 0;
      if d.field in o.fields {
        FieldAccepted(b, front, b0, off, o, schema, lim, d, depth, tables);
      } else {
        AbsentAccepted(b, front, b0, off, o, schema, lim, d, depth, tables);
      }
      FieldsAccepted(b, front, b0, off, o, schema, lim, t, i + 1, depth, tables + n);
    }
  }

  lemma FieldParts(o: Obj, schema: Schema, t: nat, i: nat, depth: int)
    requires SchemaOk(schema) && t < |schema| && i < |schema[t]| && Conforms(o, schema, t)
    requires DepthWithin(o, schema, t, depth)
    ensures var d := schema[t][i];
            o.Table? && DeclOk(schema, d)
            && if d.field in o.fields then
                 FieldConforms(o.fields[d.field], schema, d.kind)
                   && FieldDepthWithin(o.fields[d.field], schema, d.kind, depth - 1)
               else !d.required
  {
  }

  lemma SameFieldOffset(b: seq<byte>, front: seq<byte>, b0: seq<byte>, off: nat, fields: set<nat>, f: nat)
    requires Headed(b, front, b0) && off <= |b0| && PresentExactly(b0, off, fields) && IsField(f)
    ensures GetOptionalFieldOffset(b, |b| - off, f) == Some(FieldAt(b0, off, f))
    ensures FieldAt(b0, off, f) == 0 <==> f !in fields
  {
    hide GetOptionalFieldOffset;
    assert GetOptionalFieldOffset(b0, |b0| - off, f).Some?;
    FieldOffsetGrows(front, b0, |b0| - off, f);
    assert |b| - off == |front| + (|b0| - off);
  }

  lemma AbsentAccepted(b: seq<byte>, front: seq<byte>, b0: seq<byte>, off: nat, o: Obj,
                       schema: Schema, lim: Limits, d: FieldDecl, depth: nat, tables: nat)
    requires Headed(b, front, b0) && Stored(b0, off, o) && o.Table?
    requires SchemaOk(schema) && DeclOk(schema, d) && d.field !in o.fields && !d.required
    ensures FieldVerdict(b, schema, lim, d, |b| - off, depth, tables) == Some(tables)
  {
    hide GetOptionalFieldOffset, FieldStored, VTableStored, FieldAt, Headed, PresentExactly;
    StoredPlace(b0, off, o);
    SameFieldOffset(b, front, b0, off, o.fields.Keys, d.field);
  }

  lemma {:induction false} FieldAccepted(b: seq<byte>, front: seq<byte>, b0: seq<byte>, off: nat, o: Obj,
                                         schema: Schema, lim: Limits, d: FieldDecl, depth: nat, tables: nat)
    requires Headed(b, front, b0) && Stored(b0, off, o) && o.Table?
    requires SchemaOk(schema) && DeclOk(schema, d) && d.field in o.fields
    requires FieldConforms(o.fields[d.field], schema, d.kind)
    requires FieldDepthWithin(o.fields[d.field], schema, d.kind, lim.maxDepth - depth)
    requires tables + FieldVisits(o.fields[d.field], schema, d.kind) <= lim.maxTables
    ensures FieldVerdict(b, schema, lim, d, |b| - off, depth, tables)
         == Some(tables + FieldVisits(o.fields[d.field], schema, d.kind))
    decreases o, 1, 0
  {
    hide GetOptionalFieldOffset, VTableStored, PresentExactly, RefStored, FieldAt, RefVerdict, CheckedOffset;
    SameFieldOffset(b, front, b0, off, o.fields.Keys, d.field);
    var at := off - FieldAt(b0, off, d.field);
    var fld := o.fields[d.field];
    if fld.Ref? {
      RefPlace(b0, at, fld.child);
      var u := RefPasses(b, front, b0, at, fld.child, lim.checkAlignment);
      ChildAccepted(b, front, b0, off, at - u, fld, schema, lim, d.kind, depth, tables);
    }
  }

  lemma {:induction false} ChildAccepted(b: seq<byte>, front: seq<byte>, b0: seq<byte>, above: nat, off: nat,
                                         fld: Field,
                                         schema: Schema, lim: Limits, k: Kind, depth: nat, tables: nat)
    requires Headed(b, front, b0) && fld.Ref? && Stored(b0, off, fld.child) && off < above <= |b|
    requires SchemaOk(schema) && KindOk(schema, k) && FieldConforms(fld, schema, k)
    requires FieldDepthWithin(fld, schema, k, lim.maxDepth - depth)
    requires tables + FieldVisits(fld, schema, k) <= lim.maxTables
    ensures RefVerdict(b, schema, lim, k, |b| - above, |b| - off, depth, tables) ==
      Some(tables + FieldVisits(fld, schema, k))
    decreases fld, 0
  {
    hide VectorEnd, StringOk, StringsOk, ElemsVerdict, Verdict, Conforms, DepthWithin, Visits, ElemVisits, Headed,
      StringStored, ScalarsStored, VTableStored, PresentExactly;
    StoredPlace(b0, off, fld.child);
    match k {
      case InlineData(_) =>
      case StringRef => StringPasses(b, front, b0, off, fld.child.s, lim.checkAlignment);
      case ScalarVector(size) => ScalarsPass(b, front, b0, off, size, fld.child.elems, lim.checkAlignment);
      case StringVector =>
        OffsetsPass(b, front, b0, off, fld.child.children, lim.checkAlignment);
        StringsPass(b, front, b0, off, fld.child.children, lim.checkAlignment);
      case TableRef(t) => Accepted(b, front, b0, off, fld.child, schema, lim, t, depth, tables);
      case TableVector(t) =>
        OffsetsPass(b, front, b0, off, fld.child.children, lim.checkAlignment);
        ElemsAccepted(b, front, b0, off, fld.child.children, schema, lim, t, 0, depth, tables);
    }
  }

  lemma ElemPasses(b: seq<byte>, front: seq<byte>, b0: seq<byte>, off: nat, children: seq<Obj>, i: nat) returns (q: nat)
    requires Headed(b, front, b0) && Stored(b0, off, Offsets(children)) && i < |children|
    ensures q <= |b0| && ElemAt(b, |b| - off, i) == Some(|b| - q) && Stored(b0, q, children[i]) && |b| - off < |b| - q
  {
    hide Stored, FromLE;
    OffsetsPass(b, front, b0, off, children, false);
    OffsetsRef(b0, off, children, i);
    var u := RefPasses(b, front, b0, off - 4 - 4 * i, children[i], false);
    q := off - 4 - 4 * i - u;
  }

  lemma OffsetsRef(b: seq<byte>, off: nat, children: seq<Obj>, i: nat)
    requires Stored(b, off, Offsets(children)) && i < |children|
    ensures RefStored(b, off - 4 - 4 * i, children[i]) && off - 4 - 4 * i >= 4
  {
  }

  lemma StringsPass(b: seq<byte>, front: seq<byte>, b0: seq<byte>, off: nat, children: seq<Obj>, check: bool)
    requires Headed(b, front, b0) && Stored(b0, off, Offsets(children))
    requires forall i :: 0 <= i < |children| ==> children[i].Str?
    ensures StringsOk(b, |b| - off, check)
  {
    hide Stored, StringOk, Headed, ElemAt, StringStored, VectorSize;
    HeadedLonger(b, front, b0);
    StoredPlace(b0, off, Offsets(children));
    OffsetsPass(b, front, b0, off, children, check);
    var vec := |b| - off;
    forall i | 0 <= i < |children|
      ensures ElemAt(b, vec, i).Some? && StringOk(b, ElemAt(b, vec, i).value, check)
    {
      var q := ElemPasses(b, front, b0, off, children, i);
      StoredString(b0, q, children[i].s);
      StoredPlace(b0, q, children[i]);
      StringPasses(b, front, b0, q, children[i].s, check);
    }
  }

  lemma {:induction false} ElemsAccepted(b: seq<byte>, front: seq<byte>, b0: seq<byte>, off: nat, children: seq<Obj>,
                                         schema: Schema, lim: Limits, t: nat, i: nat, depth: nat, tables: nat)
    requires Headed(b, front, b0) && Stored(b0, off, Offsets(children)) && i <= |children|
    requires SchemaOk(schema) && t < |schema|
    requires forall j :: 0 <= j < |children| ==> Conforms(children[j], schema, t)
    requires forall j :: 0 <= j < |children| ==> DepthWithin(children[j], schema, t, lim.maxDepth - depth)
    requires tables + ElemVisits(children, schema, t, i) <= lim.maxTables
    ensures ElemsVerdict(b, schema, lim, t, |b| - off, i, depth, tables) ==
      Some(tables + ElemVisits(children, schema, t, i))
    decreases children, 1, |children| - i
  {
    hide Stored, Verdict, Conforms, DepthWithin, Visits, Headed, ElemAt, VectorSize;
    StoredPlace(b0, off, Offsets(children));
    OffsetsPass(b, front, b0, off, children, false);
    if i < |children| {
      var q := ElemPasses(b, front, b0, off, children, i);
      Accepted(b, front, b0, q, children[i], schema, lim, t, depth, tables);
      ElemsAccepted(b, front, b0, off, children, schema, lim, t, i + 1, depth, tables + Visits(children[i], schema, t));
    }
  }

  // ---------------------------------------------------------------- finished buffers

  lemma IdentifierPasses(b: seq<byte>, root: nat, identifier: Option<seq<byte>>, sizePrefix: bool)
    requires identifier.Some? && |identifier.value| == FILE_IDENTIFIER_LENGTH
    requires IsFinished(b, root, identifier, sizePrefix)
    ensures |b| >= 2 * SIZEOF_UOFFSET
    ensures HasIdentifier(b, if sizePrefix then SIZEOF_UOFFSET else 0, identifier.value) == Some(true)
  {
    IdentifierCompared(b, if sizePrefix then SIZEOF_UOFFSET else 0, identifier.value);
    SameUpToSelf(identifier.value, FILE_IDENTIFIER_LENGTH);
  }

  /** The verifier's verdict on a whole buffer, for either form of Finish. */
  ghost predicate FinishedVerdict(b: seq<byte>, schema: Schema, lim: Limits, t: nat, identifier: Option<seq<byte>>,
                                  sizePrefix: bool)
    requires |b| < MAX_BUFFER_SIZE && SchemaOk(schema) && t < |schema|
    requires identifier.Some? ==> |identifier.value| == FILE_IDENTIFIER_LENGTH
  {
    if sizePrefix then
      PrefixOk(b, lim.checkAlignment)
      && BufferResult(b, schema, lim, t, identifier, SIZEOF_UOFFSET, 0, 0) == Some(true)
    else BufferResult(b, schema, lim, t, identifier, 0, 0, 0) == Some(true)
  }

  lemma RootPasses(b: seq<byte>, root: nat, identifier: Option<seq<byte>>, sizePrefix: bool, check: bool)
    returns (o: nat)
    requires IsFinished(b, root, identifier, sizePrefix) && |b| < MAX_BUFFER_SIZE
    requires 4 <= root && root + (if sizePrefix then 8 else 4) <= |b|
    ensures var start := if sizePrefix then 4 else 0;
            o != 0 && CheckedOffset(b, start, check) == o && start + o == |b| - root
    ensures sizePrefix ==> PrefixOk(b, check)
  {
    hide FromLE;
    var start := if sizePrefix then 4 else 0;
    assert ReadUInt(b, start, 4) == Some(LE(b, start, 4));
    if sizePrefix {
      assert ReadUInt(b, 0, 4) == Some(LE(b, 0, 4));
    }
    o := LE(b, start, 4);
  }

  /**
   * Everything that the builder finishes passes the verifier: `b0` is the buffer before Finish, with the root object
   * stored in it, and the verifier's limits are those of the object.
   */
  lemma FinishedAccepted(b: seq<byte>, b0: seq<byte>, root: nat, o: Obj, identifier: Option<seq<byte>>,
                         sizePrefix: bool,
                         schema: Schema, lim: Limits, t: nat)
    requires Extends(b, b0) && |b0| + (if sizePrefix then 8 else 4) <= |b| < MAX_BUFFER_SIZE && |b| % 4 == 0
    requires Stored(b0, root, o) && IsFinished(b, root, identifier, sizePrefix)
    requires identifier.Some? ==> |identifier.value| == FILE_IDENTIFIER_LENGTH
    requires SchemaOk(schema) && t < |schema| && Conforms(o, schema, t)
    requires DepthWithin(o, schema, t, lim.maxDepth) && Visits(o, schema, t) <= lim.maxTables
    ensures FinishedVerdict(b, schema, lim, t, identifier, sizePrefix)
  {
    hide Stored, Conforms, DepthWithin, Visits, Verdict, HasIdentifier, CheckedOffset, PrefixOk, IsFinished;
    StoredPlace(b0, root, o);
    var front: seq<byte> :| b == front + b0;
    if identifier.Some? {
      IdentifierPasses(b, root, identifier, sizePrefix);
    }
    var u := RootPasses(b, root, identifier, sizePrefix, lim.checkAlignment);
    Accepted(b, front, b0, root, o, schema, lim, t, 0, 0);
  }
}
