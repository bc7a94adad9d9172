/** How many tables a verification visits, and how deep: the limits bound what a reader can be led through. */
module FlatExtent {
  import opened Options
  import opened Bytes
  import opened VectorDownward
  import opened FlatReader
  import opened FlatVerifier
  import opened FlatSafety

  /** Tables met on the way, each as often as it is met, and how many of them are nested in one another. */
  datatype Extent = Extent(tables: nat, depth: nat) {
    ghost function Beside(other: Extent): Extent {
      Extent(tables + other.tables, if depth > other.depth then depth else other.depth)
    }
  }

  const NO_TABLES := Extent(0, 0)

  ghost function TableExtent(b: seq<byte>, schema: Schema, t: nat, pos: nat): Extent
    requires SchemaOk(schema) && t < |schema|
    decreases |b| - pos, 4, 0
  {
    var below := FieldsExtent(b, schema, t, 0, pos);
    Extent(1 + below.tables, 1 + below.depth)
  }

  ghost function FieldsExtent(b: seq<byte>, schema: Schema, t: nat, i: nat, pos: nat): Extent
    requires SchemaOk(schema) && t < |schema| && i <= |schema[t]|
    decreases |b| - pos, 3, |schema[t]| - i
  {
    if i == |schema[t]| then NO_TABLES
    else FieldExtent(b, schema, schema[t][i], pos).Beside(FieldsExtent(b, schema, t, i + 1, pos))
  }

  ghost function FieldExtent(b: seq<byte>, schema: Schema, d: FieldDecl, pos: nat): Extent
    requires SchemaOk(schema) && DeclOk(schema, d)
    decreases |b| - pos, 2, 0
  {
    if d.kind.InlineData? then NO_TABLES
    else
      match GetPointer(b, pos, d.field)
      case Some(Some(q)) => if pos < q < |b| then RefExtent(b, schema, d.kind, pos, q) else NO_TABLES
      case _ => NO_TABLES
  }

  ghost function RefExtent(b: seq<byte>, schema: Schema, k: Kind, pos: nat, q: nat): Extent
    requires SchemaOk(schema) && pos < q < |b| && (k.TableRef? || k.TableVector? ==> k.table < |schema|)
    decreases |b| - pos, 1, 0
  {
    match k
    case TableRef(t) => TableExtent(b, schema, t, q)
    case TableVector(t) => ElemsExtent(b, schema, t, q, 0)
    case _ => NO_TABLES
  }

  ghost function ElemsExtent(b: seq<byte>, schema: Schema, t: nat, vec: nat, i: nat): Extent
    requires SchemaOk(schema) && t < |schema|
    decreases |b| - vec, 0, VectorSize(b, vec).GetOr(0) - i
  {
    if i >= VectorSize(b, vec).GetOr(0) then NO_TABLES
    else
      match VectorGetOffset(b, vec, i)
      case Some(q) =>
        if vec < q <= |b| then TableExtent(b, schema, t, q).Beside(ElemsExtent(b, schema, t, vec, i + 1)) else NO_TABLES
      case None => NO_TABLES
  }

  /** An accepted table: the verdict counts the tables met, and neither they nor their nesting exceed the limits. */
  lemma {:induction false} VerdictCounts(b: seq<byte>, schema: Schema, lim: Limits, t: nat, pos: nat, depth: nat,
                                         tables: nat)
    requires |b| < MAX_BUFFER_SIZE && SchemaOk(schema) && t < |schema|
    requires Verdict(b, schema, lim, t, pos, depth, tables).Some?
    ensures var e := TableExtent(b, schema, t, pos);
            && Verdict(b, schema, lim, t, pos, depth, tables) == Some(tables + e.tables)
            && tables + e.tables <= lim.maxTables && depth + e.depth <= lim.maxDepth
    decreases |b| - pos, 4, 0
  {
    hide FieldVerdict, FieldExtent, TableStartOk;
    FieldsCount(b, schema, lim, t, 0, pos, depth + 1, tables + 1);
  }

  /** Within the limits, if they were so before. */
  ghost predicate Counted(lim: Limits, verdict: Option<nat>, e: Extent, depth: nat, tables: nat) {
    && verdict == Some(tables + e.tables) && (tables <= lim.maxTables ==> tables + e.tables <= lim.maxTables)
    && (depth <= lim.maxDepth ==> depth + e.depth <= lim.maxDepth)
  }

  lemma {:induction false} FieldsCount(b: seq<byte>, schema: Schema, lim: Limits, t: nat, i: nat, pos: nat, depth: nat,
                                       tables: nat)
    requires |b| < MAX_BUFFER_SIZE && SchemaOk(schema) && t < |schema| && i <= |schema[t]|
    requires FieldsVerdict(b, schema, lim, t, i, pos, depth, tables).Some?
    ensures Counted(lim, FieldsVerdict(b, schema, lim, t, i, pos, depth, tables), FieldsExtent(b, schema, t, i, pos),
                    depth, tables)
    decreases |b| - pos, 3, |schema[t]| - i
  {
    hide FieldVerdict, FieldExtent;
    if i < |schema[t]| {
      var n := FieldVerdict(b, schema, lim, schema[t][i], pos, depth, tables);
      FieldCounts(b, schema, lim, schema[t][i], pos, depth, tables);
      FieldsCount(b, schema, lim, t, i + 1, pos, depth, n.value);
    }
  }

  lemma {:induction false} FieldCounts(b: seq<byte>, schema: Schema, lim: Limits, d: FieldDecl, pos: nat, depth: nat,
                                       tables: nat)
    requires |b| < MAX_BUFFER_SIZE && SchemaOk(schema) && DeclOk(schema, d)
    requires FieldVerdict(b, schema, lim, d, pos, depth, tables).Some?
    ensures Counted(lim, FieldVerdict(b, schema, lim, d, pos, depth, tables), FieldExtent(b, schema, d, pos), depth,
                    tables)
    decreases |b| - pos, 2, 0
  {
    hide GetOptionalFieldOffset, CheckedOffset, RefVerdict, RefExtent;
    var fo := GetOptionalFieldOffset(b, pos, d.field).GetOr(0);
    if fo != 0 && !d.kind.InlineData? {
      var o := CheckedOffset(b, pos + fo, lim.checkAlignment);
      OffsetSound(b, pos + fo, lim.checkAlignment);
      RefCounts(b, schema, lim, d.kind, pos, pos + fo + o, depth, tables);
    }
  }

  lemma {:induction false} RefCounts(b: seq<byte>, schema: Schema, lim: Limits, k: Kind, pos: nat, q: nat, depth: nat,
                                     tables: nat)
    requires |b| < MAX_BUFFER_SIZE && SchemaOk(schema) && pos < q < |b|
    requires (k.ScalarVector? ==> IsAlignment(k.size)) && (k.TableRef? || k.TableVector? ==> k.table < |schema|)
    requires RefVerdict(b, schema, lim, k, pos, q, depth, tables).Some?
    ensures Counted(lim, RefVerdict(b, schema, lim, k, pos, q, depth, tables), RefExtent(b, schema, k, pos, q), depth,
                    tables)
    decreases |b| - pos, 1, 0
  {
    hide VectorEnd, StringOk, StringsOk, TableExtent, Verdict, ElemsVerdict, ElemsExtent;
    match k {
      case TableRef(t) => VerdictCounts(b, schema, lim, t, q, depth, tables);
      case TableVector(t) => ElemsCount(b, schema, lim, t, q, 0, depth, tables);
      case _ =>
    }
  }

  lemma {:induction false} ElemsCount(b: seq<byte>, schema: Schema, lim: Limits, t: nat, vec: nat, i: nat, depth: nat,
                                      tables: nat)
    requires |b| < MAX_BUFFER_SIZE && SchemaOk(schema) && t < |schema|
    requires ElemsVerdict(b, schema, lim, t, vec, i, depth, tables).Some?
    ensures Counted(lim, ElemsVerdict(b, schema, lim, t, vec, i, depth, tables), ElemsExtent(b, schema, t, vec, i),
                    depth, tables)
    decreases |b| - vec, 0, VectorSize(b, vec).GetOr(0) - i
  {
    hide TableExtent, VectorSize, VectorGetOffset, Verdict;
    if i < VectorSize(b, vec).GetOr(0) {
      var q := ElemAt(b, vec, i).value;
      VerdictCounts(b, schema, lim, t, q, depth, tables);
      ElemsCount(b, schema, lim, t, vec, i + 1, depth, Verdict(b, schema, lim, t, q, depth, tables).value);
    }
  }
}
