/**
 * The newer table layer: the transaction bracket that returns the block's result,
 * `require`, sort orders, and a table's columns. A table flattens its schema into
 * columns: every struct-typed field must be described by a relation, an embedded
 * relation contributes its optional field-set column and then its nested columns,
 * and every relation must be consumed. The cached index and name maps, the property
 * delegates and the two commit passes over a record's column values are built on
 * those columns.
 */
module Sql {
  import opened Wrappers
  import opened Struct
  import Library

  /** The exceptions this layer throws, with what they carry. */
  datatype SqlError =
    | NoSuchRecord(id: Value)           // `require`: NoSuchElementException
    | PkNotSimple(field: FieldDef)      // the table constructor: IllegalArgumentException
    | BlankName(column: Lens)           // `CheckNamesList.add`: IllegalStateException
    | DuplicateName(name: string)       // `CheckNamesList.add`: IllegalStateException
    | MissingRelation(path: Lens)       // `embed`: NoSuchElementException
    | NotImplemented(path: Lens)        // `embed`: the `TODO()` relation kinds
    | DuplicateDelegate(path: Lens)     // `embed`: IllegalStateException
    | UnconsumedRelations(paths: set<Lens>)  // `_columns`: RuntimeException
    | NotMutable(column: Lens)          // the commit passes: AssertionError
    | OutOfBounds(index: nat)           // an array index past the end

  // ---------------------------------------------------------------------------
  // withTransaction and require

  /** The calls made and how `withTransaction` ended: the block's result, an exception, or an early exit. */
  datatype TxResult<R, E> = TxResult(trace: seq<Library.TxCall>, result: Library.Exit<R, E>)

  /**
   * `withTransaction`: begin outside the `try`, run the block, mark the transaction
   * successful if the block returned, close it in a `finally`, and return the block's
   * result. A throwing `beginTransaction` closes nothing; a non-local `return` from the
   * inline block skips `setSuccessful` but not `close`; an exception from `close`
   * replaces any earlier exit, as in a JVM `finally`.
   */
  function WithTransaction<R, E>(begin: Outcome<E>, block: Library.Exit<R, E>, setSuccessful: Outcome<E>, close: Outcome<E>): (run: TxResult<R, E>)
    ensures |run.trace| >= 1 && run.trace[0] == Library.BeginTransaction
    ensures begin.Fail? ==> run.trace == [Library.BeginTransaction] && run.result == Library.Throws(begin.error)
    ensures Library.Close in run.trace <==> begin.Pass?
    ensures begin.Pass? ==> |run.trace| >= 3 && run.trace[1] == Library.RunBlock && run.trace[|run.trace| - 1] == Library.Close
    ensures forall i :: 0 <= i < |run.trace| - 1 ==> run.trace[i] != Library.Close
    ensures Library.SetSuccessful in run.trace <==> begin.Pass? && block.Returns?
    ensures run.result.Returns? <==> begin.Pass? && block.Returns? && setSuccessful.Pass? && close.Pass?
    ensures run.result.Returns? ==> run.result == block
    ensures run.result.ExitsEarly? <==> begin.Pass? && block.ExitsEarly? && close.Pass?
    ensures begin.Pass? && close.Fail? ==> run.result == Library.Throws(close.error)
    ensures begin.Pass? && close.Pass? && block.Throws? ==> run.result == block
  {
    if begin.Fail? then TxResult([Library.BeginTransaction], Library.Throws(begin.error))
    else
      var body := if block.Returns? then [Library.RunBlock, Library.SetSuccessful] else [Library.RunBlock];
      var bodyResult := if !block.Returns? then block
                        else if setSuccessful.Fail? then Library.Throws(setSuccessful.error)
                        else block;
      TxResult([Library.BeginTransaction] + body + [Library.Close],
               if close.Fail? then Library.Throws(close.error) else bodyResult)
  }

  /** `require`: the record `find` returned, or `NoSuchElementException` for the id. */
  function Require<Rec>(found: Option<Rec>, id: Value): (r: Result<Rec, SqlError>)
    ensures r.Success? <==> found.Some?
    ensures r.Success? ==> r.value == found.value
    ensures r.Failure? ==> r.error == NoSuchRecord(id)
  {
    if found.Some? then Success(found.value) else Failure(NoSuchRecord(id))
  }

  // ---------------------------------------------------------------------------
  // Order

  /** A field definition as an object: orders compare their columns by identity. */
  class FieldRef {
    const def: FieldDef

    constructor (def: FieldDef)
      ensures this.def == def
    {
      this.def := def;
    }
  }

  /** A sort order: a column and a direction. */
  class Order {
    const col: FieldRef
    const desc: bool

    constructor (col: FieldRef, desc: bool)
      ensures this.col == col && this.desc == desc
    {
      this.col := col;
      this.desc := desc;
    }

    /** `hashCode`: bit 8 for a descending order, or-ed with the column's ordinal. */
    function HashCode(): (h: nat)
      ensures !desc ==> h == col.def.ordinal
      ensures desc && col.def.ordinal < 0x100 ==> h == 0x100 + col.def.ordinal
    {
      assert desc && col.def.ordinal < Pow2(8) ==> BitOr(0x100, col.def.ordinal) == Pow2(8) + col.def.ordinal by {
        if desc && col.def.ordinal < Pow2(8) {
          OrHighBit(8, col.def.ordinal);
        }
      }
      BitOr(if desc then 0x100 else 0, col.def.ordinal)
    }

    /** `equals`: the same order, or an order on the same column object in the same direction. */
    predicate Equals(other: Order?): (equal: bool)
      ensures other == this ==> equal
      ensures equal <==> other != null && other.col == col && other.desc == desc
    {
      other == this || (other != null && other.col == col && other.desc == desc)
    }
  }

  /** `asc`. */
  method Asc(field: FieldRef) returns (o: Order)
    ensures fresh(o) && o.col == field && !o.desc
  {
    o := new Order(field, false);
  }

  /** `desc`. */
  method Desc(field: FieldRef) returns (o: Order)
    ensures fresh(o) && o.col == field && o.desc
  {
    o := new Order(field, true);
  }

  /** `equals` is an equivalence relation. */
  lemma OrderEqualsIsEquivalence(a: Order, b: Order, c: Order)
    ensures a.Equals(a)
    ensures a.Equals(b) <==> b.Equals(a)
    ensures a.Equals(b) && b.Equals(c) ==> a.Equals(c)
  {
  }

  /** Kotlin's `or` on non-negative `Int`s, bit by bit from the lowest. */
  function BitOr(a: nat, b: nat): nat
    decreases a + b
  {
    if a == 0 then b
    else if b == 0 then a
    else 2 * BitOr(a / 2, b / 2) + (if a % 2 == 1 || b % 2 == 1 then 1 else 0)
  }

  /** Or-ing a power of two with a smaller number adds them. */
  lemma {:induction false} OrHighBit(k: nat, n: nat)
    requires n < Pow2(k)
    ensures BitOr(Pow2(k), n) == Pow2(k) + n
  {
    if k > 0 && n > 0 {
      OrHighBit(k - 1, n / 2);
    }
  }

  /**
   * An ordinal is a byte, below 128 for a schema's fields, so the hash is the ordinal
   * plus 256 for a descending order.
   */
  lemma HashIsOrdinalAndDirection(o: Order)
    requires o.col.def.ordinal < 128
    ensures o.HashCode() == (if o.desc then 256 else 0) + o.col.def.ordinal
  {
    if o.desc {
      OrHighBit(8, o.col.def.ordinal);
    }
  }

  /** Equal orders hash equally, as `hashCode` must agree with `equals`. */
  lemma EqualOrdersHashEqually(a: Order, b: Order)
    requires a.Equals(b)
    ensures a.HashCode() == b.HashCode()
  {
  }

  /**
   * The hash determines the direction and the ordinal; only orders on columns of
   * different schemas with the same ordinal can collide.
   */
  lemma HashDeterminesOrdinalAndDirection(a: Order, b: Order)
    requires a.col.def.ordinal < 128 && b.col.def.ordinal < 128
    requires a.HashCode() == b.HashCode()
    ensures a.desc == b.desc && a.col.def.ordinal == b.col.def.ordinal
  {
    HashIsOrdinalAndDirection(a);
    HashIsOrdinalAndDirection(b);
  }

  // ---------------------------------------------------------------------------
  // Columns and their names

  /** One step of a column's path: a field, or the field-set column of an embedded struct. */
  datatype Step = FieldStep(field: FieldDef) | FieldSetStep(columnName: string)

  /**
   * A column: `PkLens`, the synthetic primary-key column, or a path of steps from the
   * table's struct, named by the naming conventions along the path. A one-step path
   * is the field definition itself; a longer one is a telescope.
   */
  datatype Lens = PkLens(name: string) | PathLens(name: string, steps: seq<Step>)

  function Steps(l: Lens): seq<Step> {
    if l.PathLens? then l.steps else []
  }

  /**
   * Kotlin's `isWhitespace` on the JVM: the control characters 9-13 and 28-31, and
   * the Unicode space, line and paragraph separators.
   */
  predicate IsWhitespace(c: char) {
    || ('\U{9}' <= c <= '\U{D}') || ('\U{1C}' <= c <= '\U{20}')
    || c == '\U{A0}' || c == '\U{1680}' || ('\U{2000}' <= c <= '\U{200A}')
    || c == '\U{2028}' || c == '\U{2029}' || c == '\U{202F}' || c == '\U{205F}' || c == '\U{3000}'
  }

  /** `isBlank`: empty, or whitespace only. */
  predicate Blank(s: string) {
    forall i :: 0 <= i < |s| ==> IsWhitespace(s[i])
  }

  function NamesOf(columns: seq<Lens>): set<string> {
    set c | c in columns :: c.name
  }

  /** No column's name repeats the name of a column before it. */
  predicate NamesDistinct(columns: seq<Lens>) {
    || |columns| == 0
    || (&& NamesDistinct(columns[..|columns| - 1])
        && columns[|columns| - 1].name !in NamesOf(columns[..|columns| - 1]))
  }

  /** Distinct names, pair by pair, and therefore distinct columns. */
  lemma {:induction false} DistinctNamesDistinctColumns(columns: seq<Lens>)
    requires NamesDistinct(columns)
    ensures forall i, j :: 0 <= i < j < |columns| ==> columns[i].name != columns[j].name
    ensures Distinct(columns)
  {
    if |columns| > 0 {
      var init := columns[..|columns| - 1];
      DistinctNamesDistinctColumns(init);
      forall i | 0 <= i < |init|
        ensures columns[i].name != columns[|columns| - 1].name
      {
        assert columns[i] == init[i] && init[i] in init;
      }
    }
  }

  /** `CheckNamesList.add` on the list's contents: a blank or repeated name is rejected. */
  function Append(columns: seq<Lens>, column: Lens): (r: Result<seq<Lens>, SqlError>)
    ensures r.Success? <==> !Blank(column.name) && column.name !in NamesOf(columns)
    ensures r.Success? ==> r.value == columns + [column]
    ensures r.Success? && NamesDistinct(columns) ==> NamesDistinct(r.value)
    ensures Blank(column.name) ==> r == Failure(BlankName(column))
    ensures !Blank(column.name) && column.name in NamesOf(columns) ==> r == Failure(DuplicateName(column.name))
  {
    if Blank(column.name) then Failure(BlankName(column))
    else if column.name in NamesOf(columns) then Failure(DuplicateName(column.name))
    else
      assert (columns + [column])[..|columns|] == columns;
      Success(columns + [column])
  }

  /** `CheckNamesList`: the column list and the set of names it has accepted. */
  class CheckNamesList {
    var elements: seq<Lens>
    var names: set<string>

    ghost predicate Valid()
      reads this
    {
      names == NamesOf(elements)
    }

    constructor ()
      ensures Valid() && elements == []
    {
      elements := [];
      names := {};
    }

    /** `add`: a name that is blank or already present throws and leaves the list unchanged. */
    method Add(column: Lens) returns (r: Outcome<SqlError>)
      requires Valid()
      modifies this
      ensures Valid()
      ensures r.Pass? <==> Append(old(elements), column).Success?
      ensures r.Pass? ==> elements == Append(old(elements), column).value
      ensures r.Fail? ==> Append(old(elements), column) == Failure(r.error) && unchanged(this)
    {
      if Blank(column.name) {
        return Fail(BlankName(column));
      }
      if column.name in names {
        return Fail(DuplicateName(column.name));
      }
      names := names + {column.name};
      elements := elements + [column];
      r := Pass;
    }
  }

  // ---------------------------------------------------------------------------
  // Flattening a schema into columns

  /** A `NamingConvention`: how a nested column's name is made from its prefix's and its own. */
  type Naming = (string, string) -> string

  /** Where `embed` works: on the table's own schema, or under the path of an embedded struct. */
  datatype Context = TopLevel | Nested(naming: Naming, prefix: Lens)

  /** The column of `field`: the field itself at the top level, the concatenated lens below it. */
  function PathOf(ctx: Context, field: FieldDef): (l: Lens)
    ensures l.PathLens? && |l.steps| >= 1 && l.steps[|l.steps| - 1] == FieldStep(field)
    ensures ctx.TopLevel? ==> l == PathLens(field.name, [FieldStep(field)])
  {
    match ctx
    case TopLevel => PathLens(field.name, [FieldStep(field)])
    case Nested(naming, prefix) => PathLens(naming(prefix.name, field.name), Steps(prefix) + [FieldStep(field)])
  }

  /** The field-set column of an embedded struct, under the struct's path. */
  function FieldSetLens(naming: Naming, path: Lens, columnName: string): Lens {
    PathLens(naming(path.name, columnName), Steps(path) + [FieldSetStep(columnName)])
  }

  /** The lenses `embed` returns for a nested schema: each field's path, in field order. */
  function FieldPaths(ctx: Context, fields: seq<FieldDef>): (r: seq<Lens>)
    ensures |r| == |fields| && forall i :: 0 <= i < |fields| ==> r[i] == PathOf(ctx, fields[i])
  {
    if |fields| == 0 then [] else FieldPaths(ctx, fields[..|fields| - 1]) + [PathOf(ctx, fields[|fields| - 1])]
  }

  /** A declared relation, keyed by its path. Only `Embedded` is implemented. */
  datatype Relation =
    | Embedded(path: Lens, naming: Naming, fieldSetColName: Option<string>)
    | ToOne(path: Lens)
    | ToMany(path: Lens)
    | ManyToMany(path: Lens)

  /** A property delegate: `Simple`, or the one an embedded struct's path is read through. */
  datatype Delegate =
    | Simple
    | EmbeddedDelegate(schema: Schema, nestedLenses: seq<Lens>, columns: seq<Lens>, fieldSetColumn: Option<Lens>)

  /** `relations().associateByTo(map, path)`: a later relation on the same path replaces an earlier one. */
  function RelationMap(relations: seq<Relation>): (m: map<Lens, Relation>)
    ensures forall p :: p in m <==> exists i :: 0 <= i < |relations| && relations[i].path == p
    ensures forall i :: 0 <= i < |relations| ==> relations[i].path in m
  {
    if |relations| == 0 then map[]
    else
      var last := relations[|relations| - 1];
      var m := RelationMap(relations[..|relations| - 1])[last.path := last];
      assert forall i :: 0 <= i < |relations| - 1 ==> relations[..|relations| - 1][i] == relations[i];
      m
  }

  /** What `embed` works on: the relations not yet consumed, the column list and the delegates. */
  datatype Acc = Acc(rels: map<Lens, Relation>, columns: seq<Lens>, delegates: map<Lens, Delegate>)

  /**
   * How flattening can change its state: columns are only appended, relations only
   * consumed, and delegates only added, each for a relation consumed meanwhile.
   */
  ghost predicate Grows(a: Acc, b: Acc) {
    && a.columns <= b.columns
    && b.rels.Keys <= a.rels.Keys
    && a.delegates.Keys <= b.delegates.Keys
    && b.delegates.Keys - a.delegates.Keys <= a.rels.Keys - b.rels.Keys
  }

  lemma GrowsTransitive(a: Acc, b: Acc, c: Acc)
    requires Grows(a, b) && Grows(b, c)
    ensures Grows(a, c)
  {
    forall p | p in c.delegates.Keys - a.delegates.Keys
      ensures p in a.rels.Keys - c.rels.Keys
    {
      if p in b.delegates.Keys {
        assert p in a.rels.Keys - b.rels.Keys;
      } else {
        assert p in b.rels.Keys - c.rels.Keys;
      }
    }
  }

  /** A struct-typed field: `Partial`, or nullable `Partial`. */
  predicate IsStructTyped(t: DataType) {
    t.Partial? || (t.Nullable? && t.actualType.Partial?)
  }

  /** `outColumns.add` on the state. */
  function AddTo(acc: Acc, column: Lens): (r: Result<Acc, SqlError>)
    ensures r.Success? ==> Grows(acc, r.value) && r.value == acc.(columns := acc.columns + [column])
    ensures r.Failure? ==> Append(acc.columns, column) == Failure(r.error)
  {
    var added := Append(acc.columns, column);
    if added.Failure? then Failure(added.error) else Success(acc.(columns := added.value))
  }

  /** `embed` on the first `k` fields of `schema`. */
  function EmbedFields(acc: Acc, schema: Schema, ctx: Context, k: nat): (r: Result<Acc, SqlError>)
    requires k <= |schema.fields|
    ensures r.Success? ==> Grows(acc, r.value)
    decreases schema, k, 2
  {
    if k == 0 then Success(acc)
    else
      var before := EmbedFields(acc, schema, ctx, k - 1);
      if before.Failure? then before
      else
        var r := EmbedField(before.value, schema, ctx, k - 1);
        if r.Success? then GrowsTransitive(acc, before.value, r.value); r
        else r
  }

  /** One iteration of `embed`'s loop: a field that is not struct-typed adds its path as a column. */
  function EmbedField(acc: Acc, schema: Schema, ctx: Context, i: nat): (r: Result<Acc, SqlError>)
    requires i < |schema.fields|
    ensures r.Success? ==> Grows(acc, r.value)
    decreases schema, i, 1
  {
    if IsStructTyped(schema.fields[i].fieldType) then EmbedStruct(acc, schema, ctx, i)
    else AddTo(acc, PathOf(ctx, schema.fields[i]))
  }

  /**
   * The struct-typed branch of `embed`'s loop. It removes the field's relation, which
   * must exist and be `Embedded`, adds the optional field-set column, embeds the nested
   * schema under the field's path and records the embedded delegate for the path.
   */
  function EmbedStruct(acc: Acc, schema: Schema, ctx: Context, i: nat): (r: Result<Acc, SqlError>)
    requires i < |schema.fields| && IsStructTyped(schema.fields[i].fieldType)
    ensures r.Success? ==> Grows(acc, r.value)
    decreases schema, i, 0
  {
    var path := PathOf(ctx, schema.fields[i]);
    var t := schema.fields[i].fieldType;
    if path !in acc.rels then Failure(MissingRelation(path))
    else
      var relSchema := if t.Partial? then t.schema else t.actualType.schema;
      var rel := acc.rels[path];
      var a1 := acc.(rels := acc.rels - {path});
      if !rel.Embedded? then Failure(NotImplemented(path))
      else
        var fieldSetCol := if rel.fieldSetColName.Some? then Some(FieldSetLens(rel.naming, path, rel.fieldSetColName.value)) else None;
        var a2 := if fieldSetCol.Some? then AddTo(a1, fieldSetCol.value) else Success(a1);
        if a2.Failure? then a2
        else
          var a3 := EmbedFields(a2.value, relSchema, Nested(rel.naming, path), |relSchema.fields|);
          if a3.Failure? then a3
          else if path in a3.value.delegates then Failure(DuplicateDelegate(path))
          else
            var nestedCols := a3.value.columns[|acc.columns|..];
            var delegate := EmbeddedDelegate(relSchema, FieldPaths(Nested(rel.naming, path), relSchema.fields), nestedCols, fieldSetCol);
            var a4 := a3.value.(delegates := a3.value.delegates[path := delegate]);
            GrowsTransitive(a1, a2.value, a3.value);
            assert Grows(acc, a1);
            GrowsTransitive(acc, a1, a3.value);
            Success(a4)
  }

  /** Every column `embed` adds passed `CheckNamesList.add`, so names stay distinct. */
  lemma {:induction false} EmbedFieldsKeepNamesDistinct(acc: Acc, schema: Schema, ctx: Context, k: nat)
    requires k <= |schema.fields|
    requires NamesDistinct(acc.columns) && EmbedFields(acc, schema, ctx, k).Success?
    ensures NamesDistinct(EmbedFields(acc, schema, ctx, k).value.columns)
    decreases schema, k, 2
  {
    if k > 0 {
      EmbedFieldsKeepNamesDistinct(acc, schema, ctx, k - 1);
      EmbedFieldKeepsNamesDistinct(EmbedFields(acc, schema, ctx, k - 1).value, schema, ctx, k - 1);
    }
  }

  lemma {:induction false} EmbedFieldKeepsNamesDistinct(acc: Acc, schema: Schema, ctx: Context, i: nat)
    requires i < |schema.fields|
    requires NamesDistinct(acc.columns) && EmbedField(acc, schema, ctx, i).Success?
    ensures NamesDistinct(EmbedField(acc, schema, ctx, i).value.columns)
    decreases schema, i, 1
  {
    if IsStructTyped(schema.fields[i].fieldType) {
      EmbedStructKeepsNamesDistinct(acc, schema, ctx, i);
    }
  }

  lemma {:induction false} EmbedStructKeepsNamesDistinct(acc: Acc, schema: Schema, ctx: Context, i: nat)
    requires i < |schema.fields| && IsStructTyped(schema.fields[i].fieldType)
    requires NamesDistinct(acc.columns) && EmbedStruct(acc, schema, ctx, i).Success?
    ensures NamesDistinct(EmbedStruct(acc, schema, ctx, i).value.columns)
    decreases schema, i, 0
  {
    var path := PathOf(ctx, schema.fields[i]);
    var t := schema.fields[i].fieldType;
    var relSchema := if t.Partial? then t.schema else t.actualType.schema;
    var rel := acc.rels[path];
    var a1 := acc.(rels := acc.rels - {path});
    var fieldSetCol := if rel.fieldSetColName.Some? then Some(FieldSetLens(rel.naming, path, rel.fieldSetColName.value)) else None;
    var a2 := if fieldSetCol.Some? then AddTo(a1, fieldSetCol.value) else Success(a1);
    EmbedFieldsKeepNamesDistinct(a2.value, relSchema, Nested(rel.naming, path), |relSchema.fields|);
  }

  /** The loop of `embed` unrolled once at its end. */
  lemma EmbedFieldsSnoc(acc: Acc, schema: Schema, ctx: Context, k: nat)
    requires k < |schema.fields| && EmbedFields(acc, schema, ctx, k).Success?
    ensures EmbedFields(acc, schema, ctx, k + 1) == EmbedField(EmbedFields(acc, schema, ctx, k).value, schema, ctx, k)
  {
  }

  /** Once a field fails, embedding more fields fails with the same exception. */
  lemma {:induction false} FailurePersists(acc: Acc, schema: Schema, ctx: Context, k: nat, n: nat)
    requires k <= n <= |schema.fields|
    requires EmbedFields(acc, schema, ctx, k).Failure?
    ensures EmbedFields(acc, schema, ctx, n) == EmbedFields(acc, schema, ctx, k)
    decreases n
  {
    if n > k {
      FailurePersists(acc, schema, ctx, k, n - 1);
    }
  }

  /** The state `_columns` threads through `embed`: the relation map, the checked column list and the delegates. */
  class Flattening {
    var rels: map<Lens, Relation>
    var delegates: map<Lens, Delegate>
    const columns: CheckNamesList

    ghost predicate Valid()
      reads this, columns
    {
      columns.Valid()
    }

    ghost function State(): Acc
      reads this, columns
    {
      Acc(rels, columns.elements, delegates)
    }

    constructor (rels: map<Lens, Relation>)
      ensures Valid() && State() == Acc(rels, [], map[]) && fresh(columns)
    {
      this.rels := rels;
      delegates := map[];
      columns := new CheckNamesList();
    }

    /**
     * `embed`: flattens `schema` in the given context, exactly as `EmbedFields`
     * describes, and returns the fields' paths for a nested schema (`null` at the top).
     */
    method Embed(schema: Schema, ctx: Context) returns (r: Result<Option<seq<Lens>>, SqlError>)
      requires Valid()
      modifies this, columns
      ensures Valid()
      ensures var spec := EmbedFields(old(State()), schema, ctx, |schema.fields|);
              && (r.Success? <==> spec.Success?)
              && (r.Success? ==> State() == spec.value)
              && (r.Success? ==> r.value == if ctx.TopLevel? then None else Some(FieldPaths(ctx, schema.fields)))
              && (r.Failure? ==> spec == Failure(r.error))
      decreases schema, 3
    {
      ghost var start := State();
      var outLenses: seq<Lens> := [];
      var i := 0;
      while i < |schema.fields|
        invariant 0 <= i <= |schema.fields|
        invariant Valid()
        invariant EmbedFields(start, schema, ctx, i) == Success(State())
        invariant outLenses == FieldPaths(ctx, schema.fields[..i])
      {
        var path := EmbedNext(schema, ctx, i, start);
        if path.Failure? {
          return Failure(path.error);
        }
        outLenses := outLenses + [path.value];
        i := i + 1;
      }
      assert schema.fields[..i] == schema.fields;
      r := Success(if ctx.TopLevel? then None else Some(outLenses));
    }

    /** One round of `embed`'s loop, tied to the fields embedded before it. */
    method EmbedNext(schema: Schema, ctx: Context, i: nat, ghost start: Acc) returns (r: Result<Lens, SqlError>)
      requires Valid() && i < |schema.fields| && EmbedFields(start, schema, ctx, i) == Success(State())
      modifies this, columns
      ensures Valid()
      ensures r.Success? ==> EmbedFields(start, schema, ctx, i + 1) == Success(State()) && r.value == PathOf(ctx, schema.fields[i])
      ensures FieldPaths(ctx, schema.fields[..i + 1]) == FieldPaths(ctx, schema.fields[..i]) + [PathOf(ctx, schema.fields[i])]
      ensures r.Failure? ==> EmbedFields(start, schema, ctx, |schema.fields|) == Failure(r.error)
      decreases schema, 2
    {
      EmbedFieldsSnoc(start, schema, ctx, i);
      r := EmbedOne(schema, ctx, i);
      if r.Failure? {
        FailurePersists(start, schema, ctx, i + 1, |schema.fields|);
      }
      FieldPathsSnoc(ctx, schema.fields, i + 1);
    }

    /** One iteration of `embed`'s loop, as `EmbedField` describes; returns the field's path. */
    method EmbedOne(schema: Schema, ctx: Context, i: nat) returns (r: Result<Lens, SqlError>)
      requires Valid() && i < |schema.fields|
      modifies this, columns
      ensures Valid()
      ensures var spec := EmbedField(old(State()), schema, ctx, i);
              && (r.Success? <==> spec.Success?)
              && (r.Success? ==> State() == spec.value && r.value == PathOf(ctx, schema.fields[i]))
              && (r.Failure? ==> spec == Failure(r.error))
      decreases schema, 1
    {
      var field := schema.fields[i];
      var path := PathOf(ctx, field);
      if IsStructTyped(field.fieldType) {
        var embedded := EmbedStructField(schema, ctx, i);
        if embedded.Fail? {
          return Failure(embedded.error);
        }
      } else {
        var added := columns.Add(path);
        if added.Fail? {
          return Failure(added.error);
        }
      }
      r := Success(path);
    }

    /** The struct-typed branch of `embed`'s loop. */
    method EmbedStructField(schema: Schema, ctx: Context, i: nat) returns (r: Outcome<SqlError>)
      requires Valid() && i < |schema.fields| && IsStructTyped(schema.fields[i].fieldType)
      modifies this, columns
      ensures Valid()
      ensures var spec := EmbedStruct(old(State()), schema, ctx, i);
              && (r.Pass? <==> spec.Success?)
              && (r.Pass? ==> State() == spec.value)
              && (r.Fail? ==> spec == Failure(r.error))
      decreases schema, 0
    {
      var path := PathOf(ctx, schema.fields[i]);
      var t := schema.fields[i].fieldType;
      var relSchema := if t.Partial? then t.schema else t.actualType.schema;
      if path !in rels {
        return Fail(MissingRelation(path));
      }
      var rel := rels[path];
      rels := rels - {path};
      if !rel.Embedded? {
        return Fail(NotImplemented(path));
      }
      var startColumn := |columns.elements|;
      var fieldSetCol: Option<Lens> := None;
      if rel.fieldSetColName.Some? {
        var fs := FieldSetLens(rel.naming, path, rel.fieldSetColName.value);
        var added := columns.Add(fs);
        if added.Fail? {
          return Fail(added.error);
        }
        fieldSetCol := Some(fs);
      }
      var nested := Embed(relSchema, Nested(rel.naming, path));
      if nested.Failure? {
        return Fail(nested.error);
      }
      if path in delegates {
        return Fail(DuplicateDelegate(path));
      }
      delegates := delegates[path := EmbeddedDelegate(relSchema, nested.value.value, columns.elements[startColumn..], fieldSetCol)];
      r := Pass;
    }
  }

  // ---------------------------------------------------------------------------
  // What flattening guarantees

  /**
   * `_columns`: the synthetic PK lens first when there is no PK field, then the
   * flattened schema; a relation left unconsumed throws `RuntimeException`.
   */
  function Flatten(schema: Schema, idColName: string, pkField: Option<FieldDef>, relations: seq<Relation>): (r: Result<Acc, SqlError>)
    ensures r.Success? ==> |r.value.rels| == 0
    ensures r.Success? ==> NamesDistinct(r.value.columns)
    ensures r.Success? && pkField.None? ==> |r.value.columns| >= 1 && r.value.columns[0] == PkLens(idColName)
    ensures r.Success? ==> r.value.delegates.Keys <= RelationMap(relations).Keys
  {
    var initial := Acc(RelationMap(relations), [], map[]);
    var start := if pkField.None? then AddTo(initial, PkLens(idColName)) else Success(initial);
    if start.Failure? then start
    else
      var embedded := EmbedFields(start.value, schema, TopLevel, |schema.fields|);
      if embedded.Failure? then embedded
      else if |embedded.value.rels| > 0 then Failure(UnconsumedRelations(embedded.value.rels.Keys))
      else
        assert Grows(start.value, embedded.value);
        assert embedded.value.delegates.Keys <= RelationMap(relations).Keys by {
          forall p | p in embedded.value.delegates ensures p in RelationMap(relations) {
            assert p in embedded.value.delegates.Keys - start.value.delegates.Keys;
          }
        }
        EmbedFieldsKeepNamesDistinct(start.value, schema, TopLevel, |schema.fields|);
        embedded
  }

  /** The body of the `_columns` initializer: the relation map, the PK lens, `embed`, and the check that every relation was consumed. */
  method FlattenTable(schema: Schema, idColName: string, pkField: Option<FieldDef>, relations: seq<Relation>) returns (r: Result<Acc, SqlError>)
    ensures r == Flatten(schema, idColName, pkField, relations)
  {
    var flattening := new Flattening(RelationMap(relations));
    if pkField.None? {
      var added := flattening.columns.Add(PkLens(idColName));
      if added.Fail? {
        return Failure(added.error);
      }
    }
    var embedded := flattening.Embed(schema, TopLevel);
    if embedded.Failure? {
      return Failure(embedded.error);
    }
    if |flattening.rels| > 0 {
      return Failure(UnconsumedRelations(flattening.rels.Keys));
    }
    r := Success(Acc(flattening.rels, flattening.columns.elements, flattening.delegates));
  }

  /** The loop of `embed` unrolled once at its end, on a field that is not struct-typed. */
  lemma PlainFieldStep(acc: Acc, schema: Schema, ctx: Context, k: nat)
    requires 0 < k <= |schema.fields| && !IsStructTyped(schema.fields[k - 1].fieldType)
    requires EmbedFields(acc, schema, ctx, k).Success?
    ensures EmbedFields(acc, schema, ctx, k - 1).Success?
    ensures EmbedFields(acc, schema, ctx, k) == AddTo(EmbedFields(acc, schema, ctx, k - 1).value, PathOf(ctx, schema.fields[k - 1]))
  {
  }

  /** The paths of one more field: one more path at the end. */
  lemma FieldPathsSnoc(ctx: Context, fields: seq<FieldDef>, k: nat)
    requires 0 < k <= |fields|
    ensures FieldPaths(ctx, fields[..k]) == FieldPaths(ctx, fields[..k - 1]) + [PathOf(ctx, fields[k - 1])]
  {
    assert fields[..k][..k - 1] == fields[..k - 1];
  }

  /** The inductive step of `PlainFieldsGiveOneColumnEach`. */
  lemma PlainFieldsStep(acc: Acc, schema: Schema, ctx: Context, k: nat)
    requires 0 < k <= |schema.fields| && !IsStructTyped(schema.fields[k - 1].fieldType)
    requires EmbedFields(acc, schema, ctx, k).Success?
    requires EmbedFields(acc, schema, ctx, k - 1).Success? ==>
               EmbedFields(acc, schema, ctx, k - 1).value == acc.(columns := acc.columns + FieldPaths(ctx, schema.fields[..k - 1]))
    ensures EmbedFields(acc, schema, ctx, k).value == acc.(columns := acc.columns + FieldPaths(ctx, schema.fields[..k]))
  {
    PlainFieldStep(acc, schema, ctx, k);
    FieldPathsSnoc(ctx, schema.fields, k);
    var prefix := FieldPaths(ctx, schema.fields[..k - 1]);
    assert acc.columns + prefix + [PathOf(ctx, schema.fields[k - 1])] == acc.columns + (prefix + [PathOf(ctx, schema.fields[k - 1])]);
  }

  /**
   * Without struct-typed fields, each field contributes exactly its own column, in
   * field order, and neither relations nor delegates change.
   */
  lemma {:induction false} PlainFieldsGiveOneColumnEach(acc: Acc, schema: Schema, ctx: Context, k: nat)
    requires k <= |schema.fields|
    requires forall i :: 0 <= i < k ==> !IsStructTyped(schema.fields[i].fieldType)
    ensures EmbedFields(acc, schema, ctx, k).Success? ==>
              EmbedFields(acc, schema, ctx, k).value == acc.(columns := acc.columns + FieldPaths(ctx, schema.fields[..k]))
  {
    if k > 0 {
      PlainFieldsGiveOneColumnEach(acc, schema, ctx, k - 1);
      if EmbedFields(acc, schema, ctx, k).Success? {
        PlainFieldsStep(acc, schema, ctx, k);
      }
    }
  }

  /** A field that is not struct-typed always lands in the column list. */
  lemma {:induction false} PlainFieldColumnPresent(acc: Acc, schema: Schema, ctx: Context, k: nat, i: nat)
    requires i < k <= |schema.fields|
    requires !IsStructTyped(schema.fields[i].fieldType)
    requires EmbedFields(acc, schema, ctx, k).Success?
    ensures PathOf(ctx, schema.fields[i]) in EmbedFields(acc, schema, ctx, k).value.columns
  {
    if i < k - 1 {
      var before := EmbedFields(acc, schema, ctx, k - 1);
      assert before.Success?;
      PlainFieldColumnPresent(acc, schema, ctx, k - 1, i);
      assert before.value.columns <= EmbedFields(acc, schema, ctx, k).value.columns;
    } else {
      PlainFieldStep(acc, schema, ctx, k);
    }
  }

  /**
   * A struct-typed field needs its relation: a missing one throws
   * `NoSuchElementException`. On success the relation was an embedded one and is
   * consumed, and the path's delegate holds the columns added for the field, the
   * field-set column first when the relation names one.
   */
  lemma StructFieldConsumesItsRelation(acc: Acc, schema: Schema, ctx: Context, i: nat)
    requires i < |schema.fields| && IsStructTyped(schema.fields[i].fieldType)
    ensures var path := PathOf(ctx, schema.fields[i]);
            path !in acc.rels ==> EmbedField(acc, schema, ctx, i) == Failure(MissingRelation(path))
    ensures var path := PathOf(ctx, schema.fields[i]);
            var r := EmbedField(acc, schema, ctx, i);
            r.Success? ==>
              && path in acc.rels && acc.rels[path].Embedded? && path !in r.value.rels
              && path in r.value.delegates && r.value.delegates[path].EmbeddedDelegate?
              && r.value.delegates[path].columns == r.value.columns[|acc.columns|..]
              && (acc.rels[path].fieldSetColName.Some? <==> r.value.delegates[path].fieldSetColumn.Some?)
              && (r.value.delegates[path].fieldSetColumn.Some? ==>
                    |r.value.delegates[path].columns| >= 1 &&
                    r.value.delegates[path].columns[0] == r.value.delegates[path].fieldSetColumn.value)
  {
  }

  /** A table's delegates exist only for declared relations, so every other lens reads as `Simple`. */
  lemma DelegatesOnlyForRelations(schema: Schema, idColName: string, pkField: Option<FieldDef>, relations: seq<Relation>, lens: Lens)
    requires Flatten(schema, idColName, pkField, relations).Success?
    requires forall i :: 0 <= i < |relations| ==> relations[i].path != lens
    ensures lens !in Flatten(schema, idColName, pkField, relations).value.delegates
  {
  }

  // ---------------------------------------------------------------------------
  // The index and name maps

  /** `columnIndices`: each column mapped to its position (the last one, for a repeated column). */
  function IndexMap(columns: seq<Lens>): (m: map<Lens, nat>)
    ensures forall c :: c in m <==> c in columns
    ensures forall c :: c in m ==> m[c] < |columns| && columns[m[c]] == c
    ensures Distinct(columns) ==> forall i :: 0 <= i < |columns| ==> m[columns[i]] == i
  {
    if |columns| == 0 then map[]
    else
      var init := columns[..|columns| - 1];
      assert forall i :: 0 <= i < |init| ==> init[i] == columns[i];
      assert columns == init + [columns[|columns| - 1]];
      IndexMap(init)[columns[|columns| - 1] := |columns| - 1]
  }

  lemma NamesOfSnoc(init: seq<Lens>, last: Lens)
    ensures NamesOf(init + [last]) == NamesOf(init) + {last.name}
  {
    assert forall c :: c in init + [last] <==> c in init || c == last;
  }

  /** `columnsByName`: each name mapped to the column carrying it (the last one, for a repeated name). */
  function NameMap(columns: seq<Lens>): (m: map<string, Lens>)
    ensures m.Keys == NamesOf(columns)
    ensures forall n :: n in m ==> m[n] in columns && m[n].name == n
    ensures NamesDistinct(columns) ==> forall i :: 0 <= i < |columns| ==> m[columns[i].name] == columns[i]
  {
    if |columns| == 0 then map[]
    else
      var init := columns[..|columns| - 1];
      var last := columns[|columns| - 1];
      assert columns == init + [last];
      NamesOfSnoc(init, last);
      var m := NameMap(init)[last.name := last];
      assert forall n :: n in m ==> m[n] in columns by {
        forall n | n in m ensures m[n] in columns {
          if n != last.name {
            assert m[n] in init;
          }
        }
      }
      assert NamesDistinct(columns) ==> forall i :: 0 <= i < |columns| ==> m[columns[i].name] == columns[i] by {
        if NamesDistinct(columns) {
          forall i | 0 <= i < |init| ensures m[columns[i].name] == columns[i] {
            assert init[i] == columns[i] && init[i] in init;
          }
        }
      }
      m
  }

  /** The `forEachIndexed` loop filling `columnIndices`. */
  method IndexColumns(columns: seq<Lens>) returns (m: map<Lens, nat>)
    ensures m == IndexMap(columns)
  {
    m := map[];
    for i := 0 to |columns|
      invariant m == IndexMap(columns[..i])
    {
      assert columns[..i + 1][..i] == columns[..i];
      m := m[columns[i] := i];
    }
    assert columns[..|columns|] == columns;
  }

  /** The `associateByTo` loop filling `columnsByName`. */
  method NameColumns(columns: seq<Lens>) returns (m: map<string, Lens>)
    ensures m == NameMap(columns)
  {
    m := map[];
    for i := 0 to |columns|
      invariant m == NameMap(columns[..i])
    {
      assert columns[..i + 1][..i] == columns[..i];
      m := m[columns[i].name := columns[i]];
    }
    assert columns[..|columns|] == columns;
  }

  /** On a table's columns, the index map inverts the column list and the name map finds each column by its name. */
  lemma ColumnMapsInvert(schema: Schema, idColName: string, pkField: Option<FieldDef>, relations: seq<Relation>)
    requires Flatten(schema, idColName, pkField, relations).Success?
    ensures var columns := Flatten(schema, idColName, pkField, relations).value.columns;
            && (forall i :: 0 <= i < |columns| ==> IndexMap(columns)[columns[i]] == i)
            && (forall i :: 0 <= i < |columns| ==> NameMap(columns)[columns[i].name] == columns[i])
  {
    var columns := Flatten(schema, idColName, pkField, relations).value.columns;
    DistinctNamesDistinctColumns(columns);
  }

  // ---------------------------------------------------------------------------
  // The primary-key column

  /** `pkColumn` as written: the first column, whatever field the primary key is. */
  function PkColumnAsWritten(columns: seq<Lens>): (r: Result<Lens, SqlError>)
    ensures r.Success? <==> |columns| > 0
    ensures r.Success? ==> r.value == columns[0]
    ensures r.Failure? ==> r.error == OutOfBounds(0)
  {
    if |columns| == 0 then Failure(OutOfBounds(0)) else Success(columns[0])
  }

  /** The primary-key column: the synthetic PK lens, or the PK field's own column. */
  function PrimaryKeyColumn(idColName: string, pkField: Option<FieldDef>): (r: Lens)
    ensures pkField.None? ==> r == PkLens(idColName)
    ensures pkField.Some? ==> r.PathLens? && r.steps == [FieldStep(pkField.value)]
  {
    if pkField.None? then PkLens(idColName) else PathOf(TopLevel, pkField.value)
  }

  /**
   * The PK column is one of the table's columns, and it is the first exactly when the
   * primary key is synthetic or is the schema's first field.
   */
  lemma PkColumnIsAColumn(schema: Schema, idColName: string, pkField: Option<FieldDef>, relations: seq<Relation>)
    requires Flatten(schema, idColName, pkField, relations).Success?
    requires pkField.Some? ==> pkField.value in schema.fields && pkField.value.fieldType.Simple?
    ensures PrimaryKeyColumn(idColName, pkField) in Flatten(schema, idColName, pkField, relations).value.columns
    ensures pkField.None? ==> PkColumnAsWritten(Flatten(schema, idColName, pkField, relations).value.columns) == Success(PrimaryKeyColumn(idColName, pkField))
  {
    if pkField.Some? {
      var fields := schema.fields;
      var i :| 0 <= i < |fields| && fields[i] == pkField.value;
      var start := Acc(RelationMap(relations), [], map[]);
      PlainFieldColumnPresent(start, schema, TopLevel, |fields|, i);
    }
  }

  /**
   * With the primary key on the second field, `pkColumn` as written returns the first
   * field's column.
   */
  lemma PkColumnAsWrittenMissesSecondField()
    ensures var title := FieldDef("title", 0, DataType.Simple(Str), true, None);
            var id := FieldDef("id", 1, DataType.Simple(I64), false, None);
            var schema := Schema("Item", [title, id]);
            var columns := Flatten(schema, "id", Some(id), []);
            && columns.Success?
            && columns.value.columns == [PathLens("title", [FieldStep(title)]), PathLens("id", [FieldStep(id)])]
            && PkColumnAsWritten(columns.value.columns) == Success(PathLens("title", [FieldStep(title)]))
            && PrimaryKeyColumn("id", Some(id)) == PathLens("id", [FieldStep(id)])
  {
    var title := FieldDef("title", 0, DataType.Simple(Str), true, None);
    var id := FieldDef("id", 1, DataType.Simple(I64), false, None);
    var schema := Schema("Item", [title, id]);
    var start := Acc(map[], [], map[]);
    var titleCol := PathLens("title", [FieldStep(title)]);
    var idCol := PathLens("id", [FieldStep(id)]);
    assert !Blank("title") by { assert !IsWhitespace("title"[0]); }
    assert !Blank("id") by { assert !IsWhitespace("id"[0]); }
    assert NamesOf([]) == {};
    assert NamesOf([titleCol]) == {"title"} by { NamesOfSnoc([], titleCol); }
    assert AddTo(start, titleCol) == Success(Acc(map[], [titleCol], map[]));
    assert "id" !in NamesOf([titleCol]);
    assert !Blank(idCol.name);
    assert Append([titleCol], idCol).Success?;
    assert [titleCol] + [idCol] == [titleCol, idCol];
    assert Append([titleCol], idCol) == Success([titleCol, idCol]);
    assert AddTo(Acc(map[], [titleCol], map[]), idCol) == Success(Acc(map[], [titleCol, idCol], map[]));
    assert EmbedFields(start, schema, TopLevel, 0) == Success(start);
    assert EmbedFields(start, schema, TopLevel, 1) == Success(Acc(map[], [titleCol], map[]));
    assert EmbedFields(start, schema, TopLevel, 2) == Success(Acc(map[], [titleCol, idCol], map[]));
    assert RelationMap([]) == map[];
  }

  // ---------------------------------------------------------------------------
  // The commit passes

  /** A record's column value during a commit: `Unset`, or a value to write. */
  datatype ColumnValue = UnsetValue | Present(value: Value)

  /** How the commit passes treat a column. */
  datatype ColumnKind =
    | MutableField(field: FieldDef)       // the column is a mutable field of the table's schema
    | MutableTelescope(first: FieldDef)   // a nested column below a mutable struct-typed field
    | NotMutableColumn                    // anything else: `AssertionError`

  /** A one-step path is the field definition itself; a longer one is a telescope whose first lens is its first step. */
  function Classify(col: Lens): ColumnKind {
    if col.PathLens? && |col.steps| >= 1 && col.steps[0].FieldStep? && col.steps[0].field.mutable then
      if |col.steps| == 1 then MutableField(col.steps[0].field) else MutableTelescope(col.steps[0].field)
    else NotMutableColumn
  }

  /**
   * What a pass does to the record's managed properties, returned rather than applied:
   * `swapSilentlyLocked` with the previous value, `commit` of a new value, `refreshLocked`.
   */
  datatype Effect = Swap(field: FieldDef, previous: Value) | Commit(field: FieldDef, value: Value) | Refresh(field: FieldDef)

  /** The scratch set's contents and the effects so far. */
  datatype PassState = PassState(seen: set<FieldDef>, effects: seq<Effect>)

  /** `preCommitValues` on the first `k` columns, starting from the scratch set `seen`. */
  function PreCommitPass(columns: seq<Lens>, values: seq<ColumnValue>, prev: Option<seq<ColumnValue>>, seen: set<FieldDef>, k: nat): (r: Result<PassState, SqlError>)
    requires k <= |columns|
    ensures r.Success? ==> seen <= r.value.seen && k <= |values|
  {
    if k == 0 then Success(PassState(seen, []))
    else
      var before := PreCommitPass(columns, values, prev, seen, k - 1);
      if before.Failure? then before else PreCommitStep(columns, values, prev, before.value, k - 1)
  }

  /**
   * One iteration of `preCommitValues`: an `Unset` slot and a mutable field are skipped;
   * the first lens of a mutable telescope, the first time it is seen, has its previous
   * value swapped back in when there are previous values and its slot there is set.
   */
  function PreCommitStep(columns: seq<Lens>, values: seq<ColumnValue>, prev: Option<seq<ColumnValue>>, st: PassState, i: nat): (r: Result<PassState, SqlError>)
    requires i < |columns|
    ensures r.Success? ==> st.seen <= r.value.seen
  {
    if i >= |values| then Failure(OutOfBounds(i))
    else if values[i].UnsetValue? then Success(st)
    else
      match Classify(columns[i])
      case MutableField(_) => Success(st)
      case MutableTelescope(first) =>
        if first in st.seen then Success(st)
        else if prev.None? then Success(st.(seen := st.seen + {first}))
        else if first.ordinal >= |prev.value| then Failure(OutOfBounds(first.ordinal))
        else if prev.value[first.ordinal].UnsetValue? then Success(st.(seen := st.seen + {first}))
        else Success(PassState(st.seen + {first}, st.effects + [Swap(first, prev.value[first.ordinal].value)]))
      case NotMutableColumn => Failure(NotMutable(columns[i]))
  }

  /** `commitValues` on the first `k` columns, starting from the scratch set `seen`. */
  function CommitPass(columns: seq<Lens>, values: seq<ColumnValue>, seen: set<FieldDef>, k: nat): (r: Result<PassState, SqlError>)
    requires k <= |columns|
    ensures r.Success? ==> seen <= r.value.seen && k <= |values|
  {
    if k == 0 then Success(PassState(seen, []))
    else
      var before := CommitPass(columns, values, seen, k - 1);
      if before.Failure? then before else CommitStep(columns, values, before.value, k - 1)
  }

  /**
   * One iteration of `commitValues`: a mutable field commits its new value; the first
   * lens of a mutable telescope is refreshed the first time it is seen.
   */
  function CommitStep(columns: seq<Lens>, values: seq<ColumnValue>, st: PassState, i: nat): (r: Result<PassState, SqlError>)
    requires i < |columns|
    ensures r.Success? ==> st.seen <= r.value.seen
  {
    if i >= |values| then Failure(OutOfBounds(i))
    else if values[i].UnsetValue? then Success(st)
    else
      match Classify(columns[i])
      case MutableField(field) => Success(st.(effects := st.effects + [Commit(field, values[i].value)]))
      case MutableTelescope(first) =>
        if first in st.seen then Success(st)
        else Success(PassState(st.seen + {first}, st.effects + [Refresh(first)]))
      case NotMutableColumn => Failure(NotMutable(columns[i]))
  }

  /** A column the commit passes cannot write: a set slot on anything but a mutable field or telescope. */
  predicate Writable(columns: seq<Lens>, values: seq<ColumnValue>) {
    && |values| >= |columns|
    && forall i :: 0 <= i < |columns| ==> values[i].Present? ==> !Classify(columns[i]).NotMutableColumn?
  }

  /** The commit pass fails exactly when a slot is missing or a set slot belongs to a column it cannot write. */
  lemma {:induction false} CommitPassSucceedsIff(columns: seq<Lens>, values: seq<ColumnValue>, seen: set<FieldDef>, k: nat)
    requires k <= |columns|
    ensures CommitPass(columns, values, seen, k).Success? <==> Writable(columns[..k], values)
  {
    if k > 0 {
      CommitPassSucceedsIff(columns, values, seen, k - 1);
      assert forall i :: 0 <= i < k - 1 ==> columns[..k][i] == columns[..k - 1][i];
      if CommitPass(columns, values, seen, k - 1).Success? && Writable(columns[..k], values) {
        assert columns[..k][k - 1] == columns[k - 1];
      }
    }
  }

  /**
   * Effect `e` is one that column `col`, with the set value `v`, gives: a commit of its
   * own mutable field with `v`, or a swap or refresh of its telescope's first lens.
   */
  predicate SlotGives(col: Lens, v: Value, e: Effect) {
    match e
    case Commit(f, w) => Classify(col) == MutableField(f) && w == v
    case Swap(f, _) => Classify(col) == MutableTelescope(f)
    case Refresh(f) => Classify(col) == MutableTelescope(f)
  }

  /** Effect `e` comes from a set slot among the first `k` columns. */
  predicate FromSetSlot(columns: seq<Lens>, values: seq<ColumnValue>, k: nat, e: Effect)
    requires k <= |columns| && k <= |values|
  {
    exists i :: 0 <= i < k && values[i].Present? && SlotGives(columns[i], values[i].value, e)
  }

  /** Every effect comes from a set slot among the first `k` columns, so an `Unset` slot gives none. */
  predicate FromSetSlots(columns: seq<Lens>, values: seq<ColumnValue>, k: nat, effects: seq<Effect>)
    requires k <= |columns| && k <= |values|
  {
    forall j :: 0 <= j < |effects| ==> FromSetSlot(columns, values, k, effects[j])
  }

  /** Appending effects of the set slot `k` keeps every effect tied to a set slot. */
  lemma FromSetSlotsExtend(columns: seq<Lens>, values: seq<ColumnValue>, k: nat, before: seq<Effect>, extra: seq<Effect>)
    requires k < |columns| && k < |values|
    requires FromSetSlots(columns, values, k, before)
    requires forall e :: e in extra ==> values[k].Present? && SlotGives(columns[k], values[k].value, e)
    ensures FromSetSlots(columns, values, k + 1, before + extra)
  {
    var after := before + extra;
    forall j | 0 <= j < |after|
      ensures FromSetSlot(columns, values, k + 1, after[j])
    {
      if j < |before| {
        assert after[j] == before[j];
        assert FromSetSlot(columns, values, k, before[j]);
        var i :| 0 <= i < k && values[i].Present? && SlotGives(columns[i], values[i].value, before[j]);
        assert 0 <= i < k + 1 && values[i].Present? && SlotGives(columns[i], values[i].value, after[j]);
      } else {
        assert after[j] == extra[j - |before|];
        assert extra[j - |before|] in extra;
        assert 0 <= k < k + 1 && values[k].Present? && SlotGives(columns[k], values[k].value, after[j]);
      }
    }
  }

  /** One commit iteration adds effects only for a set slot, and only that slot's own. */
  lemma CommitStepFromSlot(columns: seq<Lens>, values: seq<ColumnValue>, st: PassState, i: nat)
    requires i < |columns|
    requires CommitStep(columns, values, st, i).Success?
    ensures var after := CommitStep(columns, values, st, i).value.effects;
            && st.effects <= after
            && forall e :: e in after[|st.effects|..] ==> values[i].Present? && SlotGives(columns[i], values[i].value, e)
  {
  }

  /** One pre-commit iteration adds effects only for a set slot, and only that slot's own. */
  lemma PreCommitStepFromSlot(columns: seq<Lens>, values: seq<ColumnValue>, prev: Option<seq<ColumnValue>>, st: PassState, i: nat)
    requires i < |columns|
    requires PreCommitStep(columns, values, prev, st, i).Success?
    ensures var after := PreCommitStep(columns, values, prev, st, i).value.effects;
            && st.effects <= after
            && forall e :: e in after[|st.effects|..] ==> values[i].Present? && SlotGives(columns[i], values[i].value, e)
  {
  }

  /** Every effect of `commitValues` comes from a set slot of its own column. */
  lemma {:induction false} CommitEffectsFromSetSlots(columns: seq<Lens>, values: seq<ColumnValue>, seen: set<FieldDef>, k: nat)
    requires k <= |columns|
    requires CommitPass(columns, values, seen, k).Success?
    ensures FromSetSlots(columns, values, k, CommitPass(columns, values, seen, k).value.effects)
  {
    if k > 0 {
      var before := CommitPass(columns, values, seen, k - 1).value;
      CommitEffectsFromSetSlots(columns, values, seen, k - 1);
      var after := CommitPass(columns, values, seen, k).value;
      assert after == CommitStep(columns, values, before, k - 1).value;
      CommitStepFromSlot(columns, values, before, k - 1);
      var extra := after.effects[|before.effects|..];
      assert after.effects == before.effects + extra;
      FromSetSlotsExtend(columns, values, k - 1, before.effects, extra);
    }
  }

  /** Every effect of `preCommitValues` comes from a set slot of its own column. */
  lemma {:induction false} PreCommitEffectsFromSetSlots(columns: seq<Lens>, values: seq<ColumnValue>, prev: Option<seq<ColumnValue>>, seen: set<FieldDef>, k: nat)
    requires k <= |columns|
    requires PreCommitPass(columns, values, prev, seen, k).Success?
    ensures FromSetSlots(columns, values, k, PreCommitPass(columns, values, prev, seen, k).value.effects)
  {
    if k > 0 {
      var before := PreCommitPass(columns, values, prev, seen, k - 1).value;
      PreCommitEffectsFromSetSlots(columns, values, prev, seen, k - 1);
      var after := PreCommitPass(columns, values, prev, seen, k).value;
      assert after == PreCommitStep(columns, values, prev, before, k - 1).value;
      PreCommitStepFromSlot(columns, values, prev, before, k - 1);
      var extra := after.effects[|before.effects|..];
      assert after.effects == before.effects + extra;
      FromSetSlotsExtend(columns, values, k - 1, before.effects, extra);
    }
  }

  /**
   * The scratch set decides the refreshes exactly: each refreshed lens is refreshed once,
   * was not in the scratch set at the start and is in it now, and every lens the pass
   * added to the set is refreshed.
   */
  predicate RefreshedOnce(seen: set<FieldDef>, st: PassState) {
    && (forall i, j :: 0 <= i < j < |st.effects| && st.effects[i].Refresh? && st.effects[j].Refresh? ==> st.effects[i].field != st.effects[j].field)
    && (forall i :: 0 <= i < |st.effects| && st.effects[i].Refresh? ==> st.effects[i].field !in seen && st.effects[i].field in st.seen)
    && (forall f :: f in st.seen && f !in seen ==> Refresh(f) in st.effects)
  }

  /**
   * `commitValues` commits every set mutable field's value and refreshes every set
   * telescope's first lens that was not in the scratch set, each once; every effect
   * comes from a set slot of its own column.
   */
  lemma CommitPassDeduplicates(columns: seq<Lens>, values: seq<ColumnValue>, seen: set<FieldDef>, k: nat)
    requires k <= |columns|
    requires CommitPass(columns, values, seen, k).Success?
    ensures RefreshedOnce(seen, CommitPass(columns, values, seen, k).value)
    ensures FromSetSlots(columns, values, k, CommitPass(columns, values, seen, k).value.effects)
    ensures var st := CommitPass(columns, values, seen, k).value;
            forall i :: 0 <= i < k && values[i].Present? && Classify(columns[i]).MutableField? ==>
              Commit(Classify(columns[i]).field, values[i].value) in st.effects
    ensures var st := CommitPass(columns, values, seen, k).value;
            forall i :: 0 <= i < k && values[i].Present? && Classify(columns[i]).MutableTelescope? ==>
              Classify(columns[i]).first in st.seen
              && (Classify(columns[i]).first !in seen ==> Refresh(Classify(columns[i]).first) in st.effects)
  {
    CommitPassRefreshesOnce(columns, values, seen, k);
    CommitPassCovers(columns, values, seen, k);
    CommitEffectsFromSetSlots(columns, values, seen, k);
  }

  /** The commit pass keeps `RefreshedOnce`: the scratch set decides its refreshes exactly. */
  lemma {:induction false} CommitPassRefreshesOnce(columns: seq<Lens>, values: seq<ColumnValue>, seen: set<FieldDef>, k: nat)
    requires k <= |columns|
    requires CommitPass(columns, values, seen, k).Success?
    ensures RefreshedOnce(seen, CommitPass(columns, values, seen, k).value)
  {
    if k > 0 {
      var before := CommitPass(columns, values, seen, k - 1).value;
      CommitPassRefreshesOnce(columns, values, seen, k - 1);
      var after := CommitPass(columns, values, seen, k).value;
      assert after == CommitStep(columns, values, before, k - 1).value;
      forall i | 0 <= i < |before.effects| ensures after.effects[i] == before.effects[i] {
      }
    }
  }

  /**
   * The commit pass commits every set mutable field's value, and puts every set
   * telescope's first lens in the scratch set, refreshing it unless it was there at the start.
   */
  lemma {:induction false} CommitPassCovers(columns: seq<Lens>, values: seq<ColumnValue>, seen: set<FieldDef>, k: nat)
    requires k <= |columns|
    requires CommitPass(columns, values, seen, k).Success?
    ensures var st := CommitPass(columns, values, seen, k).value;
            forall i :: 0 <= i < k && values[i].Present? && Classify(columns[i]).MutableField? ==>
              Commit(Classify(columns[i]).field, values[i].value) in st.effects
    ensures var st := CommitPass(columns, values, seen, k).value;
            forall i :: 0 <= i < k && values[i].Present? && Classify(columns[i]).MutableTelescope? ==>
              Classify(columns[i]).first in st.seen
              && (Classify(columns[i]).first !in seen ==> Refresh(Classify(columns[i]).first) in st.effects)
  {
    if k > 0 {
      var before := CommitPass(columns, values, seen, k - 1).value;
      CommitPassCovers(columns, values, seen, k - 1);
      var after := CommitPass(columns, values, seen, k).value;
      assert after == CommitStep(columns, values, before, k - 1).value;
      assert before.effects <= after.effects;
    }
    CommitPassRefreshesOnce(columns, values, seen, k);
  }

  /** With every slot `Unset`, neither pass does anything. */
  lemma {:induction false} AllUnsetNoEffects(columns: seq<Lens>, values: seq<ColumnValue>, prev: Option<seq<ColumnValue>>, seen: set<FieldDef>, k: nat)
    requires k <= |columns| && |values| >= |columns|
    requires forall i :: 0 <= i < |values| ==> values[i].UnsetValue?
    ensures PreCommitPass(columns, values, prev, seen, k) == Success(PassState(seen, []))
    ensures CommitPass(columns, values, seen, k) == Success(PassState(seen, []))
  {
    if k > 0 {
      AllUnsetNoEffects(columns, values, prev, seen, k - 1);
    }
  }

  /**
   * Lens `f`, when it was not in the scratch set at the start and there are previous
   * values, has a slot there, and is swapped with that slot's value when it is set.
   */
  predicate SwapDone(seen: set<FieldDef>, prev: Option<seq<ColumnValue>>, f: FieldDef, effects: seq<Effect>) {
    f !in seen && prev.Some? ==>
      f.ordinal < |prev.value| && (prev.value[f.ordinal].Present? ==> Swap(f, prev.value[f.ordinal].value) in effects)
  }

  /**
   * The pre-commit pass swaps only telescopes' first lenses, each at most once, only
   * with previous values present and only with a previous value that is set, and every
   * swap comes from a set slot. Without previous values it swaps nothing.
   */
  lemma {:induction false} PreCommitSwapsOnce(columns: seq<Lens>, values: seq<ColumnValue>, prev: Option<seq<ColumnValue>>, seen: set<FieldDef>, k: nat)
    requires k <= |columns|
    requires PreCommitPass(columns, values, prev, seen, k).Success?
    ensures var st := PreCommitPass(columns, values, prev, seen, k).value;
            && (forall i, j :: 0 <= i < j < |st.effects| ==> st.effects[i].field != st.effects[j].field)
            && (forall i :: 0 <= i < |st.effects| ==>
                  && st.effects[i].Swap? && st.effects[i].field !in seen && st.effects[i].field in st.seen
                  && prev.Some? && st.effects[i].field.ordinal < |prev.value|
                  && prev.value[st.effects[i].field.ordinal] == Present(st.effects[i].previous))
    ensures prev.None? ==> PreCommitPass(columns, values, prev, seen, k).value.effects == []
    ensures FromSetSlots(columns, values, k, PreCommitPass(columns, values, prev, seen, k).value.effects)
  {
    if k > 0 {
      PreCommitSwapsOnce(columns, values, prev, seen, k - 1);
      var before := PreCommitPass(columns, values, prev, seen, k - 1).value;
      var after := PreCommitPass(columns, values, prev, seen, k).value;
      assert after == PreCommitStep(columns, values, prev, before, k - 1).value;
      assert before.effects <= after.effects;
      forall i | 0 <= i < |before.effects| ensures i < |after.effects| && after.effects[i] == before.effects[i] {
      }
    }
    PreCommitEffectsFromSetSlots(columns, values, prev, seen, k);
  }

  /**
   * The pre-commit pass swaps every set telescope's first lens that was not in the
   * scratch set, when its previous value is set; such a lens always has a previous slot.
   */
  lemma {:induction false} PreCommitSwapsEvery(columns: seq<Lens>, values: seq<ColumnValue>, prev: Option<seq<ColumnValue>>, seen: set<FieldDef>, k: nat)
    requires k <= |columns|
    requires PreCommitPass(columns, values, prev, seen, k).Success?
    ensures var st := PreCommitPass(columns, values, prev, seen, k).value;
            forall f :: f in st.seen ==> SwapDone(seen, prev, f, st.effects)
    ensures var st := PreCommitPass(columns, values, prev, seen, k).value;
            forall i :: 0 <= i < k && values[i].Present? && Classify(columns[i]).MutableTelescope? ==>
              Classify(columns[i]).first in st.seen && SwapDone(seen, prev, Classify(columns[i]).first, st.effects)
  {
    if k > 0 {
      PreCommitSwapsEvery(columns, values, prev, seen, k - 1);
      var before := PreCommitPass(columns, values, prev, seen, k - 1).value;
      var after := PreCommitPass(columns, values, prev, seen, k).value;
      assert after == PreCommitStep(columns, values, prev, before, k - 1).value;
      assert before.effects <= after.effects;
    }
  }

  /**
   * The columns the pre-commit pass accepts: every slot is there, no set slot belongs to
   * a column it cannot write, and each set telescope whose first lens is not yet in the
   * scratch set finds that lens's slot among the previous values, when there are any.
   */
  predicate PreCommittable(columns: seq<Lens>, values: seq<ColumnValue>, prev: Option<seq<ColumnValue>>, seen: set<FieldDef>) {
    && |values| >= |columns|
    && forall i :: 0 <= i < |columns| ==> values[i].Present? ==>
         && !Classify(columns[i]).NotMutableColumn?
         && (Classify(columns[i]).MutableTelescope? && Classify(columns[i]).first !in seen && prev.Some? ==>
               Classify(columns[i]).first.ordinal < |prev.value|)
  }

  /**
   * The pre-commit pass fails exactly when a slot is missing, a set slot belongs to a
   * column it cannot write, or a new first lens has no slot among the previous values.
   */
  lemma {:induction false} PreCommitPassSucceedsIff(columns: seq<Lens>, values: seq<ColumnValue>, prev: Option<seq<ColumnValue>>, seen: set<FieldDef>, k: nat)
    requires k <= |columns|
    ensures PreCommitPass(columns, values, prev, seen, k).Success? <==> PreCommittable(columns[..k], values, prev, seen)
  {
    if k > 0 {
      PreCommitPassSucceedsIff(columns, values, prev, seen, k - 1);
      assert forall i :: 0 <= i < k - 1 ==> columns[..k][i] == columns[..k - 1][i];
      assert columns[..k][k - 1] == columns[k - 1];
      if PreCommitPass(columns, values, prev, seen, k - 1).Success? {
        PreCommitSwapsEvery(columns, values, prev, seen, k - 1);
      }
    }
  }

  /** Once a column fails a pass, the whole pass fails with the same exception. */
  lemma {:induction false} PassFailurePersists(columns: seq<Lens>, values: seq<ColumnValue>, prev: Option<seq<ColumnValue>>, seen: set<FieldDef>, k: nat, n: nat)
    requires k <= n <= |columns|
    ensures PreCommitPass(columns, values, prev, seen, k).Failure? ==>
              PreCommitPass(columns, values, prev, seen, n) == PreCommitPass(columns, values, prev, seen, k)
    ensures CommitPass(columns, values, seen, k).Failure? ==>
              CommitPass(columns, values, seen, n) == CommitPass(columns, values, seen, k)
    decreases n
  {
    if n > k {
      PassFailurePersists(columns, values, prev, seen, k, n - 1);
    }
  }

  /** The loop of `preCommitValues` over the table's columns. */
  method PreCommitLoop(cols: seq<Lens>, values: seq<ColumnValue>, prev: Option<seq<ColumnValue>>, tmpSet: TmpSet) returns (r: Result<seq<Effect>, SqlError>)
    modifies tmpSet
    ensures var spec := PreCommitPass(cols, values, prev, old(tmpSet.elements), |cols|);
            && (r.Success? <==> spec.Success?)
            && (r.Success? ==> r.value == spec.value.effects && tmpSet.elements == {})
            && (r.Failure? ==> spec == Failure(r.error) && old(tmpSet.elements) <= tmpSet.elements)
  {
    ghost var seen0 := tmpSet.elements;
    var effects: seq<Effect> := [];
    for i := 0 to |cols|
      invariant PreCommitPass(cols, values, prev, seen0, i) == Success(PassState(tmpSet.elements, effects))
    {
      if i >= |values| {
        PassFailurePersists(cols, values, prev, seen0, i + 1, |cols|);
        return Failure(OutOfBounds(i));
      }
      if values[i].Present? {
        match Classify(cols[i])
        case MutableField(_) =>
        case MutableTelescope(first) =>
          if first !in tmpSet.elements {
            tmpSet.elements := tmpSet.elements + {first};
            if prev.Some? {
              var idx := first.ordinal;
              if idx >= |prev.value| {
                PassFailurePersists(cols, values, prev, seen0, i + 1, |cols|);
                return Failure(OutOfBounds(idx));
              }
              if prev.value[idx].Present? {
                effects := effects + [Swap(first, prev.value[idx].value)];
              }
            }
          }
        case NotMutableColumn =>
          PassFailurePersists(cols, values, prev, seen0, i + 1, |cols|);
          return Failure(NotMutable(cols[i]));
      }
    }
    tmpSet.elements := {};
    r := Success(effects);
  }

  /** The loop of `commitValues` over the table's columns. */
  method CommitLoop(cols: seq<Lens>, values: seq<ColumnValue>, tmpSet: TmpSet) returns (r: Result<seq<Effect>, SqlError>)
    modifies tmpSet
    ensures var spec := CommitPass(cols, values, old(tmpSet.elements), |cols|);
            && (r.Success? <==> spec.Success?)
            && (r.Success? ==> r.value == spec.value.effects && tmpSet.elements == {})
            && (r.Failure? ==> spec == Failure(r.error) && old(tmpSet.elements) <= tmpSet.elements)
  {
    ghost var seen0 := tmpSet.elements;
    var effects: seq<Effect> := [];
    for i := 0 to |cols|
      invariant CommitPass(cols, values, seen0, i) == Success(PassState(tmpSet.elements, effects))
    {
      if i >= |values| {
        PassFailurePersists(cols, values, None, seen0, i + 1, |cols|);
        return Failure(OutOfBounds(i));
      }
      if values[i].Present? {
        match Classify(cols[i])
        case MutableField(field) =>
          effects := effects + [Commit(field, values[i].value)];
        case MutableTelescope(first) =>
          if first !in tmpSet.elements {
            tmpSet.elements := tmpSet.elements + {first};
            effects := effects + [Refresh(first)];
          }
        case NotMutableColumn =>
          PassFailurePersists(cols, values, None, seen0, i + 1, |cols|);
          return Failure(NotMutable(cols[i]));
      }
    }
    tmpSet.elements := {};
    r := Success(effects);
  }

  /** The scratch `HashSet` the passes share. */
  class TmpSet {
    var elements: set<FieldDef>

    constructor ()
      ensures elements == {}
    {
      elements := {};
    }
  }

  // ---------------------------------------------------------------------------
  // Tables

  /**
   * A table: a schema stored under a name, with a synthetic id column or a PK field,
   * and the relations its subclass declares. The columns and delegates, the name map
   * and the index map are computed on first use and cached.
   */
  class Table {
    const schema: Schema
    const name: string
    const idColName: string
    const idColType: Kind
    const pkField: Option<FieldDef>
    const relations: seq<Relation>
    var columnsCache: Option<seq<Lens>>
    var delegatesCache: Option<map<Lens, Delegate>>
    var byNameCache: Option<map<string, Lens>>
    var indicesCache: Option<map<Lens, nat>>

    /** What `_columns` computes for this table. */
    ghost function Spec(): Result<Acc, SqlError> {
      Flatten(schema, idColName, pkField, relations)
    }

    /** Each cache, once filled, holds what it is computed from. */
    ghost predicate Valid()
      reads this
    {
      && (pkField.Some? ==> pkField.value in schema.fields && pkField.value.fieldType == DataType.Simple(idColType))
      && (columnsCache.Some? <==> delegatesCache.Some?)
      && (columnsCache.Some? ==> Spec().Success? && columnsCache.value == Spec().value.columns
                                 && delegatesCache.value == Spec().value.delegates)
      && (byNameCache.Some? ==> columnsCache.Some? && byNameCache.value == NameMap(columnsCache.value))
      && (indicesCache.Some? ==> columnsCache.Some? && indicesCache.value == IndexMap(columnsCache.value))
    }

    /** The private constructor: nothing is computed yet. */
    constructor Primary(schema: Schema, name: string, idColName: string, idColType: Kind, pkField: Option<FieldDef>, relations: seq<Relation>)
      requires pkField.Some? ==> pkField.value in schema.fields && pkField.value.fieldType == DataType.Simple(idColType)
      ensures Valid()
      ensures this.schema == schema && this.name == name && this.idColName == idColName && this.idColType == idColType
      ensures this.pkField == pkField && this.relations == relations
      ensures columnsCache.None? && byNameCache.None? && indicesCache.None?
    {
      this.schema := schema;
      this.name := name;
      this.idColName := idColName;
      this.idColType := idColType;
      this.pkField := pkField;
      this.relations := relations;
      columnsCache := None;
      delegatesCache := None;
      byNameCache := None;
      indicesCache := None;
    }

    /** `Table(schema, name, idColName, idColType)`: a synthetic id column and no PK field. */
    constructor (schema: Schema, name: string, idColName: string, idColType: Kind, relations: seq<Relation>)
      ensures Valid()
      ensures this.schema == schema && this.name == name && this.idColName == idColName && this.idColType == idColType
      ensures pkField.None? && this.relations == relations
      ensures columnsCache.None? && byNameCache.None? && indicesCache.None?
    {
      this.schema := schema;
      this.name := name;
      this.idColName := idColName;
      this.idColType := idColType;
      this.pkField := None;
      this.relations := relations;
      columnsCache := None;
      delegatesCache := None;
      byNameCache := None;
      indicesCache := None;
    }

    /** `columns`: the cached `_columns`; a failure is thrown again on the next read, so nothing is cached. */
    method Columns() returns (r: Result<seq<Lens>, SqlError>)
      requires Valid()
      modifies this
      ensures Valid()
      ensures r.Success? <==> Spec().Success?
      ensures r.Success? ==> r.value == Spec().value.columns && columnsCache == Some(r.value)
      ensures r.Failure? ==> Spec() == Failure(r.error) && unchanged(this)
      ensures byNameCache == old(byNameCache) && indicesCache == old(indicesCache)
    {
      if columnsCache.Some? {
        return Success(columnsCache.value);
      }
      var flattened := FlattenTable(schema, idColName, pkField, relations);
      if flattened.Failure? {
        return Failure(flattened.error);
      }
      delegatesCache := Some(flattened.value.delegates);
      columnsCache := Some(flattened.value.columns);
      r := Success(flattened.value.columns);
    }

    /** `delegateFor`: the delegate recorded for the lens, `Simple` for any other lens. */
    method DelegateFor(lens: Lens) returns (r: Result<Delegate, SqlError>)
      requires Valid()
      modifies this
      ensures Valid()
      ensures r.Success? <==> Spec().Success?
      ensures r.Success? ==> r.value == if lens in Spec().value.delegates then Spec().value.delegates[lens] else Delegate.Simple
      ensures r.Failure? ==> Spec() == Failure(r.error)
      ensures byNameCache == old(byNameCache) && indicesCache == old(indicesCache)
    {
      var columns := Columns();
      if columns.Failure? {
        return Failure(columns.error);
      }
      var delegates := delegatesCache.value;
      r := Success(if lens in delegates then delegates[lens] else Delegate.Simple);
    }

    /** `columnsByName`: computed from the columns once, then cached. */
    method ColumnsByName() returns (r: Result<map<string, Lens>, SqlError>)
      requires Valid()
      modifies this
      ensures Valid()
      ensures r.Success? <==> Spec().Success?
      ensures r.Success? ==> r.value == NameMap(Spec().value.columns) && byNameCache == Some(r.value)
      ensures r.Failure? ==> Spec() == Failure(r.error) && unchanged(this)
    {
      if byNameCache.Some? {
        return Success(byNameCache.value);
      }
      var columns := Columns();
      if columns.Failure? {
        return Failure(columns.error);
      }
      var m := NameColumns(columns.value);
      byNameCache := Some(m);
      r := Success(m);
    }

    /** `columnIndices`: computed from the columns once, then cached. */
    method ColumnIndices() returns (r: Result<map<Lens, nat>, SqlError>)
      requires Valid()
      modifies this
      ensures Valid()
      ensures r.Success? <==> Spec().Success?
      ensures r.Success? ==> r.value == IndexMap(Spec().value.columns) && indicesCache == Some(r.value)
      ensures r.Failure? ==> Spec() == Failure(r.error) && unchanged(this)
    {
      if indicesCache.Some? {
        return Success(indicesCache.value);
      }
      var columns := Columns();
      if columns.Failure? {
        return Failure(columns.error);
      }
      var m := IndexColumns(columns.value);
      indicesCache := Some(m);
      r := Success(m);
    }

    /** `columnByLens`: the column at the lens's index, which is the lens itself, or `null`. */
    method ColumnByLens(lens: Lens) returns (r: Result<Option<Lens>, SqlError>)
      requires Valid()
      modifies this
      ensures Valid()
      ensures r.Success? <==> Spec().Success?
      ensures r.Success? ==> (r.value.Some? <==> lens in Spec().value.columns) && (r.value.Some? ==> r.value.value == lens)
      ensures r.Failure? ==> Spec() == Failure(r.error)
    {
      var indices := ColumnIndices();
      if indices.Failure? {
        return Failure(indices.error);
      }
      var columns := Columns();
      r := Success(if lens in indices.value then Some(columns.value[indices.value[lens]]) else None);
    }

    /** The primary-key column: the synthetic PK lens, or the PK field's own column. */
    method PkColumn() returns (r: Result<Lens, SqlError>)
      requires Valid()
      modifies this
      ensures Valid()
      ensures r.Success? <==> Spec().Success?
      ensures r.Success? ==> r.value == PrimaryKeyColumn(idColName, pkField) && r.value in Spec().value.columns
      ensures r.Failure? ==> Spec() == Failure(r.error)
    {
      var columns := Columns();
      if columns.Failure? {
        return Failure(columns.error);
      }
      PkColumnIsAColumn(schema, idColName, pkField, relations);
      r := Success(PrimaryKeyColumn(idColName, pkField));
    }

    /**
     * `preCommitValues`: the swaps for the record's previous values over the table's
     * columns; the scratch set is emptied after a pass that completes.
     */
    method PreCommitValues(values: seq<ColumnValue>, prev: Option<seq<ColumnValue>>, tmpSet: TmpSet) returns (r: Result<seq<Effect>, SqlError>)
      requires Valid()
      modifies this, tmpSet
      ensures Valid()
      ensures Spec().Failure? ==> r == Failure(Spec().error)
      ensures Spec().Success? ==>
                var spec := PreCommitPass(Spec().value.columns, values, prev, old(tmpSet.elements), |Spec().value.columns|);
                && (r.Success? <==> spec.Success?)
                && (r.Success? ==> r.value == spec.value.effects && tmpSet.elements == {})
                && (r.Failure? ==> spec == Failure(r.error))
    {
      var columns := Columns();
      if columns.Failure? {
        return Failure(columns.error);
      }
      r := PreCommitLoop(columns.value, values, prev, tmpSet);
    }

    /**
     * `commitValues`: commits each set mutable field and refreshes each set telescope's
     * first lens once; the scratch set is emptied after a pass that completes.
     */
    method CommitValues(values: seq<ColumnValue>, tmpSet: TmpSet) returns (r: Result<seq<Effect>, SqlError>)
      requires Valid()
      modifies this, tmpSet
      ensures Valid()
      ensures Spec().Failure? ==> r == Failure(Spec().error)
      ensures Spec().Success? ==>
                var spec := CommitPass(Spec().value.columns, values, old(tmpSet.elements), |Spec().value.columns|);
                && (r.Success? <==> spec.Success?)
                && (r.Success? ==> r.value == spec.value.effects && tmpSet.elements == {})
                && (r.Failure? ==> spec == Failure(r.error))
    {
      var columns := Columns();
      if columns.Failure? {
        return Failure(columns.error);
      }
      r := CommitLoop(columns.value, values, tmpSet);
    }
  }

  /** `Table(schema, name, idCol)`: the PK field must have a simple type, or `IllegalArgumentException` is thrown. */
  method TableWithPk(schema: Schema, name: string, idCol: FieldDef, relations: seq<Relation>) returns (r: Result<Table, SqlError>)
    requires idCol in schema.fields && !idCol.mutable
    ensures r.Success? <==> idCol.fieldType.Simple?
    ensures r.Failure? ==> r.error == PkNotSimple(idCol)
    ensures r.Success? ==> && fresh(r.value) && r.value.Valid()
                           && r.value.schema == schema && r.value.name == name && r.value.relations == relations
                           && r.value.idColName == idCol.name && r.value.pkField == Some(idCol)
                           && DataType.Simple(r.value.idColType) == idCol.fieldType
                           && r.value.columnsCache.None?
  {
    if !idCol.fieldType.Simple? {
      return Failure(PkNotSimple(idCol));
    }
    var t := new Table.Primary(schema, name, idCol.name, idCol.fieldType.kind, Some(idCol), relations);
    r := Success(t);
  }
}
