/**
 * The struct/schema layer the core builds on: field kinds, data types, schemas and
 * field definitions. Only the parts that the builder, the preference codec and the
 * table flattening read are represented.
 */
module Struct {
  import opened Wrappers

  /** DataType.Simple.Kind without the two floating-point kinds. */
  datatype Kind = Bool | I8 | I16 | I32 | I64 | Str | Blob

  /**
   * A data type. `Nullable` wraps the actual type; `Partial` is a struct-typed field
   * whose columns need a relation when it is stored in a table.
   */
  datatype DataType =
    | Simple(kind: Kind)
    | Nullable(actualType: DataType)
    | Collect(elementType: DataType)
    | Partial(schema: Schema)

  /** A field of a schema; `ordinal` is its position in the schema. */
  datatype FieldDef = FieldDef(name: string, ordinal: nat, fieldType: DataType, mutable: bool,
                               default: Option<Value>)

  /** A schema is its ordered list of fields. */
  datatype Schema = Schema(name: string, fields: seq<FieldDef>)

  /**
   * Runtime values (everything is `Any?` once Kotlin has erased the type arguments).
   * `StringSetV` is the `Set<String>` that string collections come back as.
   */
  datatype Value =
    | Null
    | BoolV(b: bool)
    | IntV(i: int)
    | StrV(s: string)
    | BlobV(bytes: seq<bv8>)
    | ListV(elements: seq<Value>)
    | StringSetV(strings: set<string>)

  /** 2 to the power `n`: the range of an `n`-bit integer. */
  function Pow2(n: nat): (r: nat)
    ensures r >= 1
  {
    if n == 0 then 1 else 2 * Pow2(n - 1)
  }

  /** Field ordinals equal positions, as the schema tests assert for every field. */
  predicate WellFormed(schema: Schema) {
    forall i :: 0 <= i < |schema.fields| ==> schema.fields[i].ordinal == i
  }

  /** `allFieldSet`: the ordinals of every field of the schema. */
  function AllFieldSet(schema: Schema): (r: set<nat>)
    requires WellFormed(schema)
    ensures forall i: nat :: i in r <==> i < |schema.fields|
  {
    var ordinals := set f | f in schema.fields :: f.ordinal;
    forall i | 0 <= i < |schema.fields| ensures i in ordinals {
      assert schema.fields[i] in schema.fields;
    }
    forall i | i in ordinals ensures i < |schema.fields| {
      var f :| f in schema.fields && f.ordinal == i;
      var k :| 0 <= k < |schema.fields| && schema.fields[k] == f;
    }
    ordinals
  }
}
