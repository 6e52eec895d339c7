/**
 * The struct builder: a slot array with one slot per field of a schema plus a trailing
 * slot that holds the schema itself. Empty slots hold the `Unset` sentinel.
 */
module Build {
  import opened Wrappers
  import opened Struct

  /** One cell of the builder's `Array<Any?>`. */
  datatype Slot = Unset | Val(value: Value) | SchemaSlot(schema: Schema)

  /**
   * A partial struct: its schema and the values of the fields it has.
   * `values.Keys` is `PartialStruct.fields`; `values[f]` is `getOrThrow(f)`.
   */
  datatype PartialStruct = PartialStruct(schema: Schema, values: map<nat, Value>)

  /** Every field a partial struct claims belongs to its schema. */
  predicate ValidSource(source: PartialStruct) {
    forall f :: f in source.values ==> f < |source.schema.fields|
  }

  /** A full struct has every field of its schema. */
  predicate IsFull(source: PartialStruct) {
    && (forall f :: f in source.values ==> f < |source.schema.fields|)
    && (forall f :: 0 <= f < |source.schema.fields| ==> f in source.values)
  }

  /** `NoSuchElementException` for the field with this ordinal. */
  datatype BuildError = NoSuchElement(ordinal: nat)

  /** A snapshot captures the builder's array itself, without copying it. */
  datatype StructSnapshot = StructSnapshot(values: array<Slot>)

  /** One `it[field] = value` executed by a build or mutate block. */
  datatype Write = Write(field: nat, value: Value)

  /** The value of the last write to `field`, if any. */
  function LastWrite(writes: seq<Write>, field: nat): (r: Option<Value>)
    ensures r.Some? <==> exists k :: 0 <= k < |writes| && writes[k].field == field
  {
    if |writes| == 0 then None
    else if writes[|writes| - 1].field == field then Some(writes[|writes| - 1].value)
    else LastWrite(writes[..|writes| - 1], field)
  }

  lemma LastWriteStep(writes: seq<Write>, k: nat, field: nat)
    requires k < |writes|
    ensures LastWrite(writes[..k + 1], field)
            == if writes[k].field == field then Some(writes[k].value) else LastWrite(writes[..k], field)
  {
    assert writes[..k + 1][..k] == writes[..k];
  }

  /** `set` receives the value of slot `i` from `LastWrite` when there is one. */
  function Overlay(writes: seq<Write>, field: nat, otherwise: Slot): Slot {
    match LastWrite(writes, field)
    case Some(v) => Val(v)
    case None => otherwise
  }

  // ---------------------------------------------------------------------------
  // The 64-bit field-set mask

  /** Bit `i` of a mask, for a bit index that fits a shift amount. */
  predicate Bit(mask: bv64, i: bv7)
    requires i < 64
  {
    (mask >> i) & 1 == 1
  }

  /** Field `i` is in the field set `mask`. */
  predicate InMask(mask: bv64, i: nat)
    requires i < 64
  {
    Bit(mask, i as bv7)
  }

  /** `1L shl i` for a field index below 64. */
  function Single(i: nat): bv64
    requires i < 64
  {
    1 << (i as bv7)
  }

  lemma BitOfOr(s: bv64, i: bv7, j: bv7)
    requires i < 64 && j < 64
    ensures Bit(s | (1 << i), j) <==> Bit(s, j) || i == j
  {
  }

  /** A field index below 64 keeps its value as a shift amount. */
  lemma Bv7Value(i: nat)
    requires i < 64
    ensures (i as bv7) as int == i
  {
  }

  lemma Bv7Succ(b: bv7)
    requires b < 127
    ensures (b + 1) as int == b as int + 1
  {
  }

  lemma Bv7Injective(x: bv7, y: bv7)
    requires x as int == y as int
    ensures x == y
  {
  }

  lemma IndexInjective(i: nat, j: nat)
    requires i < 64 && j < 64
    ensures (i as bv7 == j as bv7) <==> i == j
  {
    Bv7Value(i);
    Bv7Value(j);
  }

  /** Adding field `i` to a mask adds exactly bit `i`. */
  lemma InMaskOr(s: bv64, i: nat, j: nat)
    requires i < 64 && j < 64
    ensures InMask(s | Single(i), j) <==> InMask(s, j) || i == j
  {
    BitOfOr(s, i as bv7, j as bv7);
    IndexInjective(i, j);
  }

  /** `field shl 1` moves the single bit up by one, and shifts it out after bit 63. */
  lemma SingleShift(i: nat)
    requires i < 64
    ensures Single(i) << 1 == if i < 63 then Single(i + 1) else 0
  {
    if i < 63 {
      Bv7Value(i);
      Bv7Succ(i as bv7);
      Bv7Value(i + 1);
      Bv7Injective((i + 1) as bv7, (i as bv7) + 1);
    }
  }

  lemma EmptyMask(j: nat)
    requires j < 64
    ensures !InMask(0, j)
  {
  }

  // ---------------------------------------------------------------------------

  class StructBuilder {
    /** `values`: field slots `0 .. values.Length - 2`, then the schema slot. */
    const values: array<Slot>

    /** The shape every builder keeps: a schema in the last slot and only there. */
    ghost predicate Valid()
      reads this, values
    {
      && values.Length >= 1
      && values[values.Length - 1].SchemaSlot?
      && |values[values.Length - 1].schema.fields| == values.Length - 1
      && forall i :: 0 <= i < values.Length - 1 ==> !values[i].SchemaSlot?
    }

    /** Number of field slots. */
    function FieldCount(): nat
      reads this
      requires values.Length >= 1
    {
      values.Length - 1
    }

    /** The schema held in the trailing slot. */
    ghost function BuiltSchema(): Schema
      reads this, values
      requires Valid()
    {
      values[values.Length - 1].schema
    }

    /** `newBuilder`: every field slot `Unset`, the schema in the last slot. */
    constructor NewBuilder(schema: Schema)
      ensures Valid() && fresh(values)
      ensures values.Length == |schema.fields| + 1
      ensures forall i :: 0 <= i < |schema.fields| ==> values[i] == Unset
      ensures values[|schema.fields|] == SchemaSlot(schema)
    {
      var fldCnt := |schema.fields|;
      var slots := new Slot[fldCnt + 1](_ => Val(Null));
      for i := 0 to fldCnt
        invariant forall j :: 0 <= j < i ==> slots[j] == Unset
        invariant slots[fldCnt] == Val(Null)
      {
        slots[i] := Unset;
      }
      slots[fldCnt] := SchemaSlot(schema);
      values := slots;
    }

    /**
     * `buildUpon`: slot `i` holds the source's value when field `i` is both present in
     * the source and requested, and `Unset` otherwise.
     */
    constructor BuildUpon(source: PartialStruct, fields: set<nat>)
      requires ValidSource(source)
      ensures Valid() && fresh(values)
      ensures values.Length == |source.schema.fields| + 1
      ensures forall i :: 0 <= i < |source.schema.fields| ==>
                values[i] == if i in source.values && i in fields then Val(source.values[i]) else Unset
      ensures values[|source.schema.fields|] == SchemaSlot(source.schema)
    {
      var fldCnt := |source.schema.fields|;
      var slots := new Slot[fldCnt + 1](_ => Val(Null));
      var actualFields := source.values.Keys * fields;
      for i := 0 to fldCnt
        invariant forall j :: 0 <= j < i ==>
                    slots[j] == if j in actualFields then Val(source.values[j]) else Unset
        invariant slots[fldCnt] == Val(Null)
      {
        slots[i] := if i in actualFields then Val(source.values[i]) else Unset;
      }
      slots[fldCnt] := SchemaSlot(source.schema);
      values := slots;
    }

    /** `get`: the value of a set field, `NoSuchElementException` for an `Unset` one. */
    method Get(field: nat) returns (r: Result<Value, BuildError>)
      requires Valid() && field < FieldCount()
      ensures r.Success? <==> values[field] != Unset
      ensures r.Success? ==> values[field] == Val(r.value)
      ensures r.Failure? ==> r.error == NoSuchElement(field)
    {
      var v := values[field];
      if v == Unset {
        r := Failure(NoSuchElement(field));
      } else {
        r := Success(v.value);
      }
    }

    /** `set`: overwrite exactly one field slot. */
    method Set(field: nat, value: Value)
      requires Valid() && field < FieldCount()
      modifies values
      ensures Valid()
      ensures values[..] == old(values[..])[field := Val(value)]
    {
      values[field] := Val(value);
    }

    /**
     * `setFrom`: copies every field present in `source` and requested in `fields`,
     * returns that intersection, and leaves every other slot as it was.
     */
    method SetFrom(source: PartialStruct, fields: set<nat>) returns (updated: set<nat>)
      requires Valid() && ValidSource(source) && |source.schema.fields| == FieldCount()
      modifies values
      ensures Valid()
      ensures updated == source.values.Keys * fields
      ensures forall i :: 0 <= i < FieldCount() ==>
                values[i] == if i in updated then Val(source.values[i]) else old(values[i])
      ensures values[FieldCount()] == old(values[FieldCount()])
    {
      updated := source.values.Keys * fields;
      var n := values.Length - 1;
      for i := 0 to n
        invariant forall j :: 0 <= j < i ==>
                    values[j] == if j in updated then Val(source.values[j]) else old(values[j])
        invariant forall j :: i <= j <= n ==> values[j] == old(values[j])
      {
        if i in updated {
          values[i] := Val(source.values[i]);
        }
      }
    }

    /**
     * `finish`. With `searchForDefaults` every `Unset` field slot, in order, receives the
     * schema's default; the first one without a default throws, leaving the slots before
     * it filled. Without it nothing is touched. The snapshot shares the array.
     */
    method Finish(schema: Schema, searchForDefaults: bool) returns (r: Result<StructSnapshot, BuildError>)
      requires Valid() && |schema.fields| == FieldCount()
      modifies values
      ensures Valid()
      ensures r.Success? ==> r.value.values == values
      ensures values[FieldCount()] == old(values[FieldCount()])
      ensures !searchForDefaults ==> r.Success? && values[..] == old(values[..])
      ensures searchForDefaults ==>
                (r.Success? <==> forall i :: 0 <= i < FieldCount() && old(values[i]) == Unset ==>
                                   schema.fields[i].default.Some?)
      ensures searchForDefaults && r.Success? ==>
                forall i :: 0 <= i < FieldCount() ==>
                  values[i] != Unset &&
                  values[i] == if old(values[i]) == Unset then Val(schema.fields[i].default.value)
                               else old(values[i])
      ensures r.Failure? ==>
                var k := r.error.ordinal;
                && k < FieldCount() && old(values[k]) == Unset && schema.fields[k].default.None?
                && (forall i :: 0 <= i < k && old(values[i]) == Unset ==> schema.fields[i].default.Some?)
                && (forall i :: 0 <= i < k ==>
                      values[i] == if old(values[i]) == Unset then Val(schema.fields[i].default.value)
                                   else old(values[i]))
                && (forall i :: k <= i < FieldCount() ==> values[i] == old(values[i]))
    {
      var n := values.Length - 1;
      if searchForDefaults {
        for i := 0 to n
          invariant forall j :: 0 <= j < i && old(values[j]) == Unset ==> schema.fields[j].default.Some?
          invariant forall j :: 0 <= j < i ==>
                      values[j] == if old(values[j]) == Unset then Val(schema.fields[j].default.value)
                                   else old(values[j])
          invariant forall j :: i <= j <= n ==> values[j] == old(values[j])
        {
          if values[i] == Unset {
            match schema.fields[i].default
            case Some(d) =>
              values[i] := Val(d);
            case None =>
              r := Failure(NoSuchElement(i));
              return;
          }
        }
      }
      r := Success(StructSnapshot(values));
    }

    /** `fieldsPresent`: bit `i` is set exactly for the field slots that are not `Unset`. */
    method FieldsPresent() returns (mask: bv64)
      requires Valid()
      ensures forall i :: 0 <= i < FieldCount() && i < 64 ==> (InMask(mask, i) <==> values[i] != Unset)
      ensures forall i :: FieldCount() <= i < 64 ==> !InMask(mask, i)
    {
      var present: bv64 := 0;
      var field: bv64 := 1;
      var n := values.Length - 1;
      forall j | 0 <= j < 64 ensures !InMask(present, j) { EmptyMask(j); }
      for i := 0 to n
        invariant i < 64 ==> field == Single(i)
        invariant i >= 64 ==> field == 0
        invariant forall j :: 0 <= j < i && j < 64 ==> (InMask(present, j) <==> values[j] != Unset)
        invariant forall j :: i <= j < 64 ==> !InMask(present, j)
      {
        if values[i] != Unset {
          if i < 64 {
            forall j | 0 <= j < 64 ensures InMask(present | field, j) <==> InMask(present, j) || i == j {
              InMaskOr(present, i, j);
            }
          } else {
            assert present | field == present;
          }
          present := present | field;
        }
        if i < 64 { SingleShift(i); }
        field := field << 1;
      }
      mask := present;
    }
  }

  /**
   * `invoke` (`newStruct`): a fresh builder, the block's writes, then `finish` with
   * defaults. Every field ends up with its last written value or its default, and the
   * build fails exactly when some field has neither.
   */
  method NewStruct(schema: Schema, writes: seq<Write>) returns (r: Result<StructSnapshot, BuildError>)
    requires forall k :: 0 <= k < |writes| ==> writes[k].field < |schema.fields|
    ensures r.Success? <==>
              forall i :: 0 <= i < |schema.fields| && LastWrite(writes, i).None? ==> schema.fields[i].default.Some?
    ensures r.Success? ==>
              && fresh(r.value.values)
              && r.value.values.Length == |schema.fields| + 1
              && r.value.values[|schema.fields|] == SchemaSlot(schema)
              && forall i :: 0 <= i < |schema.fields| ==>
                   r.value.values[i] == if LastWrite(writes, i).Some? then Val(LastWrite(writes, i).value)
                                        else Val(schema.fields[i].default.value)
  {
    var builder := new StructBuilder.NewBuilder(schema);
    ghost var initial := builder.values[..];
    ApplyWrites(builder, writes);
    assert forall i :: 0 <= i < |schema.fields| ==> builder.values[i] == Overlay(writes, i, Unset);
    r := builder.Finish(schema, true);
  }

  /**
   * `copy`: a builder upon every field of a full struct, the block's writes, then
   * `finish` without defaults. A field the block does not write keeps the source's value.
   */
  method Copy(source: PartialStruct, writes: seq<Write>) returns (snapshot: StructSnapshot)
    requires WellFormed(source.schema) && IsFull(source)
    requires forall k :: 0 <= k < |writes| ==> writes[k].field < |source.schema.fields|
    ensures fresh(snapshot.values)
    ensures snapshot.values.Length == |source.schema.fields| + 1
    ensures snapshot.values[|source.schema.fields|] == SchemaSlot(source.schema)
    ensures forall i :: 0 <= i < |source.schema.fields| ==>
              snapshot.values[i] == if LastWrite(writes, i).Some? then Val(LastWrite(writes, i).value)
                                    else Val(source.values[i])
  {
    var builder := new StructBuilder.BuildUpon(source, AllFieldSet(source.schema));
    ApplyWrites(builder, writes);
    var r := builder.Finish(source.schema, false);
    snapshot := r.value;
  }

  /** The build/mutate block, reduced to the `set` calls it makes, in order. */
  method ApplyWrites(builder: StructBuilder, writes: seq<Write>)
    requires builder.Valid()
    requires forall k :: 0 <= k < |writes| ==> writes[k].field < builder.FieldCount()
    modifies builder.values
    ensures builder.Valid()
    ensures builder.values[builder.FieldCount()] == old(builder.values[builder.FieldCount()])
    ensures forall i :: 0 <= i < builder.FieldCount() ==>
              builder.values[i] == Overlay(writes, i, old(builder.values[i]))
  {
    for k := 0 to |writes|
      invariant builder.Valid()
      invariant builder.values[builder.FieldCount()] == old(builder.values[builder.FieldCount()])
      invariant forall i :: 0 <= i < builder.FieldCount() ==>
                  builder.values[i] == Overlay(writes[..k], i, old(builder.values[i]))
    {
      forall i | 0 <= i < builder.FieldCount()
        ensures Overlay(writes[..k + 1], i, old(builder.values[i]))
                == if writes[k].field == i then Val(writes[k].value)
                   else Overlay(writes[..k], i, old(builder.values[i]))
      {
        LastWriteStep(writes, k, i);
      }
      builder.Set(writes[k].field, writes[k].value);
    }
    assert writes[..|writes|] == writes;
  }
}
