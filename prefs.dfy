/**
 * The SharedPreferences codec: how a typed value is written with the editor's `put*`
 * methods, how the stored representation is read back, and how an absent key falls
 * back to a default. SharedPreferences cannot store `null`, so a null of a nullable
 * type is written as a sentinel: Boolean `false` for the kinds stored as strings
 * (Str and Blob) and for collections, the String `"null"` for every other kind.
 */
module Prefs {
  import opened Wrappers
  import opened Struct

  /** What the editor's `putBoolean/putInt/putLong/putString/putStringSet` store. */
  datatype Stored =
    | PBool(b: bool)
    | PInt(i: int)
    | PLong(l: int)
    | PString(s: string)
    | PStringSet(strings: set<string>)

  /** The exceptions reading can throw: a failed cast, a failed range assertion, bad input to a decoder. */
  datatype PrefError =
    | ClassCast(expected: string)
    | OutOfRange(kind: Kind, value: int)
    | BadBase64(text: string)
    | BadSerialized

  /**
   * The foreign codecs: `Base64` with `DEFAULT` flags, and the `serialized` binary form
   * of a collection type. A decoder may reject its input.
   */
  datatype Codecs = Codecs(
    encodeBase64: seq<bv8> -> string,
    decodeBase64: string -> Option<seq<bv8>>,
    encodeSerialized: (DataType, Value) -> seq<bv8>,
    decodeSerialized: (DataType, seq<bv8>) -> Option<Value>)

  /** Each decoder inverts its encoder. */
  ghost predicate ValidCodecs(c: Codecs) {
    && (forall bytes :: c.decodeBase64(c.encodeBase64(bytes)) == Some(bytes))
    && (forall t, v :: Conforms(v, t) ==> c.decodeSerialized(t, c.encodeSerialized(t, v)) == Some(v))
  }

  /** `storedAsString`: the kinds whose null sentinel is Boolean `false`, because their own values are strings. */
  function StoredAsString(): (kinds: set<Kind>)
    ensures forall k :: k in kinds <==> k == Str || k == Blob
  {
    {Str, Blob}
  }

  predicate InRange(i: int, bits: nat) {
    var half := Pow2(bits) / 2;
    -half <= i < half
  }


  /** The types the preference visitors handle: a simple kind or a collection, possibly nullable. */
  predicate PrefType(t: DataType) {
    match t
    case Simple(_) => true
    case Collect(_) => true
    case Nullable(Simple(_)) => true
    case Nullable(Collect(_)) => true
    case _ => false
  }

  /** A collection of strings, which is stored as a string set. */
  predicate StringElements(elementType: DataType) {
    elementType == Simple(Str)
  }

  /** `v` is a value of kind `k`, with Kotlin's integer widths. */
  predicate ConformsSimple(v: Value, k: Kind) {
    match k
    case Bool => v.BoolV?
    case I8 => v.IntV? && InRange(v.i, 8)
    case I16 => v.IntV? && InRange(v.i, 16)
    case I32 => v.IntV? && InRange(v.i, 32)
    case I64 => v.IntV? && InRange(v.i, 64)
    case Str => v.StrV?
    case Blob => v.BlobV?
  }

  /** `v` is a value of type `t`. */
  predicate Conforms(v: Value, t: DataType) {
    match t
    case Simple(k) => ConformsSimple(v, k)
    case Nullable(actual) => v == Null || Conforms(v, actual)
    case Collect(e) =>
      || (v.ListV? && forall x :: x in v.elements ==> Conforms(x, e))
      || (v.StringSetV? && StringElements(e))
    case Partial(_) => false
  }

  // ---------------------------------------------------------------------------
  // Writing (PrefWriterVisitor)

  /** The writer's `simple`: a nullable null is its sentinel, which no other value is written as. */
  function WriteSimple(c: Codecs, nullable: bool, k: Kind, v: Value): (stored: Stored)
    requires if nullable then v == Null || Conforms(v, Simple(k)) else Conforms(v, Simple(k))
    ensures nullable && v == Null ==> stored == NullSentinel(Simple(k))
    ensures v != Null ==> stored != NullSentinel(Simple(k))
  {
    if nullable && v == Null then
      if k in StoredAsString() then PBool(false) else PString("null")
    else
      match k
      case Bool => PBool(v.b)
      case I8 => PInt(v.i)
      case I16 => PInt(v.i)
      case I32 => PInt(v.i)
      case I64 => PLong(v.i)
      case Str => PString(v.s)
      case Blob => PString(c.encodeBase64(v.bytes))
  }

  /** The strings of a string collection, as `toSet()` collects them. */
  function StringsOf(v: Value): set<string>
    requires Conforms(v, Collect(Simple(Str)))
  {
    if v.StringSetV? then v.strings
    else set x | x in v.elements && x.StrV? :: x.s
  }

  /** The writer's `collection`: a nullable null is Boolean `false`, which no other value is written as. */
  function WriteCollection(c: Codecs, nullable: bool, collection: DataType, v: Value): (stored: Stored)
    requires collection.Collect?
    requires if nullable then v == Null || Conforms(v, collection) else Conforms(v, collection)
    ensures nullable && v == Null ==> stored == PBool(false)
    ensures v != Null ==> stored != PBool(false)
    ensures v != Null ==> (stored.PStringSet? <==> StringElements(collection.elementType))
  {
    if nullable && v == Null then PBool(false)
    else if StringElements(collection.elementType) then PStringSet(StringsOf(v))
    else PString(c.encodeBase64(c.encodeSerialized(collection, v)))
  }

  /** `DataType.put`: the representation the editor is given for a value of type `t`. */
  function Write(c: Codecs, t: DataType, v: Value): (stored: Stored)
    requires PrefType(t) && Conforms(v, t)
    ensures t == Simple(Bool) ==> stored == PBool(v.b)
    ensures t.Simple? && t.kind in {I8, I16, I32} ==> stored == PInt(v.i)
    ensures t == Simple(I64) ==> stored == PLong(v.i)
    ensures t == Simple(Str) ==> stored == PString(v.s)
    ensures t.Nullable? && v == Null ==> stored == NullSentinel(t.actualType)
  {
    match t
    case Simple(k) => WriteSimple(c, false, k, v)
    case Nullable(Simple(k)) => WriteSimple(c, true, k, v)
    case Collect(_) => WriteCollection(c, false, t, v)
    case Nullable(Collect(e)) => WriteCollection(c, true, Collect(e), v)
  }

  /** The stored form of `null` for a nullable type whose actual type is `actual`. */
  function NullSentinel(actual: DataType): (stored: Stored)
    ensures stored == PBool(false) || stored == PString("null")
    ensures stored == PString("null") <==> actual.Simple? && actual.kind !in {Str, Blob}
  {
    if actual.Simple? && actual.kind !in StoredAsString() then PString("null") else PBool(false)
  }

  // ---------------------------------------------------------------------------
  // Reading (PrefReaderVisitor)

  /**
   * The reader's `simple`: a nullable type reads its sentinel as null; otherwise the
   * stored form is cast to the kind's own, and a byte or short is range-checked.
   */
  function ReadSimple(c: Codecs, nullable: bool, k: Kind, arg: Stored): (r: Result<Value, PrefError>)
    ensures nullable && arg == NullSentinel(Simple(k)) ==> r == Success(Null)
    ensures r == Success(Null) ==> nullable && arg == NullSentinel(Simple(k))
    ensures r.Failure? && r.error.ClassCast? ==> !(nullable && arg == NullSentinel(Simple(k)))
  {
    if nullable && (if k in StoredAsString() then arg == PBool(false) else arg == PString("null")) then
      Success(Null)
    else
      match k
      case Bool => if arg.PBool? then Success(BoolV(arg.b)) else Failure(ClassCast("Boolean"))
      case I8 =>
        if !arg.PInt? then Failure(ClassCast("Int"))
        else if InRange(arg.i, 8) then Success(IntV(arg.i)) else Failure(OutOfRange(I8, arg.i))
      case I16 =>
        if !arg.PInt? then Failure(ClassCast("Int"))
        else if InRange(arg.i, 16) then Success(IntV(arg.i)) else Failure(OutOfRange(I16, arg.i))
      case I32 => if arg.PInt? then Success(IntV(arg.i)) else Failure(ClassCast("Int"))
      case I64 => if arg.PLong? then Success(IntV(arg.l)) else Failure(ClassCast("Long"))
      case Str => if arg.PString? then Success(StrV(arg.s)) else Failure(ClassCast("String"))
      case Blob =>
        if !arg.PString? then Failure(ClassCast("String"))
        else match c.decodeBase64(arg.s)
          case Some(bytes) => Success(BlobV(bytes))
          case None => Failure(BadBase64(arg.s))
  }

  /**
   * The reader's `collection`: a nullable type reads `false` as null; a string
   * collection must be a string set; anything else is decoded from one Base64 string.
   */
  function ReadCollection(c: Codecs, nullable: bool, collection: DataType, arg: Stored): (r: Result<Value, PrefError>)
    requires collection.Collect?
    ensures nullable && arg == PBool(false) ==> r == Success(Null)
    ensures StringElements(collection.elementType) && !(nullable && arg == PBool(false)) ==>
              (r.Success? <==> arg.PStringSet?) && (r.Success? ==> r.value == StringSetV(arg.strings))
  {
    if nullable && arg == PBool(false) then Success(Null)
    else if StringElements(collection.elementType) then
      if arg.PStringSet? then Success(StringSetV(arg.strings)) else Failure(ClassCast("Set"))
    else if !arg.PString? then Failure(ClassCast("String"))
    else match c.decodeBase64(arg.s)
      case None => Failure(BadBase64(arg.s))
      case Some(bytes) =>
        match c.decodeSerialized(collection, bytes)
        case Some(v) => Success(v)
        case None => Failure(BadSerialized)
  }

  /** The reader visitor, dispatched on the type the way `match` unwraps one `Nullable`. */
  function Read(c: Codecs, t: DataType, arg: Stored): (r: Result<Value, PrefError>)
    requires PrefType(t)
    ensures t.Nullable? && arg == NullSentinel(t.actualType) ==> r == Success(Null)
    ensures t.Simple? ==> r != Success(Null)
  {
    match t
    case Simple(k) => ReadSimple(c, false, k, arg)
    case Nullable(Simple(k)) => ReadSimple(c, true, k, arg)
    case Collect(_) => ReadCollection(c, false, t, arg)
    case Nullable(Collect(e)) => ReadCollection(c, true, Collect(e), arg)
  }

  /** The preferences file: `contains(key)` is `key in prefs`, and `all[key]` may be null. */
  type Preferences = map<string, Option<Stored>>

  /** The private `DataType.get`: `None` is `Unset`, for a missing key or a null entry. */
  function Get(c: Codecs, prefs: Preferences, t: DataType, key: string): (r: Result<Option<Value>, PrefError>)
    requires PrefType(t)
    ensures key !in prefs || prefs[key].None? ==> r == Success(None)
    ensures key in prefs && prefs[key].Some? ==>
              match Read(c, t, prefs[key].value)
              case Success(v) => r == Success(Some(v))
              case Failure(e) => r == Failure(e)
  {
    if key !in prefs then Success(None)
    else match prefs[key]
      case None => Success(None)
      case Some(arg) =>
        match Read(c, t, arg)
        case Success(v) => Success(Some(v))
        case Failure(e) => Failure(e)
  }

  /** `DataType.get(prefs, name, default)`: the stored value, or `default` for `Unset`. */
  function GetOrDefault(c: Codecs, prefs: Preferences, t: DataType, name: string, default: Value): (r: Result<Value, PrefError>)
    requires PrefType(t)
    ensures name !in prefs || prefs[name].None? ==> r == Success(default)
    ensures Get(c, prefs, t, name).Success? && Get(c, prefs, t, name).value.Some? ==>
              r == Success(Get(c, prefs, t, name).value.value)
    ensures Get(c, prefs, t, name).Failure? <==> r.Failure?
  {
    match Get(c, prefs, t, name)
    case Success(None) => Success(default)
    case Success(Some(v)) => Success(v)
    case Failure(e) => Failure(e)
  }

  /** `FieldDef.get(prefs)`: the stored value under the field's name, or the field's default. */
  function FieldGet(c: Codecs, prefs: Preferences, field: FieldDef): (r: Result<Option<Value>, PrefError>)
    requires PrefType(field.fieldType)
    ensures field.name !in prefs || prefs[field.name].None? ==> r == Success(field.default)
    ensures Get(c, prefs, field.fieldType, field.name).Success? && Get(c, prefs, field.fieldType, field.name).value.Some? ==>
              r == Success(Get(c, prefs, field.fieldType, field.name).value)
    ensures Get(c, prefs, field.fieldType, field.name).Failure? <==> r.Failure?
  {
    match Get(c, prefs, field.fieldType, field.name)
    case Success(None) => Success(field.default)
    case Success(Some(v)) => Success(Some(v))
    case Failure(e) => Failure(e)
  }

  // ---------------------------------------------------------------------------
  // Properties of the codec

  /** What a written value reads back as: itself, except that a string collection becomes its set. */
  function ReadBack(t: DataType, v: Value): Value
    requires Conforms(v, t)
  {
    match t
    case Collect(e) => if StringElements(e) then StringSetV(StringsOf(v)) else v
    case Nullable(Collect(e)) => if v != Null && StringElements(e) then StringSetV(StringsOf(v)) else v
    case _ => v
  }

  /** Every well-typed value, null included, reads back from what was written for it. */
  lemma RoundTrip(c: Codecs, t: DataType, v: Value)
    requires ValidCodecs(c) && PrefType(t) && Conforms(v, t)
    ensures Read(c, t, Write(c, t, v)) == Success(ReadBack(t, v))
  {
    match t
    case Simple(k) =>
    case Nullable(Simple(k)) =>
    case Collect(e) =>
      if !StringElements(e) {
        assert c.decodeSerialized(t, c.encodeSerialized(t, v)) == Some(v);
      }
    case Nullable(Collect(e)) =>
      if v != Null && !StringElements(e) {
        assert c.decodeSerialized(Collect(e), c.encodeSerialized(Collect(e), v)) == Some(v);
      }
  }

  /** Apart from string collections, the round trip is exact. */
  lemma ReadBackExact(t: DataType, v: Value)
    requires PrefType(t) && Conforms(v, t)
    requires !(t.Collect? && StringElements(t.elementType))
    requires !(t.Nullable? && t.actualType.Collect? && StringElements(t.actualType.elementType))
    ensures ReadBack(t, v) == v
  {
  }

  /** A nullable null is stored as its sentinel and reads back as null. */
  lemma NullRoundTrip(c: Codecs, t: DataType)
    requires PrefType(t) && t.Nullable?
    ensures Write(c, t, Null) == NullSentinel(t.actualType)
    ensures Read(c, t, NullSentinel(t.actualType)) == Success(Null)
  {
  }

  /** No non-null value of a nullable type is written as the null sentinel. */
  lemma SentinelNeverCollides(c: Codecs, t: DataType, v: Value)
    requires PrefType(t) && t.Nullable? && Conforms(v, t) && v != Null
    ensures Write(c, t, v) != NullSentinel(t.actualType)
  {
  }

  /** A non-nullable type ignores the sentinels: they are read as ordinary data. */
  lemma NonNullableIgnoresSentinel(c: Codecs, k: Kind)
    ensures k == Str ==> Read(c, Simple(k), PString("null")) == Success(StrV("null"))
    ensures k == Bool ==> Read(c, Simple(k), PBool(false)) == Success(BoolV(false))
    ensures k in {I32, I64} ==> Read(c, Simple(k), PString("null")).Failure?
  {
  }

  /** The string "null" in a nullable Str field is data, not null. */
  lemma NullStringIsNotNull(c: Codecs)
    ensures Write(c, Nullable(Simple(Str)), StrV("null")) == PString("null")
    ensures Read(c, Nullable(Simple(Str)), PString("null")) == Success(StrV("null"))
  {
  }

  /** Bytes and shorts are widened to Int on write and range-checked on read. */
  lemma NarrowIntegers(c: Codecs, k: Kind, i: int)
    requires k in {I8, I16}
    ensures var bits := if k == I8 then 8 else 16;
            && (InRange(i, bits) ==> Write(c, Simple(k), IntV(i)) == PInt(i))
            && (Read(c, Simple(k), PInt(i)).Success? <==> InRange(i, bits))
            && (Read(c, Simple(k), PInt(i)).Failure? ==> Read(c, Simple(k), PInt(i)).error == OutOfRange(k, i))
            && (InRange(i, bits) ==> Read(c, Simple(k), PInt(i)) == Success(IntV(i)))
  {
  }

  /** A string collection is stored as a string set; every other collection as one String. */
  lemma CollectionRepresentation(c: Codecs, e: DataType, v: Value)
    requires PrefType(Collect(e)) && Conforms(v, Collect(e))
    ensures StringElements(e) ==> Write(c, Collect(e), v).PStringSet?
    ensures !StringElements(e) ==> Write(c, Collect(e), v).PString?
    ensures !StringElements(e) ==> Write(c, Collect(e), v) == PString(c.encodeBase64(c.encodeSerialized(Collect(e), v)))
  {
  }

  /** `toSet()` on write loses a repeated string and the order of the elements. */
  lemma StringCollectionIsASet(c: Codecs)
    ensures var v := ListV([StrV("b"), StrV("a"), StrV("b")]);
            Read(c, Collect(Simple(Str)), Write(c, Collect(Simple(Str)), v)) == Success(StringSetV({"a", "b"}))
  {
    var v := ListV([StrV("b"), StrV("a"), StrV("b")]);
    assert StringsOf(v) == {"a", "b"} by {
      assert forall x :: x in v.elements ==> x.s in {"a", "b"};
      assert v.elements[0].s == "b" && v.elements[1].s == "a";
    }
  }

  /** A missing key, or a key holding null, yields the default on both getters. */
  lemma DefaultOnUnset(c: Codecs, prefs: Preferences, field: FieldDef, default: Value)
    requires PrefType(field.fieldType)
    requires field.name !in prefs || prefs[field.name].None?
    ensures Get(c, prefs, field.fieldType, field.name) == Success(None)
    ensures GetOrDefault(c, prefs, field.fieldType, field.name, default) == Success(default)
    ensures FieldGet(c, prefs, field) == Success(field.default)
  {
  }

  /** Writing a value under a key and reading it back with a default ignores the default. */
  lemma WrittenValueWinsOverDefault(c: Codecs, prefs: Preferences, t: DataType, key: string, v: Value, default: Value)
    requires ValidCodecs(c) && PrefType(t) && Conforms(v, t)
    ensures GetOrDefault(c, prefs[key := Some(Write(c, t, v))], t, key, default) == Success(ReadBack(t, v))
  {
    RoundTrip(c, t, v);
  }
}
