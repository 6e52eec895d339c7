# Lychee core, modelled in Dafny

Lychee is a Kotlin library of observable *properties* with a persistence layer. A
property is a single value that listeners can subscribe to; a struct is a
schema-described record; a table maps a struct schema onto SQL columns. This project
models the sequential core of those layers and proves what each operation promises.

| Dafny module (file) | Models |
|---|---|
| `Struct` (`struct.dfy`) | the shared vocabulary: simple kinds, data types, values, field definitions, schemas and partial structs |
| `Build` (`builder.dfy`) | the struct builder: an array with one slot per field plus a trailing schema slot, `Unset` for an empty slot, `get`/`set`/`setFrom`, `finish` with default lookup, the 64-bit `fieldsPresent` mask, `newBuilder`, `buildUpon`, `invoke` and `copy` |
| `Library` (`library.kt`'s revision of the SQL layer) | a table that registers columns while open and then freezes them on the first read of `columns`, checking for exactly one primary key and no repeated column; `idCol`; `transaction`; `col - value` |
| `Sql` (`sql.kt`'s revision of the SQL layer) | `withTransaction`, `require`, `Order` equality and hashing, the name-checking column list, flattening a schema into columns driven by relations, the cached name and index maps, `delegateFor`, `columnByLens`, the pre-commit and commit passes over a record's column values |
| `Prefs` (`prefs.dfy`) | the SharedPreferences codec: the null-sentinel scheme, the writer and reader visitors, the `Unset`-to-default getters |
| `Notify` (`notifier.dfy`) | the notifier base class: listener registration, wrapping into a `ConfinedChangeListener`, removal with cancellation, `isBeingObserved`, `pack`/`unpack`, `notify` |
| `Props` (`property.dfy`) | a property as a datatype (`Fixed`, a live `MutableProperty` cell, or a derived property) with its current value; `casValue` as a sequential compare-and-set |
| `Extensions`, `CommonExtensions`, `InlineExtensions` | `map`, `mapOn`, `mapWith`, `onEach`, `Just`, `Identity`, `Equals`, `readOnlyView`, `distinct`, `debounced`, the Boolean views, `set`/`clear`/`clearEachAnd`, the compare-and-set retry loops, the factories and the bulk list combinators |

`commonExtensions.kt` and `inlineExtensions.kt` declare the same `readOnlyView`,
`distinct`, `debounced`, `getAndUpdate`, `updateAndGet` and `update`. Each is modelled
once, and the table below cites one of the two copies. `commonExtensions.kt`'s `onEach`
(lines 33-43) is the same as the non-concurrent branch of `extensions.kt`'s `onEach`,
and `Extensions.OnEach` models both.

Modelling choices:
- Exceptions become `Failure` values that carry the exception's meaning. Examples are
  `NoSuchElement(ordinal)`, `AlreadyInitialized(table)` and `NotMutable(column)`.
- Foreign services are parameters:
  - the `Base64` and `serialized` codecs are a `Codecs` record with a validity predicate;
  - a transaction's `beginTransaction`, `setSuccessful` and `close` are outcomes passed in, and so is how the block ends: it returns, throws, or leaves the calling function through a non-local `return`, which an `inline` bracket's block may do;
  - the current thread's executor is passed in;
  - the `NamingConvention` is a function;
  - `relations()` is a table constructor parameter.
- The other writers a compare-and-set loop races with are a parameter. For each round
  it holds an optional write that lands between the round's read and its
  compare-and-set, and an optional write that lands after a failed compare-and-set,
  before the next read.
- A build or mutate block is a sequence of field writes.
- Identity checks (`===`) are Dafny reference equality on classes: `Order`, `FieldRef`,
  `Col`, `Listener` and `ConfinedChangeListener`.
- The commit passes return the effects they would apply to the record's managed
  properties (swap, commit, refresh) instead of calling classes that are not part of
  this model.
- In `preCommitValues`, the previous field values are a separate parameter standing
  for `columnValues.last()`.
- Field ordinals equal field positions.
- A field's ordinal is below 128, because it is a Kotlin `Byte`. Only `Order`'s hash
  lemmas state this requirement; nothing else needs it.

In `-Notifier.kt` (lines 46-58), `addChangeListenerOn` skips the wrapper for the
current thread's own executor only in the thread-confined branch: a concurrent
notifier skips the wrapper only for the unconfined executor.
`Notify.Notifier.AddChangeListenerOn` states this behaviour.

## Model

| member | source | states |
|---|---|---|
| `Build.StructBuilder.NewBuilder` | persistence/src/main/kotlin/net/aquadc/persistence/struct/builder.kt:36-42 | the array has one slot per field plus one; every field slot is `Unset` and the last slot holds the schema |
| `Build.StructBuilder.BuildUpon` | persistence/src/main/kotlin/net/aquadc/persistence/struct/builder.kt:45-55 | slot `i` holds the source's value exactly when field `i` is both in the source and in the requested set, otherwise `Unset`; the last slot holds the source's schema |
| `Build.StructBuilder.Get` | persistence/src/main/kotlin/net/aquadc/persistence/struct/builder.kt:76-80 | succeeds exactly when the slot is not `Unset` and returns the slot's value; on an `Unset` slot it fails with `NoSuchElement` for that field |
| `Build.StructBuilder.Set` | persistence/src/main/kotlin/net/aquadc/persistence/struct/builder.kt:85-87 | the field's slot holds the value and every other slot, the schema slot included, is unchanged |
| `Build.StructBuilder.SetFrom` | persistence/src/main/kotlin/net/aquadc/persistence/struct/builder.kt:94-102 | returns exactly the intersection of the source's fields and the requested fields, writes each of those slots from the source, and leaves every other slot and the schema slot unchanged |
| `Build.StructBuilder.Finish` | persistence/src/main/kotlin/net/aquadc/persistence/struct/builder.kt:108-120 | without default search the slots are untouched and the snapshot captures the same array; with it, finishing succeeds exactly when every `Unset` field has a default, afterwards no field slot is `Unset`, set slots keep their values, and on failure the error names the first unset field without a default, the slots before it are filled and the rest untouched; the schema slot never changes |
| `Build.StructBuilder.FieldsPresent` | persistence/src/main/kotlin/net/aquadc/persistence/struct/builder.kt:122-132 | bit `i` of the mask is set exactly when field slot `i` is not `Unset`, for every field below 64; no bit at or above the field count is set, so the schema slot is never counted |
| `Build.InMaskOr` | persistence/src/main/kotlin/net/aquadc/persistence/struct/builder.kt:126-128 | `set or field` adds exactly bit `i` to the mask |
| `Build.SingleShift` | persistence/src/main/kotlin/net/aquadc/persistence/struct/builder.kt:129 | `field shl 1` moves the single bit up by one; the bit is lost after the 64th position |
| `Build.EmptyMask` | persistence/src/main/kotlin/net/aquadc/persistence/struct/builder.kt:123 | the initial mask `0L` holds no field |
| `Build.NewStruct` | persistence/src/main/kotlin/net/aquadc/persistence/struct/builder.kt:13-22 | building succeeds exactly when every field the block did not write has a default; each slot then holds the field's last written value or its default, and the last slot holds the schema |
| `Build.Copy` | persistence/src/main/kotlin/net/aquadc/persistence/struct/builder.kt:27-33 | every field holds its last value written by `mutate`, and every field `mutate` did not write keeps the source's value; the last slot holds the schema |
| `Build.ApplyWrites` | persistence/src/main/kotlin/net/aquadc/persistence/struct/builder.kt:19-20 | a block's writes leave each field slot with the field's last written value, or its previous content when the block never wrote it; the schema slot is unchanged |
| `Library.Col.constructor` | sql/src/main/kotlin/net/aquadc/properties/sql/library.kt:110-115 | a column holds the four given attributes |
| `Library.Validate` | sql/src/main/kotlin/net/aquadc/properties/sql/library.kt:60-77 | the freeze check succeeds exactly when the registrations are pairwise distinct and exactly one is a primary key, and it returns that primary key; a duplicate-primary-key failure implies two primary keys, a duplicate-column failure implies a repeated column, and no-primary-key is reported exactly when the columns are distinct and none is a primary key |
| `Library.PkCountOne` | sql/src/main/kotlin/net/aquadc/properties/sql/library.kt:65-68 | two primary-key registrations make the count at least two |
| `Library.UniquePrimaryKey` | sql/src/main/kotlin/net/aquadc/properties/sql/library.kt:65-69 | when exactly one registration is a primary key, any two primary-key positions are equal |
| `Library.Table.constructor` | sql/src/main/kotlin/net/aquadc/properties/sql/library.kt:45-50 | a new table is open, with an empty registration list, and not frozen |
| `Library.Table.Col0` | sql/src/main/kotlin/net/aquadc/properties/sql/library.kt:99-104 | while the table is open, one fresh column with the given attributes is appended at the end of the registration list and returned; once it is closed, the call fails with `AlreadyInitialized` and changes nothing |
| `Library.Table.NullableCol` | sql/src/main/kotlin/net/aquadc/properties/sql/library.kt:90-91 | registers a nullable, non-key column as `col0` does |
| `Library.Table.NonNullCol` | sql/src/main/kotlin/net/aquadc/properties/sql/library.kt:93-94 | registers a non-null, non-key column as `col0` does |
| `Library.Table.IdColNamed` | sql/src/main/kotlin/net/aquadc/properties/sql/library.kt:96-97 | registers a non-null primary-key column of the table's id type as `col0` does |
| `Library.Table.Columns` | sql/src/main/kotlin/net/aquadc/properties/sql/library.kt:59-81 | a frozen table returns its frozen columns and changes nothing. The first read succeeds exactly when exactly one registration is a primary key. On success it returns the registrations in order, freezes them and closes registration. On failure it reports a duplicate or missing primary key and changes nothing |
| `Library.Table.IdCol` | sql/src/main/kotlin/net/aquadc/properties/sql/library.kt:85-87 | reading `idCol` forces the freeze; it succeeds exactly when the table is then frozen and returns a primary-key column of the frozen list |
| `Library.FrozenIdColUnique` | sql/src/main/kotlin/net/aquadc/properties/sql/library.kt:65-77 | after a successful freeze, the recorded id column is the only primary-key column |
| `Library.Transaction` | sql/src/main/kotlin/net/aquadc/properties/sql/library.kt:17-25 | a throwing `beginTransaction` is the whole run and its exception the result, with nothing closed; otherwise the block runs right after begin and `close` is the last call; an exception from `close` is the result; otherwise a throwing block or an early exit from it is passed on |
| `Library.TransactionClosesOnce` | sql/src/main/kotlin/net/aquadc/properties/sql/library.kt:17-25 | `close` is called exactly when `beginTransaction` returned, and then exactly once and last, whether the block returns, throws or exits early |
| `Library.TransactionSuccessfulIffBlockReturns` | sql/src/main/kotlin/net/aquadc/properties/sql/library.kt:17-25 | `setSuccessful` is called, and at most once, exactly when the transaction began and the block returned normally |
| `Library.TransactionResult` | sql/src/main/kotlin/net/aquadc/properties/sql/library.kt:17-25 | the bracket returns normally exactly when `beginTransaction`, the block, `setSuccessful` and `close` all do; it passes an early exit on exactly when the transaction began, the block exited early and `close` did not throw; the block's exception propagates when `close` succeeds |
| `Library.TransactionEarlyExitRollsBack` | sql/src/main/kotlin/net/aquadc/properties/sql/library.kt:17-25 | a non-local `return` from the block closes the transaction without calling `setSuccessful` |
| `Library.Minus` | sql/src/main/kotlin/net/aquadc/properties/sql/library.kt:37-43 | `col - value` holds exactly that column and that value |
| `Sql.WithTransaction` | sql/src/main/kotlin/net/aquadc/properties/sql/sql.kt:81-94 | a throwing `beginTransaction` closes nothing and is the result; otherwise the block runs after begin and `close` is called once, last; `setSuccessful` is called exactly when the transaction began and the block returned; the block's result is returned exactly when begin, the block, `setSuccessful` and `close` succeed; an early exit from the block is passed on exactly when `close` succeeds; an exception from `close` wins, otherwise the block's exception propagates |
| `Sql.Require` | sql/src/main/kotlin/net/aquadc/properties/sql/sql.kt:96-97 | returns what `find` found, and fails with `NoSuchRecord(id)` exactly when `find` found nothing |
| `Sql.Order.constructor` | sql/src/main/kotlin/net/aquadc/properties/sql/sql.kt:163-166 | an order holds its column and direction |
| `Sql.Order.HashCode` | sql/src/main/kotlin/net/aquadc/properties/sql/sql.kt:169-170 | an ascending order hashes to its ordinal; a descending order on an ordinal below 256 hashes to 256 plus the ordinal |
| `Sql.Order.Equals` | sql/src/main/kotlin/net/aquadc/properties/sql/sql.kt:172-174 | an order equals itself, and two orders are equal exactly when they have the same column object and the same direction, so two `asc` orders on one field are equal |
| `Sql.Asc` | sql/src/main/kotlin/net/aquadc/properties/sql/sql.kt:178-179 | a new ascending order on the field |
| `Sql.Desc` | sql/src/main/kotlin/net/aquadc/properties/sql/sql.kt:181-182 | a new descending order on the field |
| `Sql.OrderEqualsIsEquivalence` | sql/src/main/kotlin/net/aquadc/properties/sql/sql.kt:172-174 | `equals` is reflexive, symmetric and transitive |
| `Sql.HashIsOrdinalAndDirection` | sql/src/main/kotlin/net/aquadc/properties/sql/sql.kt:169-170 | `(if desc 0x100 else 0) or ordinal` is the ordinal plus 256 for a descending order |
| `Sql.EqualOrdersHashEqually` | sql/src/main/kotlin/net/aquadc/properties/sql/sql.kt:169-174 | equal orders have equal hash codes |
| `Sql.HashDeterminesOrdinalAndDirection` | sql/src/main/kotlin/net/aquadc/properties/sql/sql.kt:169-170 | equal hash codes mean the same direction and the same ordinal, although possibly different columns |
| `Sql.OrHighBit` | sql/src/main/kotlin/net/aquadc/properties/sql/sql.kt:170 | or-ing a power of two above a smaller number adds it |
| `Sql.Append` | sql/src/main/kotlin/net/aquadc/properties/sql/sql.kt:247-252 | adding succeeds exactly when the name is neither blank nor already present, and then appends the column; a blank name and a duplicate name fail with their own errors; distinct names stay distinct |
| `Sql.DistinctNamesDistinctColumns` | sql/src/main/kotlin/net/aquadc/properties/sql/sql.kt:245-253 | a list whose names are distinct has pairwise distinct names and pairwise distinct columns |
| `Sql.CheckNamesList.constructor` | sql/src/main/kotlin/net/aquadc/properties/sql/sql.kt:245-246 | a new list has no columns and no names |
| `Sql.CheckNamesList.Add` | sql/src/main/kotlin/net/aquadc/properties/sql/sql.kt:247-252 | accepts exactly when `Append` does, and then holds `Append`'s result; a rejection leaves the list and its names unchanged |
| `Sql.PathOf` | sql/src/main/kotlin/net/aquadc/properties/sql/sql.kt:266-268 | a field's path ends with the field; at the top level it is the field itself |
| `Sql.FieldPaths` | sql/src/main/kotlin/net/aquadc/properties/sql/sql.kt:309-311 | the lenses a nested embed returns are the fields' paths, one per field, in field order |
| `Sql.RelationMap` | sql/src/main/kotlin/net/aquadc/properties/sql/sql.kt:229-231 | the relation map's keys are exactly the declared relations' paths |
| `Sql.AddTo` | sql/src/main/kotlin/net/aquadc/properties/sql/sql.kt:307 | `outColumns.add` appends the column or fails as `CheckNamesList.add` does; nothing else changes |
| `Sql.EmbedFields` | sql/src/main/kotlin/net/aquadc/properties/sql/sql.kt:256-312 | embedding only appends columns, only consumes relations, and only adds delegates for relations it consumed |
| `Sql.EmbedField` | sql/src/main/kotlin/net/aquadc/properties/sql/sql.kt:264-310 | one field's step keeps the same growth invariant |
| `Sql.EmbedStruct` | sql/src/main/kotlin/net/aquadc/properties/sql/sql.kt:280-305 | the struct-typed branch keeps the same growth invariant |
| `Sql.EmbedFieldsKeepNamesDistinct` | sql/src/main/kotlin/net/aquadc/properties/sql/sql.kt:256-312 | a successful embed keeps the column names distinct |
| `Sql.EmbedFieldKeepsNamesDistinct` | sql/src/main/kotlin/net/aquadc/properties/sql/sql.kt:264-310 | one field's step keeps the column names distinct |
| `Sql.EmbedStructKeepsNamesDistinct` | sql/src/main/kotlin/net/aquadc/properties/sql/sql.kt:286-301 | an embedded struct keeps the column names distinct |
| `Sql.FailurePersists` | sql/src/main/kotlin/net/aquadc/properties/sql/sql.kt:264-265 | an exception thrown for one field ends the loop: later fields do not change the outcome |
| `Sql.Flattening.Embed` | sql/src/main/kotlin/net/aquadc/properties/sql/sql.kt:256-312 | the loop over a schema's fields succeeds exactly when `EmbedFields` does, and then leaves `EmbedFields`' columns, relations and delegates; it returns no lens at the top level and the fields' paths below it; a failure is `EmbedFields`' failure |
| `Sql.Flattening.EmbedOne` | sql/src/main/kotlin/net/aquadc/properties/sql/sql.kt:265-309 | one iteration agrees with `EmbedField` and yields the field's path |
| `Sql.Flattening.EmbedStructField` | sql/src/main/kotlin/net/aquadc/properties/sql/sql.kt:280-305 | the struct-typed branch agrees with `EmbedStruct` |
| `Sql.Flatten` | sql/src/main/kotlin/net/aquadc/properties/sql/sql.kt:228-243 | a successful flattening has consumed every relation, has distinct column names, puts the synthetic PK lens first when there is no PK field, and records delegates only for declared relations |
| `Sql.FlattenTable` | sql/src/main/kotlin/net/aquadc/properties/sql/sql.kt:228-243 | the lazy `_columns` block computes `Flatten` |
| `Sql.PlainFieldStep` | sql/src/main/kotlin/net/aquadc/properties/sql/sql.kt:306-308 | a field that is not struct-typed, embedded after a successful prefix, adds its own path to the column list through `add` and nothing else |
| `Sql.PlainFieldsGiveOneColumnEach` | sql/src/main/kotlin/net/aquadc/properties/sql/sql.kt:306-308 | when no field before position k is struct-typed, a successful embedding of those fields appends exactly their paths, one column each, in field order, and changes nothing else |
| `Sql.PlainFieldColumnPresent` | sql/src/main/kotlin/net/aquadc/properties/sql/sql.kt:306-308 | every field that is not struct-typed has its path among the columns |
| `Sql.StructFieldConsumesItsRelation` | sql/src/main/kotlin/net/aquadc/properties/sql/sql.kt:280-301 | a struct-typed field without a relation fails with `MissingRelation`; on success its `Embedded` relation is consumed, its delegate is recorded over exactly the columns added for it, and the field-set column exists exactly when the relation names one and then comes first |
| `Sql.DelegatesOnlyForRelations` | sql/src/main/kotlin/net/aquadc/properties/sql/sql.kt:297-300 | no lens outside the declared relations gets a delegate |
| `Sql.IndexMap` | sql/src/main/kotlin/net/aquadc/properties/sql/sql.kt:330-338 | the index map's keys are exactly the columns, each maps to a position holding it, and for distinct columns `columnIndices[columns[i]] == i` |
| `Sql.NameMap` | sql/src/main/kotlin/net/aquadc/properties/sql/sql.kt:321-327 | the name map's keys are exactly the column names, each names a column of that name, and for distinct names each column's name maps to that column |
| `Sql.IndexColumns` | sql/src/main/kotlin/net/aquadc/properties/sql/sql.kt:334-337 | the `forEachIndexed` loop computes `IndexMap` |
| `Sql.NameColumns` | sql/src/main/kotlin/net/aquadc/properties/sql/sql.kt:325-326 | the `associateByTo` loop computes `NameMap` |
| `Sql.ColumnMapsInvert` | sql/src/main/kotlin/net/aquadc/properties/sql/sql.kt:321-338 | for a table's flattened columns, the index map inverts the column list and the name map inverts the names |
| `Sql.PkColumnAsWritten` | sql/src/main/kotlin/net/aquadc/properties/sql/sql.kt:317-318 | `pkColumn` as written is the first column |
| `Sql.PrimaryKeyColumn` | sql/src/main/kotlin/net/aquadc/properties/sql/sql.kt:317-318 | the primary-key column is the synthetic PK lens without a PK field, and the PK field's own column otherwise |
| `Sql.PkColumnIsAColumn` | sql/src/main/kotlin/net/aquadc/properties/sql/sql.kt:233-235 | the primary-key column is among the flattened columns; without a PK field it is the first one, as written |
| `Sql.PkColumnAsWrittenMissesSecondField` | sql/src/main/kotlin/net/aquadc/properties/sql/sql.kt:317-318 | for a schema whose PK field is not the first field, the first column is another field's column |
| `Sql.PreCommitPass` | sql/src/main/kotlin/net/aquadc/properties/sql/sql.kt:348-378 | the scratch set only grows during the pre-commit pass, and a pass that completes had a value slot for every column |
| `Sql.PreCommitStep` | sql/src/main/kotlin/net/aquadc/properties/sql/sql.kt:351-375 | one pre-commit iteration only adds to the scratch set |
| `Sql.CommitPass` | sql/src/main/kotlin/net/aquadc/properties/sql/sql.kt:379-400 | the scratch set only grows during the commit pass, and a pass that completes had a value slot for every column |
| `Sql.CommitStep` | sql/src/main/kotlin/net/aquadc/properties/sql/sql.kt:381-397 | one commit iteration only adds to the scratch set |
| `Sql.CommitPassSucceedsIff` | sql/src/main/kotlin/net/aquadc/properties/sql/sql.kt:379-400 | the commit pass fails exactly when a value slot is missing or a set slot belongs to a column that is neither a mutable field nor below one |
| `Sql.CommitPassDeduplicates` | sql/src/main/kotlin/net/aquadc/properties/sql/sql.kt:381-397 | each telescope's first lens is refreshed at most once and only if it was not already in the scratch set; every lens the pass adds to the scratch set is refreshed; every set mutable field's value is committed; every set telescope's first lens ends in the scratch set and is refreshed unless it was there at the start; every effect comes from a set slot of its own column, so an `Unset` slot gives none |
| `Sql.CommitPassRefreshesOnce` | sql/src/main/kotlin/net/aquadc/properties/sql/sql.kt:381-397 | each telescope's first lens is refreshed at most once, only if it was not in the scratch set at the start, and every lens the pass adds to the scratch set is refreshed |
| `Sql.CommitPassCovers` | sql/src/main/kotlin/net/aquadc/properties/sql/sql.kt:381-397 | every set mutable field's value is committed, and every set telescope's first lens ends in the scratch set and is refreshed unless it was there at the start |
| `Sql.CommitStepFromSlot` | sql/src/main/kotlin/net/aquadc/properties/sql/sql.kt:381-397 | one commit iteration only appends effects, and only ones its own set slot gives |
| `Sql.CommitEffectsFromSetSlots` | sql/src/main/kotlin/net/aquadc/properties/sql/sql.kt:381-397 | every commit or refresh comes from a set slot: a commit from that mutable field's slot with its value, a refresh from a telescope below that first lens |
| `Sql.AllUnsetNoEffects` | sql/src/main/kotlin/net/aquadc/properties/sql/sql.kt:352 | when every slot is `Unset`, both passes do nothing |
| `Sql.PreCommitSwapsOnce` | sql/src/main/kotlin/net/aquadc/properties/sql/sql.kt:351-375 | the pre-commit pass swaps each first lens at most once, only with previous values present, only where the previous value is set, and with that value; without previous values it swaps nothing; every swap comes from a set slot of a telescope below that lens, so an `Unset` slot gives none |
| `Sql.PreCommitSwapsEvery` | sql/src/main/kotlin/net/aquadc/properties/sql/sql.kt:358-371 | every set telescope's first lens that was not in the scratch set is added to it, has a slot among the previous values when there are any, and is swapped with that slot's value when the slot is set |
| `Sql.PreCommitStepFromSlot` | sql/src/main/kotlin/net/aquadc/properties/sql/sql.kt:351-375 | one pre-commit iteration only appends effects, and only ones its own set slot gives |
| `Sql.PreCommitEffectsFromSetSlots` | sql/src/main/kotlin/net/aquadc/properties/sql/sql.kt:351-375 | every swap comes from a set slot of a telescope below the swapped lens |
| `Sql.PreCommitPassSucceedsIff` | sql/src/main/kotlin/net/aquadc/properties/sql/sql.kt:348-378 | the pre-commit pass fails exactly when a value slot is missing, a set slot belongs to a column that is neither a mutable field nor below one, or a set telescope whose first lens is not yet in the scratch set finds no slot for it among the previous values |
| `Sql.PassFailurePersists` | sql/src/main/kotlin/net/aquadc/properties/sql/sql.kt:373 | an `AssertionError` ends a pass: later columns do not change the outcome |
| `Sql.PreCommitLoop` | sql/src/main/kotlin/net/aquadc/properties/sql/sql.kt:348-378 | the loop agrees with `PreCommitPass`; a pass that completes empties the scratch set, and a failed pass leaves it holding at least what it held before |
| `Sql.CommitLoop` | sql/src/main/kotlin/net/aquadc/properties/sql/sql.kt:379-400 | the loop agrees with `CommitPass`; a pass that completes empties the scratch set, and a failed pass leaves it holding at least what it held before |
| `Sql.Table.Primary` | sql/src/main/kotlin/net/aquadc/properties/sql/sql.kt:191-200 | the private constructor stores its arguments and computes nothing yet |
| `Sql.Table.constructor` | sql/src/main/kotlin/net/aquadc/properties/sql/sql.kt:207-208 | a table with a synthetic id column has no PK field |
| `Sql.TableWithPk` | sql/src/main/kotlin/net/aquadc/properties/sql/sql.kt:210-213 | the PK-field constructor succeeds exactly when the field's type is simple, uses the field's name and kind for the id column, and otherwise fails with `PkNotSimple` |
| `Sql.Table.Columns` | sql/src/main/kotlin/net/aquadc/properties/sql/sql.kt:314-315 | `columns` succeeds exactly when flattening does, returns its columns and caches them and the delegates; a failure caches nothing |
| `Sql.Table.DelegateFor` | sql/src/main/kotlin/net/aquadc/properties/sql/sql.kt:340-343 | the delegate flattening recorded for the lens, `Simple` for any other lens |
| `Sql.Table.ColumnsByName` | sql/src/main/kotlin/net/aquadc/properties/sql/sql.kt:321-327 | the name map of the table's columns, cached after the first computation |
| `Sql.Table.ColumnIndices` | sql/src/main/kotlin/net/aquadc/properties/sql/sql.kt:330-338 | the index map of the table's columns, cached after the first computation |
| `Sql.Table.ColumnByLens` | sql/src/main/kotlin/net/aquadc/properties/sql/sql.kt:344-345 | a column is found exactly when the lens is one of the columns, and it is the lens itself |
| `Sql.Table.PkColumn` | sql/src/main/kotlin/net/aquadc/properties/sql/sql.kt:317-318 | the corrected `pkColumn`: the primary-key column, which is one of the table's columns |
| `Sql.Table.PreCommitValues` | sql/src/main/kotlin/net/aquadc/properties/sql/sql.kt:348-378 | the pre-commit pass over the table's columns, with flattening's failure propagated |
| `Sql.Table.CommitValues` | sql/src/main/kotlin/net/aquadc/properties/sql/sql.kt:379-400 | the commit pass over the table's columns, with flattening's failure propagated |
| `Prefs.StoredAsString` | android-bindings/src/main/kotlin/net/aquadc/properties/android/persistence/pref/types.kt:33-34 | the kinds stored as strings are exactly Str and Blob |
| `Prefs.WriteSimple` | android-bindings/src/main/kotlin/net/aquadc/properties/android/persistence/pref/types.kt:86-103 | a nullable null of a simple kind is written as its sentinel, and no non-null value is written as that sentinel |
| `Prefs.WriteCollection` | android-bindings/src/main/kotlin/net/aquadc/properties/android/persistence/pref/types.kt:105-115 | a nullable null collection is written as `false`, no non-null collection is, and a non-null collection is a string set exactly when its elements are strings |
| `Prefs.NullSentinel` | android-bindings/src/main/kotlin/net/aquadc/properties/android/persistence/pref/types.kt:27-34 | the sentinel is `false` or `"null"`, and it is `"null"` exactly for simple kinds other than Str and Blob |
| `Prefs.Write` | android-bindings/src/main/kotlin/net/aquadc/properties/android/persistence/pref/types.kt:79-115 | Bool, I8/I16/I32, I64 and Str values are written with `putBoolean`, `putInt`, `putLong` and `putString` of the value; a nullable null is written as its sentinel |
| `Prefs.ReadSimple` | android-bindings/src/main/kotlin/net/aquadc/properties/android/persistence/pref/types.kt:50-64 | a simple kind reads null exactly when the type is nullable and the stored value is its sentinel; such a sentinel is never a cast failure |
| `Prefs.ReadCollection` | android-bindings/src/main/kotlin/net/aquadc/properties/android/persistence/pref/types.kt:66-75 | a nullable collection reads `false` as null; otherwise a string collection reads exactly a stored string set, as that set |
| `Prefs.Read` | android-bindings/src/main/kotlin/net/aquadc/properties/android/persistence/pref/types.kt:48-77 | a nullable type reads its sentinel as null, and a non-nullable simple type never reads null |
| `Prefs.Get` | android-bindings/src/main/kotlin/net/aquadc/properties/android/persistence/pref/types.kt:37-46 | a missing key, or a key holding null, reads as `Unset`; otherwise the reader visitor's result or its error |
| `Prefs.GetOrDefault` | android-bindings/src/main/kotlin/net/aquadc/properties/android/persistence/pref/types.kt:22-25 | `Unset` gives the default, a stored value is returned, and it fails exactly when reading fails |
| `Prefs.FieldGet` | android-bindings/src/main/kotlin/net/aquadc/properties/android/persistence/pref/types.kt:17-20 | `Unset` gives the field's default, a stored value is returned, and it fails exactly when reading fails |
| `Prefs.RoundTrip` | android-bindings/src/main/kotlin/net/aquadc/properties/android/persistence/pref/types.kt:48-115 | every well-typed value, null included, reads back from what the writer stored for it, a string collection as its set |
| `Prefs.ReadBackExact` | android-bindings/src/main/kotlin/net/aquadc/properties/android/persistence/pref/types.kt:50-64 | apart from string collections the round trip gives back the value itself |
| `Prefs.NullRoundTrip` | android-bindings/src/main/kotlin/net/aquadc/properties/android/persistence/pref/types.kt:86-90 | a nullable null is written as `false` for Str, Blob and collections and as `"null"` for the other kinds, and the reader maps that sentinel back to null |
| `Prefs.SentinelNeverCollides` | android-bindings/src/main/kotlin/net/aquadc/properties/android/persistence/pref/types.kt:27-34 | no non-null value of a nullable type is written as its null sentinel |
| `Prefs.NonNullableIgnoresSentinel` | android-bindings/src/main/kotlin/net/aquadc/properties/android/persistence/pref/types.kt:50-52 | a non-nullable type reads the sentinels as data, or fails on a sentinel of the wrong representation |
| `Prefs.NullStringIsNotNull` | android-bindings/src/main/kotlin/net/aquadc/properties/android/persistence/pref/types.kt:51 | the string `"null"` in a nullable Str field is data, not null |
| `Prefs.NarrowIntegers` | android-bindings/src/main/kotlin/net/aquadc/properties/android/persistence/pref/types.kt:56-57 | bytes and shorts are widened to Int on write and range-checked on read, failing with `OutOfRange` exactly outside the range |
| `Prefs.CollectionRepresentation` | android-bindings/src/main/kotlin/net/aquadc/properties/android/persistence/pref/types.kt:109-114 | a string collection is stored as a string set, any other collection as one Base64 string of its serialized form |
| `Prefs.StringCollectionIsASet` | android-bindings/src/main/kotlin/net/aquadc/properties/android/persistence/pref/types.kt:111 | `toSet()` drops a repeated string and the order of the elements |
| `Prefs.DefaultOnUnset` | android-bindings/src/main/kotlin/net/aquadc/properties/android/persistence/pref/types.kt:17-25 | a missing or null key reads as `Unset`, and both getters return the default |
| `Prefs.WrittenValueWinsOverDefault` | android-bindings/src/main/kotlin/net/aquadc/properties/android/persistence/pref/types.kt:22-25 | after a value is written under a key, the default-taking getter returns the value read back |
| `Notify.Notifier.constructor` | properties/src/main/kotlin/net/aquadc/properties/internal/-Notifier.kt:15-19 | `thread` is absent exactly for a concurrent notifier and is the creating thread otherwise; there is no listener |
| `Notify.Notifier.IsBeingObserved` | properties/src/main/kotlin/net/aquadc/properties/internal/-Notifier.kt:21-32 | true exactly when some slot holds a listener; an empty confined store is false and a single confined listener is true |
| `Notify.AnyPresent` | properties/src/main/kotlin/net/aquadc/properties/internal/-Notifier.kt:29 | `any { it != null }` over the slots |
| `Notify.ObservedIffLive` | properties/src/main/kotlin/net/aquadc/properties/internal/-Notifier.kt:21-32 | being observed is the same as holding at least one live listener |
| `Notify.Notifier.AddChangeListener` | properties/src/main/kotlin/net/aquadc/properties/internal/-Notifier.kt:34-44 | one slot is appended and the others are unchanged; a confined notifier stores the raw listener, a concurrent one stores a fresh, uncanceled wrapper of it on the current thread's executor |
| `Notify.Notifier.AddChangeListenerOn` | properties/src/main/kotlin/net/aquadc/properties/internal/-Notifier.kt:46-58 | one slot is appended and the others are unchanged; the raw listener is stored for the unconfined executor in both modes and, in a confined notifier, also for the current thread's executor; otherwise a fresh, uncanceled wrapper on the given executor |
| `Notify.FirstMatch` | properties/src/main/kotlin/net/aquadc/properties/internal/-Notifier.kt:65-76 | the first slot that holds the listener or a wrapper of it, or none when no slot does |
| `Notify.Notifier.RemoveChangeListener` | properties/src/main/kotlin/net/aquadc/properties/internal/-Notifier.kt:60-77 | without a match nothing changes; otherwise exactly the first matching entry is removed, whatever executor it was added on, a matched wrapper is canceled, and no other wrapper's flag changes |
| `Notify.AddedListenerIsFound` | properties/src/main/kotlin/net/aquadc/properties/internal/-Notifier.kt:60-77 | a listener just added, bare or wrapped, is found by removal, in its own slot when nothing earlier matches |
| `Notify.ConfinedChangeListener.constructor` | properties/src/main/kotlin/net/aquadc/properties/internal/-Notifier.kt:50 | a new wrapper holds the executor and the listener and is not canceled |
| `Notify.Pack` | properties/src/main/kotlin/net/aquadc/properties/internal/-Notifier.kt:79-80 | `pack` is the new value; the diff is dropped |
| `Notify.UnpackValue` | properties/src/main/kotlin/net/aquadc/properties/internal/-Notifier.kt:82-83 | `unpackValue` is the packed value |
| `Notify.UnpackDiff` | properties/src/main/kotlin/net/aquadc/properties/internal/-Notifier.kt:85-86 | `unpackDiff` is always null |
| `Notify.PackRoundTrip` | properties/src/main/kotlin/net/aquadc/properties/internal/-Notifier.kt:79-86 | unpacking a packed update gives back the new value and a null diff |
| `Notify.Deliver` | properties/src/main/kotlin/net/aquadc/properties/internal/-Notifier.kt:88-89 | the listener is invoked with exactly `(old, new)` |
| `Props.MutableProperty.constructor` | properties/src/main/kotlin/net/aquadc/properties/inlineExtensions.kt:188-190 | a new cell holds the value in the requested mode and has notified nothing |
| `Props.MutableProperty.Set` | properties/src/main/kotlin/net/aquadc/properties/inlineExtensions.kt:326-328 | the value setter stores the value and schedules one `(old, new)` notification |
| `Props.MutableProperty.CasValue` | properties/src/main/kotlin/net/aquadc/properties/inlineExtensions.kt:150 | the sequential compare-and-set named on the concurrency line of "## Left out": it succeeds exactly when the held value equals the expected one, then stores the new value and notifies; on failure nothing changes. The cited line is the retry loop's call site; the mutable property classes that implement `casValue` are not part of this model |
| `Props.Values` | properties/src/main/kotlin/net/aquadc/properties/inlineExtensions.kt:227-229 | the sources' current values, one per source, in collection order |
| `Extensions.Map` | properties/src/main/kotlin/net/aquadc/properties/extensions.kt:13-16 | a fixed source gives a fixed property of the transformed value; a live source gives a mapped property of it on the in-place worker |
| `Extensions.MapOn` | properties/src/main/kotlin/net/aquadc/properties/extensions.kt:23-26 | the same fixed-or-live split, with the given worker |
| `Extensions.MapValue` | properties/src/main/kotlin/net/aquadc/properties/extensions.kt:13-26 | both give the transformed current value, and for a fixed source the worker makes no difference |
| `Extensions.MapWith` | properties/src/main/kotlin/net/aquadc/properties/extensions.kt:31-44 | the result may change exactly when a side may; two live sides give a bi-mapped property over them, two fixed sides the fixed transform of their values, and one live side a mapped property over that side |
| `Extensions.MapWithValue` | properties/src/main/kotlin/net/aquadc/properties/extensions.kt:31-44 | whatever the sides, the combined value is the transform of both values, and the result may change exactly when a side may |
| `Extensions.MapWithFixed` | properties/src/main/kotlin/net/aquadc/properties/extensions.kt:35-38 | two fixed sides combine into the fixed transform of their values |
| `Extensions.MapWithOneFixed` | properties/src/main/kotlin/net/aquadc/properties/extensions.kt:35-42 | with exactly one side fixed, its value is captured and the other side is mapped on the in-place worker |
| `Extensions.OnEach` | properties/src/main/kotlin/net/aquadc/properties/extensions.kt:72-75 | `func` sees the initial value and then every later written value, in order, each forwarded by the registered listener from its notification; the cell ends on the last value |
| `CommonExtensions.Just` | properties/src/main/kotlin/net/aquadc/properties/commonExtensions.kt:18-20 | returns its argument |
| `CommonExtensions.Identity` | properties/src/main/kotlin/net/aquadc/properties/commonExtensions.kt:22-24 | true exactly for the same reference, and symmetric |
| `CommonExtensions.Equals` | properties/src/main/kotlin/net/aquadc/properties/commonExtensions.kt:26-28 | true exactly when `equals` says so |
| `CommonExtensions.EqualitiesReflexive` | properties/src/main/kotlin/net/aquadc/properties/commonExtensions.kt:22-28 | `Identity` and `Equals` are reflexive, and identical references are equal |
| `CommonExtensions.ReadOnlyView` | properties/src/main/kotlin/net/aquadc/properties/commonExtensions.kt:13 | the view may change exactly when the property may, and a fixed property is viewed as itself |
| `CommonExtensions.ReadOnlyViewValue` | properties/src/main/kotlin/net/aquadc/properties/commonExtensions.kt:13 | the view holds the viewed property's value |
| `CommonExtensions.Distinct` | properties/src/main/kotlin/net/aquadc/properties/commonExtensions.kt:15-16 | a fixed receiver is returned itself, a live one is wrapped |
| `CommonExtensions.Debounced` | properties/src/main/kotlin/net/aquadc/properties/commonExtensions.kt:55-57 | a fixed receiver is returned itself, a live one is wrapped |
| `CommonExtensions.WrappersKeepValue` | properties/src/main/kotlin/net/aquadc/properties/inlineExtensions.kt:124-139 | neither wrapper changes the value or whether the property may change |
| `InlineExtensions.Not` | properties/src/main/kotlin/net/aquadc/properties/inlineExtensions.kt:27-28 | the inverted view may change exactly when the property may |
| `InlineExtensions.And` | properties/src/main/kotlin/net/aquadc/properties/inlineExtensions.kt:34-35 | the conjunction view may change exactly when a side may |
| `InlineExtensions.Or` | properties/src/main/kotlin/net/aquadc/properties/inlineExtensions.kt:41-42 | the disjunction view may change exactly when a side may |
| `InlineExtensions.Xor` | properties/src/main/kotlin/net/aquadc/properties/inlineExtensions.kt:48-49 | the exclusive-or view may change exactly when a side may |
| `InlineExtensions.BooleanViews` | properties/src/main/kotlin/net/aquadc/properties/inlineExtensions.kt:23-49 | each view holds the negation, conjunction, disjunction or exclusive or of the current values |
| `InlineExtensions.SetTrue` | properties/src/main/kotlin/net/aquadc/properties/inlineExtensions.kt:54 | writes `true` and notifies once |
| `InlineExtensions.Clear` | properties/src/main/kotlin/net/aquadc/properties/inlineExtensions.kt:60 | writes `false` and notifies once |
| `InlineExtensions.ClearOnTrue` | properties/src/main/kotlin/net/aquadc/properties/inlineExtensions.kt:67-70 | an observed `true` writes `false` and runs the action; a `false` does nothing |
| `InlineExtensions.ClearEachAnd` | properties/src/main/kotlin/net/aquadc/properties/inlineExtensions.kt:66-71 | the action runs once per observed `true`, the initial value included, and the property ends `false` |
| `InlineExtensions.Rounds` | properties/src/main/kotlin/net/aquadc/properties/inlineExtensions.kt:147-150 | the loop makes at least one round and at most one more than the rounds other writers race, and the first round reads the starting value |
| `InlineExtensions.UpdateLoop` | properties/src/main/kotlin/net/aquadc/properties/inlineExtensions.kt:170-177 | the rounds are the ones `Rounds` predicts; the last one's `prev` succeeded, its `next` is `updater(prev)`, and the cell holds it |
| `InlineExtensions.GetAndUpdate` | properties/src/main/kotlin/net/aquadc/properties/inlineExtensions.kt:144-152 | returns the `prev` of the successful round, and the cell holds `updater(prev)` |
| `InlineExtensions.UpdateAndGet` | properties/src/main/kotlin/net/aquadc/properties/inlineExtensions.kt:157-165 | returns `updater(prev)` of the successful round, which the cell holds |
| `InlineExtensions.Update` | properties/src/main/kotlin/net/aquadc/properties/inlineExtensions.kt:170-177 | leaves the value `updateAndGet` would |
| `InlineExtensions.RoundsAlone` | properties/src/main/kotlin/net/aquadc/properties/inlineExtensions.kt:144-152 | without another writer the first round succeeds, on the starting value |
| `InlineExtensions.RoundsRetry` | properties/src/main/kotlin/net/aquadc/properties/inlineExtensions.kt:147-150 | a round fails only because another writer stored a different value before its compare-and-set, and the next round reads the cell afresh: the late write if there was one, otherwise the value that made the round fail |
| `InlineExtensions.WriteBackRereadsSameValue` | properties/src/main/kotlin/net/aquadc/properties/inlineExtensions.kt:147-150 | a write-back after a failed compare-and-set makes the retry read the same value the failed round read |
| `InlineExtensions.SameValueWriteStillSucceeds` | properties/src/main/kotlin/net/aquadc/properties/inlineExtensions.kt:150 | a concurrent write of the same value does not make the round fail |
| `InlineExtensions.MutablePropertyOf` | properties/src/main/kotlin/net/aquadc/properties/inlineExtensions.kt:188-190 | a fresh cell with the value, concurrent exactly when asked |
| `InlineExtensions.ConcurrentMutablePropertyOf` | properties/src/main/kotlin/net/aquadc/properties/inlineExtensions.kt:195-196 | a fresh concurrent cell with the value |
| `InlineExtensions.UnsynchronizedMutablePropertyOf` | properties/src/main/kotlin/net/aquadc/properties/inlineExtensions.kt:201-202 | a fresh confined cell with the value |
| `InlineExtensions.ImmutableBool` | properties/src/main/kotlin/net/aquadc/properties/inlineExtensions.kt:207-210 | one of the two shared instances, holding the value, which never changes |
| `InlineExtensions.ImmutablePropertyOf` | properties/src/main/kotlin/net/aquadc/properties/inlineExtensions.kt:215-216 | a fixed property holding the value |
| `InlineExtensions.FoldLeftSnoc` | properties/src/main/kotlin/net/aquadc/properties/inlineExtensions.kt:240 | folding one more element applies the operation once more, at the end |
| `InlineExtensions.FoldList` | properties/src/main/kotlin/net/aquadc/properties/inlineExtensions.kt:239-241 | the accumulator loop computes the left fold from `initial` in list order |
| `InlineExtensions.FirstOrNull` | properties/src/main/kotlin/net/aquadc/properties/inlineExtensions.kt:252 | null exactly when no element is accepted, otherwise the first accepted element |
| `InlineExtensions.Filter` | properties/src/main/kotlin/net/aquadc/properties/inlineExtensions.kt:263 | the accepted elements with their multiplicity: each accepted value occurs as often as in the list, and no rejected value occurs |
| `InlineExtensions.FilterAppend` | properties/src/main/kotlin/net/aquadc/properties/inlineExtensions.kt:263 | filtering a concatenation is the concatenation of the filtered parts, so list order is kept |
| `InlineExtensions.FilterSingle` | properties/src/main/kotlin/net/aquadc/properties/inlineExtensions.kt:263 | a single element is kept exactly when it is accepted |
| `InlineExtensions.FilterElements` | properties/src/main/kotlin/net/aquadc/properties/inlineExtensions.kt:263 | the result holds only accepted elements of the list, and every accepted element |
| `InlineExtensions.Contains` | properties/src/main/kotlin/net/aquadc/properties/inlineExtensions.kt:274 | true exactly when the value is in the list |
| `InlineExtensions.ContainsAll` | properties/src/main/kotlin/net/aquadc/properties/inlineExtensions.kt:285 | true exactly when every given value is in the list |
| `InlineExtensions.All` | properties/src/main/kotlin/net/aquadc/properties/inlineExtensions.kt:296 | true exactly when every element is accepted |
| `InlineExtensions.Any` | properties/src/main/kotlin/net/aquadc/properties/inlineExtensions.kt:308 | true exactly when some element is accepted |
| `InlineExtensions.MapValueList` | properties/src/main/kotlin/net/aquadc/properties/inlineExtensions.kt:227-229 | both branches build a multi-mapped property over the same sources, whose value is the transform of the sources' current values in collection order |
| `InlineExtensions.FoldValues` | properties/src/main/kotlin/net/aquadc/properties/inlineExtensions.kt:235-241 | a property over the sources holding the left fold of their current values |
| `InlineExtensions.FirstValueOrNull` | properties/src/main/kotlin/net/aquadc/properties/inlineExtensions.kt:248-252 | a property over the sources holding the first accepted current value, or null |
| `InlineExtensions.FilterValues` | properties/src/main/kotlin/net/aquadc/properties/inlineExtensions.kt:259-263 | a property over the sources holding the accepted current values, in order |
| `InlineExtensions.ContainsValue` | properties/src/main/kotlin/net/aquadc/properties/inlineExtensions.kt:270-274 | a property over the sources holding whether some current value is the given one |
| `InlineExtensions.ContainsAllValues` | properties/src/main/kotlin/net/aquadc/properties/inlineExtensions.kt:281-285 | a property over the sources holding whether every given value is a current value |
| `InlineExtensions.AllValues` | properties/src/main/kotlin/net/aquadc/properties/inlineExtensions.kt:292-296 | a property over the sources holding whether every current value is accepted |
| `InlineExtensions.AnyValue` | properties/src/main/kotlin/net/aquadc/properties/inlineExtensions.kt:303-308 | a property over the sources holding whether some current value is accepted |
| `InlineExtensions.ValuesOfOneMoreSource` | properties/src/main/kotlin/net/aquadc/properties/inlineExtensions.kt:235-264 | with one more source last in the collection, `foldValues` applies its operation once more to that source's value, `filterValues` appends that value exactly when it is accepted, and `firstValueOrNull` keeps an earlier accepted value and otherwise takes the new one if accepted |
| `InlineExtensions.FoldValuesOneMore` | properties/src/main/kotlin/net/aquadc/properties/inlineExtensions.kt:235-241 | `foldValues` over one more source applies its operation once more, to that source's current value |
| `InlineExtensions.FirstValueOrNullOneMore` | properties/src/main/kotlin/net/aquadc/properties/inlineExtensions.kt:248-252 | `firstValueOrNull` over one more source keeps an earlier accepted value, and otherwise holds the new source's value exactly when it is accepted |
| `InlineExtensions.FilterValuesOneMore` | properties/src/main/kotlin/net/aquadc/properties/inlineExtensions.kt:259-263 | `filterValues` over one more source appends that source's value at the end exactly when it is accepted |
| `InlineExtensions.FirstOrNullSnoc` | properties/src/main/kotlin/net/aquadc/properties/inlineExtensions.kt:252 | the first accepted element of a list with one more element at the end is the old first accepted one, or else the new element if it is accepted |
| `InlineExtensions.ContainsValues` | properties/src/main/kotlin/net/aquadc/properties/inlineExtensions.kt:270-286 | `containsValue` holds whether some source holds the value; `containsAllValues` whether every given value is held |
| `InlineExtensions.QuantifiedValues` | properties/src/main/kotlin/net/aquadc/properties/inlineExtensions.kt:292-309 | `allValues` holds whether every source's value is accepted, `anyValue` whether some is |

## Left out

- Concurrency is left out: real threads, atomics, lock-free snapshot replacement, executor dispatch, thread-affinity checks and debounce timing. A concurrent notifier's listener snapshot is a sequence that is replaced on each change. `casValue` is a sequential compare-and-set, and racing writers are an explicit parameter of the retry loops.
- Extensions.OnEach: models only the thread-confined branch, on a mutable cell whose later writes are each delivered before the next. The concurrent branch's claim-flag protocol (`extensions.kt` lines 50-71) is left out as concurrency, and `onEach` on a derived property is not modelled because derived properties have no listener wiring here.
- Props.MutableProperty.Set: records the notifications it schedules but does not deliver them to listeners. Delivery runs through the listener storage base class, which is not part of this model.
- InlineExtensions.ClearEachAnd: the listener's own `false` write re-notifies it with `false`, which does nothing; that nested round is not shown.
- Derived properties (`MappedProperty`, `BiMappedProperty`, `MultiMappedProperty`, `DistinctPropertyWrapper`, `DebouncedProperty`) are represented only by the value they settle on and by whether they may change. Their caching, listener wiring, the `distinct` suppression of equal values and the debounce delay are not part of this model.
- Extensions.Map: `map`, `mapOn` and `mapWith` are modelled with a transform from the source's value type to itself (`V -> V`, `(V, V) -> V`), whereas the source's `(T) -> R` and `(T, U) -> R` may change the type and combine sides of different types. A property's datatype has a single value type, so a mapping across types is not modelled.
- The CharSequence views (`length`, `isEmpty`, `isNotEmpty`, `isBlank`, `isNotBlank`, `trimmed`) are left out. They map a `CharSequence` property to an `Int`, `Boolean` or `String` property, a change of type the model's `map` does not express.
- F32 values and the F64 `doubleToLongBits` path of the preference codec are floating point and are left out. Base64 and the `serialized` codec are foreign; they are parameters that satisfy `decode(encode(x)) == x`.
- Prefs.Write: I32 and I64 values are unbounded integers that satisfy a range predicate, so the representation's own 32- and 64-bit widths are not modelled.
- Prefs.Write: the writer stores `raw.encode(arg)` and `type.encode(arg)`, and the reader returns `raw.decode(…)`, through the field type's own adapter, which is user code. The model takes every value already in its type's stored representation, so the adapter is the identity, and `RoundTrip` is proved for that case only. The same holds for `Prefs.Read`, `Prefs.ReadSimple`, `Prefs.ReadCollection`, `Prefs.WriteSimple` and `Prefs.WriteCollection`.
- The SharedPreferences editor is modelled as the representation the writer hands to `put*`; applying and committing the editor is I/O. The concurrent copy through `prefs.all` is one map lookup.
- Sql.Table.PreCommitValues: returns the swaps instead of applying them. The evicted record's `isManaged = false` and `dropManagement()` are left out, because `ManagedProperty` and `PartialRecord` are not part of this model.
- Sql.Table.CommitValues: returns the commits and refreshes instead of applying them to the record's managed properties.
- Sql.PreCommitLoop: after an `AssertionError` the scratch set is only promised to hold at least what it held before; which lenses the failed pass added is not stated. The source does not clear the set on that path.
- Sql.CommitLoop: the same holds after an `AssertionError` in the commit pass.
- Sql.WithTransaction: the block is called once; the documented future retry of conflicting transactions ("at least once") is not modelled.
- `relations()` is a constructor parameter instead of an overridable method. The deprecated constructor with the Javanese argument order does the same as the modelled one and is not repeated. `SimpleTable`, `newRecord`, `toString`, Dao queries, `select`, `count`, and the `Transaction` interface's `insert`/`update`/`delete`/`truncate`/`setFrom` are SQL execution and are left out.
- The `ToOne`, `ToMany` and `ManyToMany` relations are `TODO()` in the source. They fail with `NotImplemented`.
- Kotlin's `lazy` retries its initializer after an exception. The model caches nothing on failure, so a later read computes again.
- In `library.kt`, `col0` always registers a fresh column, so the duplicate-column branch of the freeze cannot be reached through the table. `Library.Validate` states that branch for arbitrary registration lists.
- Field sets are `set<nat>` and `bv64` masks. The not-shown `FieldSet` helpers (`intersect`, `forEach`), `allFieldSet` and `defaultOrElse` are stood in for by set operations and by a field's optional default.
- Struct-typed builder values, the `expose()` accessor and `StructSnapshot`'s own methods are not part of this model.
- `Identity` and `Equals` are not distinguished beyond identity on references and a caller-supplied `equals`, because Kotlin's `==` calls `equals`, which is user code.
- `isWhitespace` is Kotlin's JVM whitespace set, written out as character ranges.

## Findings

| source | as written | input that shows it | evidently intended | confidence | as-written member | corrected member |
|---|---|---|---|---|---|---|
| sql/src/main/kotlin/net/aquadc/properties/sql/sql.kt:317-318 | `pkColumn` is `columns[0]` | a table built with the PK-field constructor on a schema `title` (field 0, String, mutable), `id` (field 1, Long, immutable) with PK field `id`: the first column is `title` | the PK field's own column, or the synthetic PK lens when there is no PK field (which `_columns` puts first) | medium, not executed | `Sql.PkColumnAsWritten`, `Sql.PkColumnAsWrittenMissesSecondField` | `Sql.PrimaryKeyColumn`, `Sql.PkColumnIsAColumn`, `Sql.Table.PkColumn` |
