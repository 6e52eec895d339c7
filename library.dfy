/**
 * The first revision of the SQL table layer: a table registers its columns one by one
 * while it is open; the first read of its column list validates the registrations,
 * freezes the list and closes registration for good.
 */
module Library {
  import opened Wrappers

  /** A column declaration. Columns are compared by identity, as in a `HashSet` of them. */
  class Col {
    const isPrimaryKey: bool
    const name: string
    /** The name of the column's Java class. */
    const javaType: string
    const isNullable: bool

    constructor (isPrimaryKey: bool, name: string, javaType: string, isNullable: bool)
      ensures this.isPrimaryKey == isPrimaryKey && this.name == name
      ensures this.javaType == javaType && this.isNullable == isNullable
    {
      this.isPrimaryKey := isPrimaryKey;
      this.name := name;
      this.javaType := javaType;
      this.isNullable := isNullable;
    }
  }

  /** The `IllegalStateException`s a table throws, by message. */
  datatype TableError =
    | DuplicatePrimaryKey(table: string, column: string, existing: string)
    | DuplicateColumn(table: string, column: string)
    | NoPrimaryKey(table: string)
    | AlreadyInitialized(table: string)

  /** The number of registrations that are primary-key columns. */
  function PkCount(cols: seq<Col>): nat {
    if |cols| == 0 then 0
    else PkCount(cols[..|cols| - 1]) + (if cols[|cols| - 1].isPrimaryKey then 1 else 0)
  }

  lemma PkCountStep(cols: seq<Col>, i: nat)
    requires i < |cols|
    ensures PkCount(cols[..i + 1]) == PkCount(cols[..i]) + (if cols[i].isPrimaryKey then 1 else 0)
  {
    assert cols[..i + 1][..i] == cols[..i];
  }

  /** A prefix never has more primary keys than the whole list. */
  lemma {:induction false} PkCountPrefix(cols: seq<Col>, i: nat)
    requires i <= |cols|
    ensures PkCount(cols[..i]) <= PkCount(cols)
    decreases |cols| - i
  {
    if i < |cols| {
      PkCountStep(cols, i);
      PkCountPrefix(cols, i + 1);
      assert cols[..|cols|] == cols;
    } else {
      assert cols[..i] == cols;
    }
  }

  /** Two primary-key registrations make the count at least two. */
  lemma {:induction false} PkCountOne(cols: seq<Col>, i: nat, j: nat)
    requires i < j < |cols| && cols[i].isPrimaryKey && cols[j].isPrimaryKey
    ensures PkCount(cols) >= 2
  {
    PkCountPrefix(cols, j + 1);
    PkCountStep(cols, j);
    PkCountPrefix(cols[..j], i + 1);
    assert cols[..j][..i + 1] == cols[..i + 1];
    PkCountStep(cols, i);
  }

  /** With exactly one primary-key registration, it sits at a single position. */
  lemma UniquePrimaryKey(cols: seq<Col>, i: nat, j: nat)
    requires PkCount(cols) == 1
    requires i < |cols| && j < |cols| && cols[i].isPrimaryKey && cols[j].isPrimaryKey
    ensures i == j
  {
    if i < j {
      PkCountOne(cols, i, j);
    } else if j < i {
      PkCountOne(cols, j, i);
    }
  }

  /**
   * The body of the lazy `columns` block up to the freeze: scans the registrations in
   * order, rejecting a second primary key and a repeated column, and finally a table
   * without a primary key. On success it returns the primary-key column.
   */
  method Validate(table: string, cols: seq<Col>) returns (r: Result<Col, TableError>)
    ensures r.Success? <==> Distinct(cols) && PkCount(cols) == 1
    ensures r.Success? ==> r.value in cols && r.value.isPrimaryKey
    ensures r.Failure? && r.error.DuplicatePrimaryKey? ==> PkCount(cols) >= 2
    ensures r.Failure? && r.error.DuplicateColumn? ==> !Distinct(cols)
    ensures r.Failure? ==> r.error.table == table && !r.error.AlreadyInitialized?
    ensures r.Failure? && r.error.NoPrimaryKey? <==> Distinct(cols) && PkCount(cols) == 0
  {
    var idCol: Option<Col> := None;
    var seen: set<Col> := {};
    for i := 0 to |cols|
      invariant Distinct(cols[..i])
      invariant seen == set k | 0 <= k < i :: cols[k]
      invariant PkCount(cols[..i]) <= 1
      invariant idCol.Some? <==> PkCount(cols[..i]) == 1
      invariant idCol.Some? ==> idCol.value in cols && idCol.value.isPrimaryKey
    {
      var col := cols[i];
      PkCountStep(cols, i);
      if col.isPrimaryKey {
        if idCol.Some? {
          PkCountPrefix(cols, i + 1);
          return Failure(DuplicatePrimaryKey(table, col.name, idCol.value.name));
        }
        idCol := Some(col);
      }
      if col in seen {
        var k :| 0 <= k < i && cols[k] == col;
        return Failure(DuplicateColumn(table, col.name));
      }
      seen := seen + {col};
    }
    assert cols[..|cols|] == cols;
    match idCol
    case None =>
      r := Failure(NoPrimaryKey(table));
    case Some(c) =>
      r := Success(c);
  }

  class Table {
    const name: string
    /** The Java class of the table's id type, used for the primary-key column. */
    const idType: string
    /** `tmp`: the registration list while the table is open, `None` once frozen. */
    var tmp: Option<seq<Col>>
    /** The value of the lazy `columns` once it has been computed. */
    var frozen: Option<seq<Col>>
    /** `_idCol`. */
    var idColCache: Option<Col>

    /**
     * Open, or frozen with a valid column list whose primary key is cached. Every
     * registration is a column `col0` created, so no instance is registered twice.
     */
    predicate Valid()
      reads this
    {
      && (tmp.None? <==> frozen.Some?)
      && (tmp.Some? ==> Distinct(tmp.value))
      && (frozen.None? ==> idColCache.None?)
      && (frozen.Some? ==>
            && Distinct(frozen.value) && PkCount(frozen.value) == 1
            && idColCache.Some? && idColCache.value in frozen.value && idColCache.value.isPrimaryKey)
    }

    constructor (name: string, idType: string)
      ensures Valid()
      ensures this.name == name && this.idType == idType
      ensures tmp == Some([]) && frozen.None?
    {
      this.name := name;
      this.idType := idType;
      tmp := Some([]);
      frozen := None;
      idColCache := None;
    }

    /**
     * `col0`: while the table is open, appends one new column to the registrations and
     * returns it; once frozen, throws and changes nothing.
     */
    method Col0(pk: bool, colName: string, javaType: string, nullable: bool) returns (r: Result<Col, TableError>)
      requires Valid()
      modifies this
      ensures Valid()
      ensures old(tmp).None? ==> r == Failure(AlreadyInitialized(name)) && unchanged(this)
      ensures old(tmp).Some? ==>
                && r.Success? && fresh(r.value)
                && r.value.isPrimaryKey == pk && r.value.name == colName
                && r.value.javaType == javaType && r.value.isNullable == nullable
                && tmp == Some(old(tmp).value + [r.value])
                && frozen == old(frozen) && idColCache == old(idColCache)
    {
      if tmp.None? {
        return Failure(AlreadyInitialized(name));
      }
      var col := new Col(pk, colName, javaType, nullable);
      tmp := Some(tmp.value + [col]);
      r := Success(col);
    }

    /** `nullableCol`. */
    method NullableCol(colName: string, javaType: string) returns (r: Result<Col, TableError>)
      requires Valid()
      modifies this
      ensures Valid()
      ensures old(tmp).None? ==> r == Failure(AlreadyInitialized(name)) && unchanged(this)
      ensures old(tmp).Some? ==>
                && r.Success? && fresh(r.value) && !r.value.isPrimaryKey && r.value.isNullable
                && r.value.name == colName && r.value.javaType == javaType
                && tmp == Some(old(tmp).value + [r.value])
    {
      r := Col0(false, colName, javaType, true);
    }

    /** `col`. */
    method NonNullCol(colName: string, javaType: string) returns (r: Result<Col, TableError>)
      requires Valid()
      modifies this
      ensures Valid()
      ensures old(tmp).None? ==> r == Failure(AlreadyInitialized(name)) && unchanged(this)
      ensures old(tmp).Some? ==>
                && r.Success? && fresh(r.value) && !r.value.isPrimaryKey && !r.value.isNullable
                && r.value.name == colName && r.value.javaType == javaType
                && tmp == Some(old(tmp).value + [r.value])
    {
      r := Col0(false, colName, javaType, false);
    }

    /** `idCol(name)`: a non-null primary-key column of the table's id type. */
    method IdColNamed(colName: string) returns (r: Result<Col, TableError>)
      requires Valid()
      modifies this
      ensures Valid()
      ensures old(tmp).None? ==> r == Failure(AlreadyInitialized(name)) && unchanged(this)
      ensures old(tmp).Some? ==>
                && r.Success? && fresh(r.value) && r.value.isPrimaryKey && !r.value.isNullable
                && r.value.name == colName && r.value.javaType == idType
                && tmp == Some(old(tmp).value + [r.value])
    {
      r := Col0(true, colName, idType, false);
    }

    /**
     * `columns`: the first successful read validates the registrations, caches the
     * primary key, freezes the list in registration order and closes registration.
     * A failed validation throws and leaves the table open, so a later read retries.
     */
    method Columns() returns (r: Result<seq<Col>, TableError>)
      requires Valid()
      modifies this
      ensures Valid()
      ensures old(frozen).Some? ==> r == Success(old(frozen).value) && unchanged(this)
      ensures old(frozen).None? ==>
                && (r.Success? <==> PkCount(old(tmp).value) == 1)
                && (r.Failure? ==> r.error.DuplicatePrimaryKey? || r.error.NoPrimaryKey?)
                && (r.Success? ==> r.value == old(tmp).value && frozen == Some(r.value) && tmp.None?)
                && (r.Failure? ==> unchanged(this) && r.error.table == name && !r.error.AlreadyInitialized?)
    {
      if frozen.Some? {
        return Success(frozen.value);
      }
      var tmpCols := tmp.value;
      var v := Validate(name, tmpCols);
      if v.Failure? {
        return Failure(v.error);
      }
      idColCache := Some(v.value);
      frozen := Some(tmpCols);
      tmp := None;
      r := Success(tmpCols);
    }

    /** `idCol`: the cached primary key, forcing the freeze when it has not happened. */
    method IdCol() returns (r: Result<Col, TableError>)
      requires Valid()
      modifies this
      ensures Valid()
      ensures old(frozen).Some? ==> unchanged(this)
      ensures r.Success? <==> frozen.Some?
      ensures r.Success? ==> r.value in frozen.value && r.value.isPrimaryKey && Some(r.value) == idColCache
      ensures r.Failure? ==> unchanged(this)
    {
      if idColCache.Some? {
        return Success(idColCache.value);
      }
      var cols := Columns();
      if cols.Failure? {
        return Failure(cols.error);
      }
      r := Success(idColCache.value);
    }
  }

  /** After freezing, the cached primary key is the only primary-key column. */
  lemma FrozenIdColUnique(t: Table, i: nat)
    requires t.Valid() && t.frozen.Some?
    requires i < |t.frozen.value| && t.frozen.value[i].isPrimaryKey
    ensures t.frozen.value[i] == t.idColCache.value
  {
    var cols := t.frozen.value;
    var k :| 0 <= k < |cols| && cols[k] == t.idColCache.value;
    UniquePrimaryKey(cols, i, k);
  }

  // ---------------------------------------------------------------------------
  // The transaction bracket and column values

  /** The calls `transaction` makes on its `Transaction`, in order. */
  datatype TxCall = BeginTransaction | RunBlock | SetSuccessful | Close

  /**
   * How a block passed to an `inline` bracket ends: it returns a value, it throws, or
   * a non-local `return` inside it leaves the function that called the bracket.
   */
  datatype Exit<+R, +E> = Returns(value: R) | Throws(error: E) | ExitsEarly

  /** The calls made and how the bracket ended. */
  datatype TxRun<E> = TxRun(trace: seq<TxCall>, result: Exit<(), E>)

  /**
   * `Session.transaction`: begin outside the `try`, run the block, mark the transaction
   * successful if the block returned, and close it in a `finally`. The outcomes of
   * `beginTransaction`, the block, `setSuccessful` and `close` are parameters. A
   * throwing `beginTransaction` leaves before the `try`, so nothing is closed; a
   * throwing `close` replaces an earlier exit, as a `finally` does on the JVM.
   */
  function Transaction<E>(begin: Outcome<E>, block: Exit<(), E>, setSuccessful: Outcome<E>, close: Outcome<E>): (run: TxRun<E>)
    ensures |run.trace| >= 1 && run.trace[0] == BeginTransaction
    ensures begin.Fail? ==> run.trace == [BeginTransaction] && run.result == Throws(begin.error)
    ensures begin.Pass? ==> |run.trace| >= 3 && run.trace[1] == RunBlock && run.trace[|run.trace| - 1] == Close
    ensures begin.Pass? && close.Fail? ==> run.result == Throws(close.error)
    ensures begin.Pass? && close.Pass? && !block.Returns? ==> run.result == block
  {
    if begin.Fail? then TxRun([BeginTransaction], Throws(begin.error))
    else
      var body := if block.Returns? then [RunBlock, SetSuccessful] else [RunBlock];
      var bodyResult := if !block.Returns? then block
                        else if setSuccessful.Fail? then Throws(setSuccessful.error)
                        else Returns(());
      TxRun([BeginTransaction] + body + [Close], if close.Fail? then Throws(close.error) else bodyResult)
  }

  /**
   * `close` is called exactly when `beginTransaction` returned, and then once, as the
   * last call, whether the block returns, throws or exits early.
   */
  lemma TransactionClosesOnce<E>(begin: Outcome<E>, block: Exit<(), E>, setSuccessful: Outcome<E>, close: Outcome<E>)
    ensures var trace := Transaction(begin, block, setSuccessful, close).trace;
            && (Close in trace <==> begin.Pass?)
            && (begin.Pass? ==> trace[|trace| - 1] == Close)
            && forall k :: 0 <= k < |trace| - 1 ==> trace[k] != Close
  {
  }

  /** `setSuccessful` is called, once, exactly when the transaction began and the block returned normally. */
  lemma TransactionSuccessfulIffBlockReturns<E>(begin: Outcome<E>, block: Exit<(), E>, setSuccessful: Outcome<E>, close: Outcome<E>)
    ensures var trace := Transaction(begin, block, setSuccessful, close).trace;
            && (SetSuccessful in trace <==> begin.Pass? && block.Returns?)
            && forall k, l :: 0 <= k < l < |trace| && trace[k] == SetSuccessful ==> trace[l] != SetSuccessful
  {
  }

  /**
   * The bracket returns normally exactly when none of the four calls throws and the
   * block returns; it passes an early exit on exactly when the transaction began, the
   * block exited early and `close` did not throw.
   */
  lemma TransactionResult<E>(begin: Outcome<E>, block: Exit<(), E>, setSuccessful: Outcome<E>, close: Outcome<E>)
    ensures var result := Transaction(begin, block, setSuccessful, close).result;
            && (result.Returns? <==> begin.Pass? && block.Returns? && setSuccessful.Pass? && close.Pass?)
            && (result.ExitsEarly? <==> begin.Pass? && block.ExitsEarly? && close.Pass?)
            && (begin.Pass? && close.Pass? && block.Throws? ==> result == block)
  {
  }

  /** A non-local `return` from the block closes the transaction without marking it successful. */
  lemma TransactionEarlyExitRollsBack<E>(block: Exit<(), E>, setSuccessful: Outcome<E>, close: Outcome<E>)
    requires block.ExitsEarly?
    ensures Transaction(Pass, block, setSuccessful, close).trace == [BeginTransaction, RunBlock, Close]
  {
  }

  /** A column paired with a value for it. */
  datatype ColValue<T> = ColValue(col: Col, value: T)

  /** `col - value`. */
  function Minus<T>(col: Col, value: T): (cv: ColValue<T>)
    ensures cv.col == col && cv.value == value
  {
    ColValue(col, value)
  }
}
