/** Comparing database schemas: what a target lacks, and when validity carries over. */
module SchemaSync {
  import opened Outcomes

  /** Columns with their types; a type may be absent. */
  type Columns = map<string, Option<string>>

  type Schema = map<string, Columns>

  datatype Error =
    | MissingTable(table: string)
    | MissingColumn(table: string, column: string)
    | TypeMismatch(table: string, column: string)

  /** An absent or empty type is unknown. */
  predicate Known(columnType: Option<string>) {
    columnType.Some? && columnType.value != ""
  }

  /** Two known types that differ. */
  predicate Conflict(a: Option<string>, b: Option<string>) {
    Known(a) && Known(b) && a != b
  }

  /** What is wrong with `target`, measured against `source`. */
  predicate Holds(e: Error, source: Schema, target: Schema) {
    match e
    case MissingTable(t) => t in source && t !in target
    case MissingColumn(t, c) => t in source && t in target && c in source[t] && c !in target[t]
    case TypeMismatch(t, c) =>
      t in source && t in target && c in source[t] && c in target[t] && Conflict(source[t][c], target[t][c])
  }

  /** The target has every source table and column, and no known types conflict. */
  predicate Covers(source: Schema, target: Schema) {
    forall t <- source ::
      && t in target
      && forall c <- source[t] :: c in target[t] && !Conflict(source[t][c], target[t][c])
  }

  /** The target has every source table and column. */
  predicate HasAll(source: Schema, target: Schema) {
    forall t <- source :: t in target && forall c <- source[t] :: c in target[t]
  }

  class ValidationResult {
    var isValid: bool
    var errors: seq<Error>

    constructor ()
      ensures isValid && errors == []
    {
      isValid, errors := true, [];
    }

    ghost predicate Consistent()
      reads this
    {
      isValid <==> errors == []
    }

    method AddError(e: Error)
      requires Consistent()
      modifies this
      ensures Consistent() && errors == old(errors) + [e] && !isValid
    {
      errors := errors + [e];
      isValid := false;
    }
  }

  /** Every error in the list holds, every error that holds is in it. */
  ghost predicate Reports(errors: seq<Error>, source: Schema, target: Schema) {
    forall e :: e in errors <==> Holds(e, source, target)
  }

  /** The errors found in the tables looked at so far. */
  ghost predicate ReportsColumns(errors: seq<Error>, source: Schema, target: Schema, done: set<string>) {
    forall e :: e in errors <==> Holds(e, source, target) && (e.MissingTable? || e.table in done)
  }

  method AddMissingTables(result: ValidationResult, source: Schema, target: Schema)
    requires result.Consistent() && result.errors == []
    modifies result
    ensures result.Consistent()
    ensures forall e :: e in result.errors <==> e.MissingTable? && e.table in source.Keys - target.Keys
  {
    var missing := source.Keys - target.Keys;
    while missing != {}
      invariant result.Consistent() && missing <= source.Keys - target.Keys
      invariant forall e :: e in result.errors <==> e.MissingTable? && e.table in source.Keys - target.Keys - missing
      decreases missing
    {
      var t :| t in missing;
      missing := missing - {t};
      result.AddError(MissingTable(t));
    }
  }

  method AddMissingColumns(result: ValidationResult, t: string, source: Columns, target: Columns)
    requires result.Consistent()
    modifies result
    ensures result.Consistent()
    ensures forall e :: e in result.errors <==>
      e in old(result.errors) || (e.MissingColumn? && e.table == t && e.column in source.Keys - target.Keys)
  {
    var columns := source.Keys - target.Keys;
    while columns != {}
      invariant result.Consistent() && columns <= source.Keys - target.Keys
      invariant forall e :: e in result.errors <==>
        e in old(result.errors) || (e.MissingColumn? && e.table == t && e.column in source.Keys - target.Keys - columns)
      decreases columns
    {
      var c :| c in columns;
      columns := columns - {c};
      result.AddError(MissingColumn(t, c));
    }
  }

  /** The shared columns whose known types differ. */
  predicate Differs(c: string, source: Columns, target: Columns) {
    c in source && c in target && Conflict(source[c], target[c])
  }

  method AddTypeMismatches(result: ValidationResult, t: string, source: Columns, target: Columns)
    requires result.Consistent()
    modifies result
    ensures result.Consistent()
    ensures forall e :: e in result.errors <==>
      e in old(result.errors) || (e.TypeMismatch? && e.table == t && Differs(e.column, source, target))
  {
    var columns := source.Keys * target.Keys;
    while columns != {}
      invariant result.Consistent() && columns <= source.Keys * target.Keys
      invariant forall e :: e in result.errors <==>
        e in old(result.errors)
        || (e.TypeMismatch? && e.table == t && Differs(e.column, source, target) && e.column !in columns)
      decreases columns
    {
      var c :| c in columns;
      columns := columns - {c};
      if Conflict(source[c], target[c]) {
        result.AddError(TypeMismatch(t, c));
      }
    }
  }

  /** Nothing to report says exactly that the target covers the source. */
  lemma ValidMeansCovers(errors: seq<Error>, source: Schema, target: Schema)
    requires Reports(errors, source, target)
    ensures errors == [] <==> Covers(source, target)
  {
    if errors == [] {
      forall t | t in source
        ensures t in target && forall c <- source[t] :: c in target[t] && !Conflict(source[t][c], target[t][c])
      {
        assert !Holds(MissingTable(t), source, target);
        forall c | c in source[t] ensures c in target[t] && !Conflict(source[t][c], target[t][c]) {
          assert !Holds(MissingColumn(t, c), source, target);
          assert !Holds(TypeMismatch(t, c), source, target);
        }
      }
    } else {
      assert Holds(errors[0], source, target);
    }
  }

  /** `compare_schemas`: missing tables, then for each common table missing columns and type mismatches. Sets are
      walked in any order. */
  method CompareSchemas(source: Schema, target: Schema) returns (result: ValidationResult)
    ensures fresh(result) && result.Consistent()
    ensures Reports(result.errors, source, target)
    ensures result.isValid <==> Covers(source, target)
    ensures result.isValid <==> result.errors == []
    ensures forall t :: MissingTable(t) in result.errors <==> t in source && t !in target
    ensures forall t, c ::
      MissingColumn(t, c) in result.errors <==> t in source && t in target && c in source[t] && c !in target[t]
    ensures forall t, c ::
      TypeMismatch(t, c) in result.errors <==>
      && t in source && t in target && c in source[t] && c in target[t]
      && source[t][c] != None && source[t][c] != Some("") && target[t][c] != None && target[t][c] != Some("")
      && source[t][c] != target[t][c]
  {
    result := new ValidationResult();
    AddMissingTables(result, source, target);
    var common := source.Keys * target.Keys;
    while common != {}
      invariant fresh(result) && result.Consistent() && common <= source.Keys * target.Keys
      invariant ReportsColumns(result.errors, source, target, source.Keys * target.Keys - common)
      decreases common
    {
      var t :| t in common;
      ghost var done := source.Keys * target.Keys - common;
      common := common - {t};
      AddMissingColumns(result, t, source[t], target[t]);
      AddTypeMismatches(result, t, source[t], target[t]);
      assert source.Keys * target.Keys - common == done + {t};
    }
    ValidMeansCovers(result.errors, source, target);
  }

  /** `compare_schema_to_snapshot` checks tables and columns but not types. */
  method CompareSchemaToSnapshot(current: Schema, snapshot: Schema) returns (result: ValidationResult)
    ensures fresh(result) && result.Consistent()
    ensures result.isValid <==> HasAll(snapshot, current)
    ensures forall e :: e in result.errors <==> !e.TypeMismatch? && Holds(e, snapshot, current)
  {
    result := new ValidationResult();
    AddMissingTables(result, snapshot, current);
    var common := snapshot.Keys * current.Keys;
    while common != {}
      invariant fresh(result) && result.Consistent() && common <= snapshot.Keys * current.Keys
      invariant forall e :: e in result.errors <==>
        !e.TypeMismatch? && Holds(e, snapshot, current) && (e.MissingTable? || e.table !in common)
      decreases common
    {
      var t :| t in common;
      common := common - {t};
      AddMissingColumns(result, t, snapshot[t], current[t]);
    }
    SnapshotValid(result.errors, current, snapshot);
  }

  lemma SnapshotValid(errors: seq<Error>, current: Schema, snapshot: Schema)
    requires forall e :: e in errors <==> !e.TypeMismatch? && Holds(e, snapshot, current)
    ensures errors == [] <==> HasAll(snapshot, current)
  {
    if errors == [] {
      forall t | t in snapshot ensures t in current && forall c <- snapshot[t] :: c in current[t] {
        assert !Holds(MissingTable(t), snapshot, current);
        forall c | c in snapshot[t] ensures c in current[t] {
          assert !Holds(MissingColumn(t, c), snapshot, current);
        }
      }
    } else {
      assert errors[0] in errors;
    }
  }

  // ----- How validity carries over -----

  /** Every column of `a` whose type is known has a known type in `b`. */
  predicate KeepsKnown(a: Schema, b: Schema)
    requires HasAll(a, b)
  {
    forall t <- a :: forall x <- a[t] :: Known(a[t][x]) ==> Known(b[t][x])
  }

  /** Every type is known. */
  predicate AllKnown(a: Schema) {
    forall t <- a :: forall x <- a[t] :: Known(a[t][x])
  }

  function WithType(a: Schema, t: string, x: string, columnType: string): Schema
    requires t in a
  {
    a[t := a[t][x := Some(columnType)]]
  }

  lemma WithTypeCovers(a: Schema, t: string, x: string, columnType: string)
    requires t in a && x in a[t] && !Known(a[t][x])
    ensures Covers(a, WithType(a, t, x, columnType))
  {
  }

  function Column(t: string, x: string, columnType: string): Schema {
    map[t := map[x := Some(columnType)]]
  }

  /** A schema that `a` covers vouches for everything that covers it exactly when it knows every type that `a` knows. */
  lemma CoversOnward(a: Schema, b: Schema)
    requires Covers(a, b)
    ensures (forall c :: Covers(b, c) ==> Covers(a, c)) <==> KeepsKnown(a, b)
  {
    if KeepsKnown(a, b) {
      forall c | Covers(b, c) ensures Covers(a, c) {
        CoversThrough(a, b, c);
      }
    } else {
      var t :| t in a && exists x <- a[t] :: Known(a[t][x]) && !Known(b[t][x]);
      var x :| x in a[t] && Known(a[t][x]) && !Known(b[t][x]);
      var other := a[t][x].value + "?";
      WithTypeCovers(b, t, x, other);
      assert |other| != |a[t][x].value|;
      var c := WithType(b, t, x, other);
      assert Conflict(a[t][x], c[t][x]);
      assert !Covers(a, c);
    }
  }

  lemma CoversThrough(a: Schema, b: Schema, c: Schema)
    requires Covers(a, b) && Covers(b, c) && KeepsKnown(a, b)
    ensures Covers(a, c)
  {
    forall t | t in a ensures t in c && forall x <- a[t] :: x in c[t] && !Conflict(a[t][x], c[t][x]) {
      assert t in b;
      forall x | x in a[t] ensures x in c[t] && !Conflict(a[t][x], c[t][x]) {
        assert x in b[t];
      }
    }
  }

  /** Every schema covers itself, and covering carries over through it, whatever comes before and after, exactly when
      all its types are known: on fully typed schemas covering is a preorder. */
  lemma CoversPreorder(b: Schema)
    ensures Covers(b, b)
    ensures (forall a, c :: Covers(a, b) && Covers(b, c) ==> Covers(a, c)) <==> AllKnown(b)
  {
    if AllKnown(b) {
      forall a, c | Covers(a, b) && Covers(b, c) ensures Covers(a, c) {
        CoversThrough(a, b, c);
      }
    } else {
      var t :| t in b && exists x <- b[t] :: !Known(b[t][x]);
      var x :| x in b[t] && !Known(b[t][x]);
      var a, c := Column(t, x, "p"), WithType(b, t, x, "q");
      WithTypeCovers(b, t, x, "q");
      assert Covers(a, b);
      assert t in a && x in a[t] && Conflict(a[t][x], c[t][x]);
      assert !Covers(a, c);
    }
  }

  /** A middle schema without the type of one column breaks transitivity. */
  lemma UnknownTypeBreaksTransitivity(t: string, x: string, p: string, q: string)
    requires p != "" && q != "" && p != q
    ensures var a, b, c := Column(t, x, p), map[t := map[x := None]], Column(t, x, q);
      Covers(a, b) && Covers(b, c) && !Covers(a, c)
  {
    var a, c := Column(t, x, p), Column(t, x, q);
    assert t in a && x in a[t] && Conflict(a[t][x], c[t][x]);
  }

  // ----- The two comparisons -----

  /** The errors of the snapshot comparison are those of the full comparison except the type mismatches. */
  lemma SnapshotErrors(full: seq<Error>, brief: seq<Error>, current: Schema, snapshot: Schema)
    requires Reports(full, snapshot, current)
    requires forall e :: e in brief <==> !e.TypeMismatch? && Holds(e, snapshot, current)
    ensures forall e :: e in brief <==> e in full && !e.TypeMismatch?
    ensures full == [] <==> brief == [] && forall e <- full :: !e.TypeMismatch?
  {
    if full != [] && brief == [] {
      assert full[0] in full && full[0] !in brief;
    }
    if brief != [] {
      assert brief[0] in brief;
    }
  }

  predicate NoneKnown(a: Schema) {
    forall t <- a :: forall x <- a[t] :: !Known(a[t][x])
  }

  /** Passing the full comparison implies passing the snapshot comparison; the converse holds for every current schema
      exactly when the snapshot knows no type, and for every snapshot exactly when the current schema knows none. */
  lemma SnapshotComparison(s: Schema)
    ensures forall current :: Covers(s, current) ==> HasAll(s, current)
    ensures (forall current :: HasAll(s, current) ==> Covers(s, current)) <==> NoneKnown(s)
    ensures (forall snapshot :: HasAll(snapshot, s) ==> Covers(snapshot, s)) <==> NoneKnown(s)
  {
    if !NoneKnown(s) {
      var t :| t in s && exists x <- s[t] :: Known(s[t][x]);
      var x :| x in s[t] && Known(s[t][x]);
      var other := WithType(s, t, x, s[t][x].value + "?");
      assert |s[t][x].value + "?"| != |s[t][x].value|;
      assert Conflict(s[t][x], other[t][x]) && Conflict(other[t][x], s[t][x]);
      assert HasAll(s, other) && !Covers(s, other);
      assert HasAll(other, s) && !Covers(other, s);
    }
  }
}
