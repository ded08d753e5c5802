/** The canonical-id backfill: a keyset scan of the models table, and the writes that follow it. */
module CanonicalIds {
  import opened Lists
  import opened Outcomes

  datatype Row = Row(
    id: int, active: bool, deprecated: bool, modelName: Option<string>, providerModelId: Option<string>,
    canonicalId: Option<string>)

  /** The models table, listed in id order; ids are unique. */
  type Table = seq<Row>

  predicate Ordered(t: Table) {
    forall i, j :: 0 <= i < j < |t| ==> t[i].id < t[j].id
  }

  /** The filters of the scan other than the one on the id. */
  predicate Target(recomputeAll: bool, r: Row) {
    r.active && !r.deprecated && (recomputeAll || r.canonicalId == None)
  }

  /** The target rows with an id above `last`, in id order. */
  function Above(t: Table, recomputeAll: bool, last: int): seq<Row> {
    if t == [] then []
    else (if Target(recomputeAll, t[0]) && t[0].id > last then [t[0]] else []) + Above(t[1..], recomputeAll, last)
  }

  /** Between two pages anything may happen to rows up to `last`, and nothing to the rows above it. */
  predicate TouchesOnly(t: Table, t': Table, last: int) {
    |t'| == |t| && forall i :: 0 <= i < |t| ==> t'[i].id == t[i].id && (t[i].id > last ==> t'[i] == t[i])
  }

  // ----- The keyset scan -----

  lemma {:induction false} AboveMembers(t: Table, recomputeAll: bool, last: int)
    ensures forall r :: r in Above(t, recomputeAll, last) <==> r in t && Target(recomputeAll, r) && r.id > last
  {
    if t != [] {
      AboveMembers(t[1..], recomputeAll, last);
      assert t == [t[0]] + t[1..];
    }
  }

  lemma OrderedCons(r: Row, rest: seq<Row>)
    requires Ordered(rest) && forall i :: 0 <= i < |rest| ==> r.id < rest[i].id
    ensures Ordered([r] + rest)
  {
  }

  lemma {:induction false} AboveOrdered(t: Table, recomputeAll: bool, last: int)
    requires Ordered(t)
    ensures Ordered(Above(t, recomputeAll, last))
  {
    if t != [] {
      AboveOrdered(t[1..], recomputeAll, last);
      AboveCons(t, recomputeAll, last);
      forall i: nat | i < |Above(t[1..], recomputeAll, last)|
        ensures t[0].id < Above(t[1..], recomputeAll, last)[i].id
      {
        AboveLaterId(t, recomputeAll, last, i);
      }
      OrderedCons(t[0], Above(t[1..], recomputeAll, last));
    }
  }

  /** The scan's rows are exactly the target rows above `last`, once each, in id order. */
  lemma {:induction false} AboveMeaning(t: Table, recomputeAll: bool, last: int)
    requires Ordered(t)
    ensures Ordered(Above(t, recomputeAll, last))
    ensures forall r ::
      r in Above(t, recomputeAll, last)
      <==> r in t && r.id > last && r.active && !r.deprecated && (recomputeAll || r.canonicalId == None)
  {
    AboveOrdered(t, recomputeAll, last);
    AboveMembers(t, recomputeAll, last);
  }

  /** The rows are exactly those with a positive id, active, not deprecated, and without canonical id unless all are
      recomputed; once each, in id order. */
  ghost predicate IsSnapshot(t: Table, recomputeAll: bool, rows: seq<Row>) {
    && Ordered(rows)
    && forall r ::
         r in rows <==> r in t && r.id > 0 && r.active && !r.deprecated && (recomputeAll || r.canonicalId == None)
  }

  lemma {:induction false} AboveIsSnapshot(t: Table, recomputeAll: bool)
    requires Ordered(t)
    ensures IsSnapshot(t, recomputeAll, Above(t, recomputeAll, 0))
  {
    AboveMeaning(t, recomputeAll, 0);
  }

  lemma {:induction false} AboveUntouched(t: Table, t': Table, recomputeAll: bool, last: int)
    requires TouchesOnly(t, t', last)
    ensures Above(t', recomputeAll, last) == Above(t, recomputeAll, last)
  {
    if t != [] {
      AboveUntouched(t[1..], t'[1..], recomputeAll, last);
    }
  }

  /** Nothing is left above the last id of the whole table. */
  lemma {:induction false} AboveNothing(t: Table, recomputeAll: bool, last: int)
    requires forall i :: 0 <= i < |t| ==> t[i].id <= last
    ensures Above(t, recomputeAll, last) == []
  {
    if t != [] {
      AboveNothing(t[1..], recomputeAll, last);
    }
  }

  lemma AboveLaterId(t: Table, recomputeAll: bool, last: int, i: nat)
    requires Ordered(t) && t != [] && i < |Above(t[1..], recomputeAll, last)|
    ensures Above(t[1..], recomputeAll, last)[i].id > last
    ensures Above(t[1..], recomputeAll, last)[i].id > t[0].id
  {
    AboveMembers(t[1..], recomputeAll, last);
    assert Above(t[1..], recomputeAll, last)[i] in t[1..];
  }

  lemma AboveCons(t: Table, recomputeAll: bool, last: int)
    requires t != []
    ensures Above(t, recomputeAll, last)
         == if Target(recomputeAll, t[0]) && t[0].id > last then [t[0]] + Above(t[1..], recomputeAll, last)
            else Above(t[1..], recomputeAll, last)
  {
  }

  /** Moving `last` to the id of row `k - 1` of `rows` leaves exactly the rows after it. */
  predicate Drops(t: Table, recomputeAll: bool, last: int, rows: seq<Row>, k: nat)
    requires 0 < k <= |rows|
  {
    rows[k - 1].id > last && Above(t, recomputeAll, rows[k - 1].id) == rows[k..]
  }

  lemma DropsHead(t: Table, recomputeAll: bool, last: int, rest: seq<Row>)
    requires Ordered(t) && t != [] && t[0].id > last && rest == Above(t[1..], recomputeAll, last)
    ensures Drops(t, recomputeAll, last, [t[0]] + rest, 1)
  {
    AboveSame(t[1..], recomputeAll, last, t[0].id);
    AboveSkipsHead(t, recomputeAll, t[0].id);
    assert ([t[0]] + rest)[1..] == rest;
  }

  lemma DropsCons(t: Table, recomputeAll: bool, last: int, r: Row, rest: seq<Row>, k: nat)
    requires 0 < k <= |rest| && Drops(t, recomputeAll, last, rest, k)
    ensures Drops(t, recomputeAll, last, [r] + rest, k + 1)
  {
    assert ([r] + rest)[k + 1..] == rest[k..];
  }

  /** The head of the table is not above the id of a row of its rest. */
  lemma DropsTail(t: Table, recomputeAll: bool, last: int, rest: seq<Row>, k: nat)
    requires Ordered(t) && t != [] && rest == Above(t[1..], recomputeAll, last) && 0 < k <= |rest|
    requires Drops(t[1..], recomputeAll, last, rest, k)
    ensures Drops(t, recomputeAll, last, rest, k)
  {
    AboveLaterId(t, recomputeAll, last, k - 1);
    AboveSkipsHead(t, recomputeAll, rest[k - 1].id);
  }

  lemma {:induction false} AboveDrops(t: Table, recomputeAll: bool, last: int, k: nat)
    requires Ordered(t) && 0 < k <= |Above(t, recomputeAll, last)|
    ensures Drops(t, recomputeAll, last, Above(t, recomputeAll, last), k)
    decreases |t|, 0
  {
    var rest := Above(t[1..], recomputeAll, last);
    AboveCons(t, recomputeAll, last);
    if Target(recomputeAll, t[0]) && t[0].id > last {
      if k == 1 {
        DropsHead(t, recomputeAll, last, rest);
      } else {
        DropsLater(t, recomputeAll, last, rest, k - 1);
        DropsCons(t, recomputeAll, last, t[0], rest, k - 1);
      }
    } else {
      DropsLater(t, recomputeAll, last, rest, k);
    }
  }

  lemma {:induction false} DropsLater(t: Table, recomputeAll: bool, last: int, rest: seq<Row>, k: nat)
    requires Ordered(t) && t != [] && rest == Above(t[1..], recomputeAll, last) && 0 < k <= |rest|
    ensures Drops(t, recomputeAll, last, rest, k)
    decreases |t| - 1, 1
  {
    AboveDrops(t[1..], recomputeAll, last, k);
    DropsTail(t, recomputeAll, last, rest, k);
  }

  lemma AboveSkipsHead(t: Table, recomputeAll: bool, last: int)
    requires t != [] && t[0].id <= last
    ensures Above(t, recomputeAll, last) == Above(t[1..], recomputeAll, last)
  {
  }

  lemma {:induction false} AboveSame(t: Table, recomputeAll: bool, last: int, last': int)
    requires last <= last' && forall i :: 0 <= i < |t| ==> t[i].id > last'
    ensures Above(t, recomputeAll, last') == Above(t, recomputeAll, last)
  {
    if t != [] {
      AboveSame(t[1..], recomputeAll, last, last');
    }
  }

  /** `_PAGE` */
  const PAGE := 500

  /** Whoever writes already returned rows between the pages. */
  type Writer = (Table, int) -> Table

  ghost predicate Wellbehaved(write: Writer) {
    forall t, last :: TouchesOnly(t, write(t, last), last)
  }

  // ----- The writes -----

  /** `apply_model_alias` */
  type Alias = string -> Option<string>

  predicate Truthy(s: Option<string>) {
    s.Some? && s.value != ""
  }

  /** `_canonical_for` */
  function CanonicalFor(alias: Alias, r: Row): Option<string> {
    if Truthy(r.providerModelId) && Truthy(alias(r.providerModelId.value)) then alias(r.providerModelId.value)
    else if Truthy(r.modelName) then alias(r.modelName.value)
    else None
  }

  /** The alias registry has an answer for the name. */
  predicate Known(alias: Alias, name: Option<string>) {
    name.Some? && name.value != "" && alias(name.value).Some? && alias(name.value).value != ""
  }

  /** A row resolves exactly when one of its two names does: to the alias of the provider's name, and to the alias of
      the display name only when the provider's has none. */
  lemma CanonicalForMeaning(alias: Alias, r: Row)
    ensures Truthy(CanonicalFor(alias, r)) <==> Known(alias, r.providerModelId) || Known(alias, r.modelName)
    ensures Known(alias, r.providerModelId) ==> CanonicalFor(alias, r) == alias(r.providerModelId.value)
    ensures !Known(alias, r.providerModelId) && Known(alias, r.modelName) ==>
      CanonicalFor(alias, r) == alias(r.modelName.value)
  {
  }

  /** The write for this row is attempted and succeeds. */
  predicate Updates(alias: Alias, fails: int -> bool, r: Row) {
    Truthy(CanonicalFor(alias, r)) && !fails(r.id)
  }

  /** `update({"canonical_id": c}).eq("id", id)` */
  function SetCanonical(t: Table, id: int, c: string): Table {
    seq(|t|, i requires 0 <= i < |t| => if t[i].id == id then t[i].(canonicalId := Some(c)) else t[i])
  }

  /** The table after writing the rows of `targets`: exactly the resolvable ones carry their canonical id. */
  function Written(t: Table, targets: seq<Row>, alias: Alias, fails: int -> bool): Table {
    seq(|t|, i requires 0 <= i < |t| =>
      if t[i] in targets && Updates(alias, fails, t[i]) then t[i].(canonicalId := CanonicalFor(alias, t[i])) else t[i])
  }

  function Count(rows: seq<Row>, p: Row -> bool): nat {
    if rows == [] then 0 else Count(rows[..|rows| - 1], p) + if p(rows[|rows| - 1]) then 1 else 0
  }

  /** The counters `updated`, `resolved_via_alias` and `failed`. */
  datatype Tally = Tally(updated: nat, viaAlias: nat, failed: nat)

  function AddRow(alias: Alias, fails: int -> bool, t: Tally, r: Row): Tally {
    var c := CanonicalFor(alias, r);
    if !Truthy(c) then t
    else if fails(r.id) then t.(failed := t.failed + 1)
    else if c != r.providerModelId then Tally(t.updated + 1, t.viaAlias + 1, t.failed)
    else t.(updated := t.updated + 1)
  }

  function TallyOf(alias: Alias, fails: int -> bool, rows: seq<Row>): Tally {
    if rows == [] then Tally(0, 0, 0)
    else AddRow(alias, fails, TallyOf(alias, fails, rows[..|rows| - 1]), rows[|rows| - 1])
  }

  /** The counters count the rows written, those of them whose id an alias supplied, and the failed writes. */
  lemma {:induction false} TallyMeaning(alias: Alias, fails: int -> bool, rows: seq<Row>)
    ensures TallyOf(alias, fails, rows)
         == Tally(Count(rows, (r: Row) => Updates(alias, fails, r)),
                  Count(rows, (r: Row) => Updates(alias, fails, r) && CanonicalFor(alias, r) != r.providerModelId),
                  Count(rows, (r: Row) => Truthy(CanonicalFor(alias, r)) && fails(r.id)))
  {
    if rows != [] {
      TallyMeaning(alias, fails, rows[..|rows| - 1]);
    }
  }

  lemma TallyStep(alias: Alias, fails: int -> bool, rows: seq<Row>, k: nat)
    requires k < |rows|
    ensures TallyOf(alias, fails, rows[..k + 1]) == AddRow(alias, fails, TallyOf(alias, fails, rows[..k]), rows[k])
  {
    assert rows[..k + 1][..k] == rows[..k];
  }

  lemma WrittenStep(t: Table, targets: seq<Row>, k: nat, alias: Alias, fails: int -> bool)
    requires Ordered(t) && k < |targets| && targets[k] in t
    ensures Written(t, targets[..k + 1], alias, fails)
         == if Updates(alias, fails, targets[k])
            then SetCanonical(Written(t, targets[..k], alias, fails), targets[k].id,
                              CanonicalFor(alias, targets[k]).value)
            else Written(t, targets[..k], alias, fails)
  {
    assert targets[..k + 1] == targets[..k] + [targets[k]];
    assert forall i :: 0 <= i < |t| ==> (t[i].id == targets[k].id <==> t[i] == targets[k]);
    assert forall i :: 0 <= i < |t| ==> (t[i] in targets[..k + 1] <==> t[i] in targets[..k] || t[i] == targets[k]);
  }

  /** Row `i` after a run without a limit. */
  lemma WrittenAt(t: Table, recomputeAll: bool, alias: Alias, fails: int -> bool, i: nat)
    requires i < |t|
    ensures Written(t, Above(t, recomputeAll, 0), alias, fails)[i]
         == if Target(recomputeAll, t[i]) && t[i].id > 0 && Updates(alias, fails, t[i])
            then t[i].(canonicalId := CanonicalFor(alias, t[i])) else t[i]
  {
    AboveMembers(t, recomputeAll, 0);
    assert t[i] in t;
  }

  /** Running again is like having run once with those writes failing that fail both times; in particular, a second run
      with the same failures changes nothing. */
  lemma BackfillAgain(
    t: Table, recomputeAll: bool, alias: Alias, fails: int -> bool, fails': int -> bool, both: int -> bool)
    requires forall id :: both(id) <==> fails(id) && fails'(id)
    ensures var t' := Written(t, Above(t, recomputeAll, 0), alias, fails);
      Written(t', Above(t', recomputeAll, 0), alias, fails') == Written(t, Above(t, recomputeAll, 0), alias, both)
  {
    var t' := Written(t, Above(t, recomputeAll, 0), alias, fails);
    forall i | 0 <= i < |t|
      ensures Written(t', Above(t', recomputeAll, 0), alias, fails')[i]
           == Written(t, Above(t, recomputeAll, 0), alias, both)[i]
    {
      WrittenAt(t, recomputeAll, alias, fails, i);
      WrittenAt(t', recomputeAll, alias, fails', i);
      WrittenAt(t, recomputeAll, alias, both, i);
    }
  }

  /** What a run over `targets` leaves of one row. */
  function UnwrittenRow(r: Row, targets: seq<Row>, alias: Alias, fails: int -> bool): seq<Row> {
    if r in targets && Updates(alias, fails, r) then [] else [r]
  }

  /** The rows that a run over `targets` leaves for the next one. */
  function Unwritten(rows: seq<Row>, targets: seq<Row>, alias: Alias, fails: int -> bool): seq<Row> {
    if rows == [] then []
    else UnwrittenRow(rows[0], targets, alias, fails) + Unwritten(rows[1..], targets, alias, fails)
  }

  lemma UnwrittenCons(r: Row, rest: seq<Row>, targets: seq<Row>, alias: Alias, fails: int -> bool)
    ensures Unwritten([r] + rest, targets, alias, fails)
         == UnwrittenRow(r, targets, alias, fails) + Unwritten(rest, targets, alias, fails)
  {
    assert ([r] + rest)[1..] == rest;
  }

  lemma WrittenTail(t: Table, targets: seq<Row>, alias: Alias, fails: int -> bool)
    requires t != []
    ensures Written(t, targets, alias, fails)[1..] == Written(t[1..], targets, alias, fails)
  {
  }

  /** Whatever the targets, exactly the rows that are written drop out of the null filter. */
  lemma {:induction false} WrittenRowsDropOut(t: Table, targets: seq<Row>, alias: Alias, fails: int -> bool)
    ensures Above(Written(t, targets, alias, fails), false, 0) == Unwritten(Above(t, false, 0), targets, alias, fails)
  {
    if t != [] {
      WrittenRowsDropOut(t[1..], targets, alias, fails);
      WrittenTail(t, targets, alias, fails);
      AboveCons(t, false, 0);
      AboveCons(Written(t, targets, alias, fails), false, 0);
      UnwrittenCons(t[0], Above(t[1..], false, 0), targets, alias, fails);
    }
  }

  lemma {:induction false} UnwrittenLength(rows: seq<Row>, targets: seq<Row>, alias: Alias, fails: int -> bool)
    ensures |Unwritten(rows, targets, alias, fails)| <= |rows|
    ensures Unwritten(rows, targets, alias, fails) == rows
       <==> forall i :: 0 <= i < |rows| ==> !(rows[i] in targets && Updates(alias, fails, rows[i]))
  {
    if rows != [] {
      var rest := Unwritten(rows[1..], targets, alias, fails);
      UnwrittenLength(rows[1..], targets, alias, fails);
      UnwrittenCons(rows[0], rows[1..], targets, alias, fails);
      assert rows == [rows[0]] + rows[1..];
      assert |[rows[0]] + rest| == 1 + |rest| && ([rows[0]] + rest)[1..] == rest;
    }
  }

  /** A limited run leaves for the next one exactly the targets it did not write, in order; it gets nowhere exactly when
      it writes none of the targets within its limit. */
  lemma LimitedRun(t: Table, limit: Option<int>, alias: Alias, fails: int -> bool)
    ensures var pending := Above(t, false, 0);
      var targets := Slice(pending, limit);
      var left := Above(Written(t, targets, alias, fails), false, 0);
      && left == Unwritten(pending, targets, alias, fails)
      && (left == pending <==> forall i :: 0 <= i < |targets| ==> !Updates(alias, fails, targets[i]))
  {
    var pending := Above(t, false, 0);
    var targets := Slice(pending, limit);
    WrittenRowsDropOut(t, targets, alias, fails);
    UnwrittenLength(pending, targets, alias, fails);
    SlicePrefix(pending, limit);
    if forall i :: 0 <= i < |pending| ==> !(pending[i] in targets && Updates(alias, fails, pending[i])) {
      forall i | 0 <= i < |targets| ensures !Updates(alias, fails, targets[i]) {
        assert pending[i] == targets[i];
      }
    }
  }

  // ----- What a run leaves of the null rows -----

  lemma Associate(a: seq<Row>, b: seq<Row>, c: seq<Row>)
    ensures (a + b) + c == a + (b + c)
  {
  }

  lemma {:induction false} UnwrittenConcat(
    a: seq<Row>, b: seq<Row>, targets: seq<Row>, alias: Alias, fails: int -> bool)
    ensures Unwritten(a + b, targets, alias, fails)
         == Unwritten(a, targets, alias, fails) + Unwritten(b, targets, alias, fails)
  {
    if a == [] {
      assert a + b == b;
    } else {
      var rest := a[1..];
      assert a == [a[0]] + rest && a + b == [a[0]] + (rest + b);
      UnwrittenCons(a[0], rest, targets, alias, fails);
      UnwrittenCons(a[0], rest + b, targets, alias, fails);
      UnwrittenConcat(rest, b, targets, alias, fails);
      Associate(UnwrittenRow(a[0], targets, alias, fails), Unwritten(rest, targets, alias, fails),
                Unwritten(b, targets, alias, fails));
    }
  }

  /** The rows that no run over them writes: no name resolves, or the write fails. */
  function Stuck(rows: seq<Row>, alias: Alias, fails: int -> bool): seq<Row> {
    if rows == [] then []
    else (if Updates(alias, fails, rows[0]) then [] else [rows[0]]) + Stuck(rows[1..], alias, fails)
  }

  lemma {:induction false} UnwrittenInside(rows: seq<Row>, targets: seq<Row>, alias: Alias, fails: int -> bool)
    requires forall i :: 0 <= i < |rows| ==> rows[i] in targets
    ensures Unwritten(rows, targets, alias, fails) == Stuck(rows, alias, fails)
  {
    if rows != [] {
      UnwrittenInside(rows[1..], targets, alias, fails);
    }
  }

  lemma {:induction false} UnwrittenOutside(rows: seq<Row>, targets: seq<Row>, alias: Alias, fails: int -> bool)
    requires forall i :: 0 <= i < |rows| ==> rows[i] !in targets
    ensures Unwritten(rows, targets, alias, fails) == rows
  {
    if rows != [] {
      UnwrittenOutside(rows[1..], targets, alias, fails);
    }
  }

  /** In an ordered list, rows before and after a stretch are not in it. */
  lemma OrderedApart(before: seq<Row>, page: seq<Row>, after: seq<Row>)
    requires Ordered(before + page + after)
    ensures forall i :: 0 <= i < |before| ==> before[i] !in page
    ensures forall i :: 0 <= i < |after| ==> after[i] !in page
  {
    var rows := before + page + after;
    forall i, j | 0 <= i < |before| && 0 <= j < |page| ensures before[i] != page[j] {
      assert rows[i] == before[i] && rows[|before| + j] == page[j];
    }
    forall i, j | 0 <= i < |after| && 0 <= j < |page| ensures after[i] != page[j] {
      assert rows[|before| + |page| + i] == after[i] && rows[|before| + j] == page[j];
    }
  }

  /** Writing a stretch of the null rows leaves exactly its stuck rows of it. */
  lemma PageLeaves(
    t: Table, before: seq<Row>, page: seq<Row>, after: seq<Row>, alias: Alias, fails: int -> bool)
    requires Ordered(t) && Above(t, false, 0) == before + page + after
    ensures Above(Written(t, page, alias, fails), false, 0) == before + Stuck(page, alias, fails) + after
  {
    AboveOrdered(t, false, 0);
    WrittenRowsDropOut(t, page, alias, fails);
    OrderedApart(before, page, after);
    UnwrittenConcat(before + page, after, page, alias, fails);
    UnwrittenConcat(before, page, page, alias, fails);
    UnwrittenOutside(before, page, alias, fails);
    UnwrittenInside(page, page, alias, fails);
    UnwrittenOutside(after, page, alias, fails);
  }

  lemma WrittenOrdered(t: Table, targets: seq<Row>, alias: Alias, fails: int -> bool)
    requires Ordered(t)
    ensures Ordered(Written(t, targets, alias, fails))
  {
  }

  lemma {:induction false} StuckLength(rows: seq<Row>, alias: Alias, fails: int -> bool)
    ensures |Stuck(rows, alias, fails)| <= |rows|
    ensures Stuck(rows, alias, fails) == rows <==> forall i :: 0 <= i < |rows| ==> !Updates(alias, fails, rows[i])
    ensures |Stuck(rows, alias, fails)| == |rows| ==> Stuck(rows, alias, fails) == rows
  {
    if rows != [] {
      var rest := Stuck(rows[1..], alias, fails);
      StuckLength(rows[1..], alias, fails);
      assert rows == [rows[0]] + rows[1..];
      assert |[rows[0]] + rest| == 1 + |rest| && ([rows[0]] + rest)[1..] == rest;
    }
  }

  // ----- Running with a limit again and again -----

  /** The table after `k` runs over the null rows with limit `n`, in which always the same writes fail. */
  function LimitedRuns(t: Table, n: nat, k: nat, alias: Alias, fails: int -> bool): Table
    decreases k
  {
    if k == 0 then t
    else LimitedRuns(OneRun(t, n, alias, fails), n, k - 1, alias, fails)
  }

  function OneRun(t: Table, n: nat, alias: Alias, fails: int -> bool): Table {
    Written(t, Slice(Above(t, false, 0), Some(n)), alias, fails)
  }

  /** One such run on the list of null rows. */
  function RunList(rows: seq<Row>, n: nat, alias: Alias, fails: int -> bool): seq<Row> {
    Stuck(Take(rows, n), alias, fails) + Drop(rows, n)
  }

  function RunLists(rows: seq<Row>, n: nat, k: nat, alias: Alias, fails: int -> bool): seq<Row>
    decreases k
  {
    if k == 0 then rows else RunLists(RunList(rows, n, alias, fails), n, k - 1, alias, fails)
  }

  /** What no number of runs writes: the stuck rows, and everything behind the first `n` of them. */
  function LeftForGood(rows: seq<Row>, n: nat, alias: Alias, fails: int -> bool): seq<Row> {
    if rows == [] || n == 0 then rows
    else if Updates(alias, fails, rows[0]) then LeftForGood(rows[1..], n, alias, fails)
    else [rows[0]] + LeftForGood(rows[1..], n - 1, alias, fails)
  }

  lemma RunListCons(r: Row, rest: seq<Row>, n: nat, alias: Alias, fails: int -> bool)
    requires n > 0
    ensures RunList([r] + rest, n, alias, fails)
         == (if Updates(alias, fails, r) then [] else [r]) + RunList(rest, n - 1, alias, fails)
  {
    assert Take([r] + rest, n) == [r] + Take(rest, n - 1);
    assert Drop([r] + rest, n) == Drop(rest, n - 1);
    assert ([r] + Take(rest, n - 1))[1..] == Take(rest, n - 1);
  }

  lemma LeftCons(r: Row, rest: seq<Row>, n: nat, alias: Alias, fails: int -> bool)
    requires n > 0
    ensures LeftForGood([r] + rest, n, alias, fails)
         == if Updates(alias, fails, r) then LeftForGood(rest, n, alias, fails)
            else [r] + LeftForGood(rest, n - 1, alias, fails)
  {
    assert ([r] + rest)[1..] == rest;
  }

  /** A run over the list does not change what is left for good. */
  predicate SameLeft(rows: seq<Row>, n: nat, m: nat, alias: Alias, fails: int -> bool) {
    LeftForGood(RunList(rows, n, alias, fails), m, alias, fails) == LeftForGood(rows, m, alias, fails)
  }

  lemma SameLeftCons(r: Row, rest: seq<Row>, n: nat, m: nat, alias: Alias, fails: int -> bool)
    requires 0 < n <= m
    requires SameLeft(rest, n - 1, if Updates(alias, fails, r) then m else m - 1, alias, fails)
    ensures SameLeft([r] + rest, n, m, alias, fails)
  {
    RunListCons(r, rest, n, alias, fails);
    LeftCons(r, rest, m, alias, fails);
    LeftCons(r, RunList(rest, n - 1, alias, fails), m, alias, fails);
    assert [] + RunList(rest, n - 1, alias, fails) == RunList(rest, n - 1, alias, fails);
  }

  lemma {:induction false} RunListLeft(rows: seq<Row>, n: nat, m: nat, alias: Alias, fails: int -> bool)
    requires n <= m
    ensures SameLeft(rows, n, m, alias, fails)
    decreases |rows|
  {
    if rows == [] || n == 0 {
      assert RunList(rows, n, alias, fails) == rows;
    } else {
      assert rows == [rows[0]] + rows[1..];
      RunListLeft(rows[1..], n - 1, if Updates(alias, fails, rows[0]) then m else m - 1, alias, fails);
      SameLeftCons(rows[0], rows[1..], n, m, alias, fails);
    }
  }

  /** A run either shortens the list, or has nothing within its limit to write, and then all of the list is left. */
  lemma RunListMoves(rows: seq<Row>, n: nat, alias: Alias, fails: int -> bool)
    ensures |RunList(rows, n, alias, fails)| < |rows| || RunList(rows, n, alias, fails) == rows
    ensures RunList(rows, n, alias, fails) == rows ==> LeftForGood(rows, n, alias, fails) == rows
  {
    var within := Take(rows, n);
    assert rows == within + Drop(rows, n);
    StuckLength(within, alias, fails);
    if RunList(rows, n, alias, fails) == rows {
      assert |Stuck(within, alias, fails)| == |within|;
      forall i | 0 <= i < |rows| && i < n ensures !Updates(alias, fails, rows[i]) {
        assert within[i] == rows[i];
      }
      NothingWithin(rows, n, alias, fails);
    }
  }

  lemma {:induction false} NothingWithin(rows: seq<Row>, n: nat, alias: Alias, fails: int -> bool)
    requires forall i :: 0 <= i < |rows| && i < n ==> !Updates(alias, fails, rows[i])
    ensures LeftForGood(rows, n, alias, fails) == rows
  {
    if rows != [] && n > 0 {
      NothingWithin(rows[1..], n - 1, alias, fails);
    }
  }

  lemma {:induction false} RunListsFixed(rows: seq<Row>, n: nat, k: nat, alias: Alias, fails: int -> bool)
    requires RunList(rows, n, alias, fails) == rows
    ensures RunLists(rows, n, k, alias, fails) == rows
  {
    if k > 0 {
      RunListsFixed(rows, n, k - 1, alias, fails);
    }
  }

  lemma {:induction false} RunListsEnd(rows: seq<Row>, n: nat, k: nat, alias: Alias, fails: int -> bool)
    requires |rows| <= k
    ensures RunLists(rows, n, k, alias, fails) == LeftForGood(rows, n, alias, fails)
    decreases k
  {
    if k > 0 {
      var rows' := RunList(rows, n, alias, fails);
      RunListMoves(rows, n, alias, fails);
      if rows' == rows {
        RunListsFixed(rows, n, k, alias, fails);
      } else {
        RunListLeft(rows, n, n, alias, fails);
        RunListsEnd(rows', n, k - 1, alias, fails);
      }
    }
  }

  lemma LimitedRunIsList(t: Table, n: nat, alias: Alias, fails: int -> bool)
    requires Ordered(t)
    ensures Ordered(OneRun(t, n, alias, fails))
    ensures Above(OneRun(t, n, alias, fails), false, 0) == RunList(Above(t, false, 0), n, alias, fails)
  {
    var pending := Above(t, false, 0);
    var page, after := Take(pending, n), Drop(pending, n);
    assert pending == [] + page + after;
    PageLeaves(t, [], page, after, alias, fails);
    WrittenOrdered(t, page, alias, fails);
    assert [] + Stuck(page, alias, fails) + after == Stuck(page, alias, fails) + after;
  }

  predicate RunsAreLists(t: Table, n: nat, k: nat, alias: Alias, fails: int -> bool) {
    Above(LimitedRuns(t, n, k, alias, fails), false, 0) == RunLists(Above(t, false, 0), n, k, alias, fails)
  }

  lemma LimitedRunsNext(t: Table, n: nat, k: nat, alias: Alias, fails: int -> bool)
    requires Ordered(t) && RunsAreLists(OneRun(t, n, alias, fails), n, k, alias, fails)
    ensures RunsAreLists(t, n, k + 1, alias, fails)
  {
    LimitedRunIsList(t, n, alias, fails);
  }

  lemma {:induction false} LimitedRunsAreLists(t: Table, n: nat, k: nat, alias: Alias, fails: int -> bool)
    requires Ordered(t)
    ensures RunsAreLists(t, n, k, alias, fails)
    decreases k, 1
  {
    if k > 0 {
      LimitedRunsFrom(t, OneRun(t, n, alias, fails), n, k, alias, fails);
    }
  }

  lemma {:induction false} LimitedRunsFrom(t: Table, t': Table, n: nat, k: nat, alias: Alias, fails: int -> bool)
    requires k > 0 && Ordered(t) && t' == OneRun(t, n, alias, fails)
    ensures RunsAreLists(t, n, k, alias, fails)
    decreases k, 0
  {
    LimitedRunIsList(t, n, alias, fails);
    LimitedRunsAreLists(t', n, k - 1, alias, fails);
    LimitedRunsNext(t, n, k - 1, alias, fails);
  }

  /** The number of stuck rows before row `i`. */
  function StuckBefore(rows: seq<Row>, i: nat, alias: Alias, fails: int -> bool): nat
    requires i <= |rows|
  {
    |Stuck(rows[..i], alias, fails)|
  }

  lemma StuckBeforeCons(rows: seq<Row>, i: nat, alias: Alias, fails: int -> bool)
    requires 0 < i <= |rows|
    ensures StuckBefore(rows, i, alias, fails)
         == StuckBefore(rows[1..], i - 1, alias, fails) + if Updates(alias, fails, rows[0]) then 0 else 1
  {
    assert rows[..i][1..] == rows[1..][..i - 1];
  }

  lemma {:induction false} LeftMembers(rows: seq<Row>, n: nat, alias: Alias, fails: int -> bool)
    ensures forall r <- LeftForGood(rows, n, alias, fails) :: r in rows
  {
    if rows != [] && n > 0 {
      LeftMembers(rows[1..], if Updates(alias, fails, rows[0]) then n else n - 1, alias, fails);
    }
  }

  /** A row is left for good exactly when it is stuck or `n` stuck rows stand before it. */
  lemma {:induction false} LeftMeaning(rows: seq<Row>, n: nat, i: nat, alias: Alias, fails: int -> bool)
    requires Ordered(rows) && i < |rows|
    ensures rows[i] in LeftForGood(rows, n, alias, fails)
       <==> !Updates(alias, fails, rows[i]) || StuckBefore(rows, i, alias, fails) >= n
  {
    var r, rest := rows[0], rows[1..];
    if n > 0 {
      var m := if Updates(alias, fails, r) then n else n - 1;
      LeftMembers(rest, m, alias, fails);
      if i == 0 {
        assert r !in rest;
        assert Stuck(rows[..0], alias, fails) == [];
      } else {
        LeftMeaning(rest, m, i - 1, alias, fails);
        StuckBeforeCons(rows, i, alias, fails);
        assert rest[i - 1] == rows[i] && rows[i] != r;
      }
    }
  }

  lemma {:induction false} RunListsLeft(rows: seq<Row>, n: nat, k: nat, alias: Alias, fails: int -> bool)
    ensures LeftForGood(RunLists(rows, n, k, alias, fails), n, alias, fails) == LeftForGood(rows, n, alias, fails)
    decreases k
  {
    if k > 0 {
      RunListLeft(rows, n, n, alias, fails);
      RunListsLeft(RunList(rows, n, alias, fails), n, k - 1, alias, fails);
    }
  }

  /** The row can be written and fewer than `n` rows before it cannot. */
  predicate Reachable(rows: seq<Row>, n: nat, i: nat, alias: Alias, fails: int -> bool)
    requires i < |rows|
  {
    Updates(alias, fails, rows[i]) && StuckBefore(rows, i, alias, fails) < n
  }

  /** Backfills with limit `n`, run as often as there are null rows, have written exactly the rows that can be written
      and have fewer than `n` rows before them that cannot; that many stuck rows at the head block the rest however
      often it is run. */
  lemma LimitedRunsReach(t: Table, n: nat, k: nat, alias: Alias, fails: int -> bool, i: nat)
    requires Ordered(t) && i < |Above(t, false, 0)|
    ensures var pending, left := Above(t, false, 0), Above(LimitedRuns(t, n, k, alias, fails), false, 0);
      && (!Reachable(pending, n, i, alias, fails) ==> pending[i] in left)
      && (k >= |pending| ==> (pending[i] !in left <==> Reachable(pending, n, i, alias, fails)))
  {
    var pending := Above(t, false, 0);
    LimitedRunsAreLists(t, n, k, alias, fails);
    AboveOrdered(t, false, 0);
    LeftMeaning(pending, n, i, alias, fails);
    RunListsLeft(pending, n, k, alias, fails);
    LeftMembers(RunLists(pending, n, k, alias, fails), n, alias, fails);
    if k >= |pending| {
      RunListsEnd(pending, n, k, alias, fails);
    }
  }

  // ----- Why the scan is not paged by offset -----

  lemma {:induction false} AboveLength(t: Table, recomputeAll: bool, last: int)
    ensures |Above(t, recomputeAll, last)| <= |t|
  {
    if t != [] {
      AboveLength(t[1..], recomputeAll, last);
    }
  }

  /** Paging by offset over the null filter, writing each page before the next one is read. */
  function OffsetScan(t: Table, offset: nat, pageSize: nat, alias: Alias, fails: int -> bool): seq<Row>
    requires pageSize > 0
    decreases |t| - offset
  {
    var page := Take(Drop(Above(t, false, 0), offset), pageSize);
    AboveLength(t, false, 0);
    if |page| < pageSize then page
    else page + OffsetScan(Written(t, page, alias, fails), offset + pageSize, pageSize, alias, fails)
  }

  /** Of each full page, as many of the rows that follow are skipped as rows of the page are written. */
  function SkippingScan(rows: seq<Row>, pageSize: nat, alias: Alias, fails: int -> bool): seq<Row>
    requires pageSize > 0
    decreases |rows|
  {
    if |rows| < pageSize then rows
    else rows[..pageSize] + SkippingScan(AfterSkip(rows, pageSize, alias, fails), pageSize, alias, fails)
  }

  function AfterSkip(rows: seq<Row>, pageSize: nat, alias: Alias, fails: int -> bool): (rest: seq<Row>)
    requires pageSize <= |rows|
    ensures |rest| <= |rows| - pageSize
  {
    StuckLength(rows[..pageSize], alias, fails);
    Drop(rows[pageSize..], pageSize - |Stuck(rows[..pageSize], alias, fails)|)
  }

  /** The next step of the scan when there is a full page at the offset. */
  lemma OffsetScanPage(
    t: Table, kept: seq<Row>, page: seq<Row>, after: seq<Row>, pageSize: nat, alias: Alias, fails: int -> bool)
    requires pageSize > 0 && |page| == pageSize && Above(t, false, 0) == kept + page + after
    ensures OffsetScan(t, |kept|, pageSize, alias, fails)
         == page + OffsetScan(Written(t, page, alias, fails), |kept| + pageSize, pageSize, alias, fails)
    ensures |kept| + pageSize <= |t|
  {
    AboveLength(t, false, 0);
    assert Drop(kept + page + after, |kept|) == page + after;
    assert Take(page + after, pageSize) == page;
  }

  lemma OffsetScanEnd(t: Table, offset: nat, pageSize: nat, alias: Alias, fails: int -> bool)
    requires pageSize > 0 && |Above(t, false, 0)| < offset + pageSize
    ensures OffsetScan(t, offset, pageSize, alias, fails) == Drop(Above(t, false, 0), offset)
  {
  }

  /** The rows at an offset, once those before it are known. */
  lemma PageParts(kept: seq<Row>, rest: seq<Row>, pageSize: nat)
    requires pageSize <= |rest|
    ensures kept + rest == kept + rest[..pageSize] + rest[pageSize..]
  {
  }

  /** What follows a written page, as what now stands before the next offset and what still comes. */
  lemma NextParts(kept: seq<Row>, stuck: seq<Row>, after: seq<Row>, skip: nat)
    requires skip <= |after|
    ensures kept + stuck + after == (kept + stuck + after[..skip]) + after[skip..]
    ensures |kept + stuck + after[..skip]| == |kept| + |stuck| + skip
  {
  }

  /** From the offset on the scan returns what the list says. */
  predicate ScansAs(t: Table, offset: nat, rows: seq<Row>, pageSize: nat, alias: Alias, fails: int -> bool)
    requires pageSize > 0
  {
    OffsetScan(t, offset, pageSize, alias, fails) == SkippingScan(rows, pageSize, alias, fails)
  }

  lemma ScanShort(t: Table, kept: seq<Row>, rest: seq<Row>, pageSize: nat, alias: Alias, fails: int -> bool)
    requires pageSize > 0 && Above(t, false, 0) == kept + rest && |rest| < pageSize
    ensures ScansAs(t, |kept|, rest, pageSize, alias, fails)
  {
    OffsetScanEnd(t, |kept|, pageSize, alias, fails);
    assert Drop(kept + rest, |kept|) == rest;
  }

  lemma ScanFull(t: Table, kept: seq<Row>, rest: seq<Row>, pageSize: nat, alias: Alias, fails: int -> bool)
    requires 0 < pageSize <= |rest| && Above(t, false, 0) == kept + rest
    requires ScansAs(Written(t, rest[..pageSize], alias, fails), |kept| + pageSize,
                     AfterSkip(rest, pageSize, alias, fails), pageSize, alias, fails)
    ensures ScansAs(t, |kept|, rest, pageSize, alias, fails)
  {
    PageParts(kept, rest, pageSize);
    OffsetScanPage(t, kept, rest[..pageSize], rest[pageSize..], pageSize, alias, fails);
  }

  /** The written page leaves fewer rows than the next offset. */
  lemma ScanRunsOut(t: Table, offset: nat, pageSize: nat, alias: Alias, fails: int -> bool)
    requires pageSize > 0 && |Above(t, false, 0)| < offset
    ensures ScansAs(t, offset, [], pageSize, alias, fails)
  {
    OffsetScanEnd(t, offset, pageSize, alias, fails);
  }

  /** The table after a page, with its null rows. */
  lemma AfterPage(t: Table, kept: seq<Row>, rest: seq<Row>, pageSize: nat, alias: Alias, fails: int -> bool)
    returns (t': Table)
    requires 0 < pageSize <= |rest| && Ordered(t) && Above(t, false, 0) == kept + rest
    ensures t' == Written(t, rest[..pageSize], alias, fails) && Ordered(t')
    ensures Above(t', false, 0) == kept + Stuck(rest[..pageSize], alias, fails) + rest[pageSize..]
  {
    t' := Written(t, rest[..pageSize], alias, fails);
    PageParts(kept, rest, pageSize);
    PageLeaves(t, kept, rest[..pageSize], rest[pageSize..], alias, fails);
    WrittenOrdered(t, rest[..pageSize], alias, fails);
  }

  lemma {:induction false} OffsetScanFrom(
    t: Table, offset: nat, kept: seq<Row>, rest: seq<Row>, pageSize: nat, alias: Alias, fails: int -> bool)
    requires pageSize > 0 && Ordered(t) && offset == |kept| && Above(t, false, 0) == kept + rest
    ensures ScansAs(t, offset, rest, pageSize, alias, fails)
    decreases |rest|, 1
  {
    if |rest| < pageSize {
      ScanShort(t, kept, rest, pageSize, alias, fails);
    } else {
      var t' := AfterPage(t, kept, rest, pageSize, alias, fails);
      OffsetScanRest(t', offset + pageSize, kept, rest, pageSize, alias, fails);
      ScanFull(t, kept, rest, pageSize, alias, fails);
    }
  }

  /** The null rows after a page, as what stands before the next offset and what still comes, if anything does. */
  lemma SkipParts(kept: seq<Row>, rest: seq<Row>, pageSize: nat, alias: Alias, fails: int -> bool)
    returns (kept': seq<Row>)
    requires pageSize <= |rest| && pageSize - |Stuck(rest[..pageSize], alias, fails)| <= |rest| - pageSize
    ensures |kept'| == |kept| + pageSize
    ensures kept + Stuck(rest[..pageSize], alias, fails) + rest[pageSize..]
         == kept' + AfterSkip(rest, pageSize, alias, fails)
  {
    StuckLength(rest[..pageSize], alias, fails);
    var stuck, after := Stuck(rest[..pageSize], alias, fails), rest[pageSize..];
    var skip := pageSize - |stuck|;
    kept' := kept + stuck + after[..skip];
    NextParts(kept, stuck, after, skip);
    assert after[skip..] == AfterSkip(rest, pageSize, alias, fails);
  }

  lemma NothingAfter(rest: seq<Row>, pageSize: nat, alias: Alias, fails: int -> bool)
    requires pageSize <= |rest| && pageSize - |Stuck(rest[..pageSize], alias, fails)| > |rest| - pageSize
    ensures AfterSkip(rest, pageSize, alias, fails) == []
  {
  }

  /** After a full page. */
  lemma {:induction false} OffsetScanRest(
    t: Table, offset: nat, kept: seq<Row>, rest: seq<Row>, pageSize: nat, alias: Alias, fails: int -> bool)
    requires 0 < pageSize <= |rest| && Ordered(t) && offset == |kept| + pageSize
    requires Above(t, false, 0) == kept + Stuck(rest[..pageSize], alias, fails) + rest[pageSize..]
    ensures ScansAs(t, offset, AfterSkip(rest, pageSize, alias, fails), pageSize, alias, fails)
    decreases |rest|, 0
  {
    var next := AfterSkip(rest, pageSize, alias, fails);
    if pageSize - |Stuck(rest[..pageSize], alias, fails)| <= |rest| - pageSize {
      var kept' := SkipParts(kept, rest, pageSize, alias, fails);
      OffsetScanFrom(t, offset, kept', next, pageSize, alias, fails);
    } else {
      NothingAfter(rest, pageSize, alias, fails);
      ScanRunsOut(t, offset, pageSize, alias, fails);
    }
  }

  /** Offset paging over the shrinking filter skips, after each full page, as many rows as it has written of it. */
  lemma OffsetScanSkips(t: Table, pageSize: nat, alias: Alias, fails: int -> bool)
    requires pageSize > 0 && Ordered(t)
    ensures OffsetScan(t, 0, pageSize, alias, fails) == SkippingScan(Above(t, false, 0), pageSize, alias, fails)
  {
    assert [] + Above(t, false, 0) == Above(t, false, 0);
    OffsetScanFrom(t, 0, [], Above(t, false, 0), pageSize, alias, fails);
  }

  /** The number of rows before the last page. */
  function LastPage(n: nat, pageSize: nat): nat
    requires pageSize > 0
  {
    if n <= pageSize then 0 else pageSize + LastPage(n - pageSize, pageSize)
  }

  /** No row of a page that is followed by further rows is written. */
  predicate NothingWrittenEarly(rows: seq<Row>, pageSize: nat, alias: Alias, fails: int -> bool)
    requires pageSize > 0
  {
    forall i :: 0 <= i < |rows| && i < LastPage(|rows|, pageSize) ==> !Updates(alias, fails, rows[i])
  }

  lemma {:induction false} SkippingLength(rows: seq<Row>, pageSize: nat, alias: Alias, fails: int -> bool)
    requires pageSize > 0
    ensures |SkippingScan(rows, pageSize, alias, fails)| <= |rows|
    decreases |rows|
  {
    if |rows| >= pageSize {
      SkippingLength(AfterSkip(rows, pageSize, alias, fails), pageSize, alias, fails);
    }
  }

  lemma EarlyPage(rows: seq<Row>, pageSize: nat, alias: Alias, fails: int -> bool)
    requires 0 < pageSize < |rows|
    ensures NothingWrittenEarly(rows, pageSize, alias, fails)
       <==> && (forall i :: 0 <= i < |rows[..pageSize]| ==> !Updates(alias, fails, rows[..pageSize][i]))
            && NothingWrittenEarly(rows[pageSize..], pageSize, alias, fails)
  {
    var later := rows[pageSize..];
    if NothingWrittenEarly(rows, pageSize, alias, fails) {
      forall i | 0 <= i < |later| && i < LastPage(|later|, pageSize) ensures !Updates(alias, fails, later[i]) {
        assert later[i] == rows[pageSize + i];
      }
    }
    if && (forall i :: 0 <= i < |rows[..pageSize]| ==> !Updates(alias, fails, rows[..pageSize][i]))
       && NothingWrittenEarly(later, pageSize, alias, fails)
    {
      forall i | 0 <= i < |rows| && i < LastPage(|rows|, pageSize) ensures !Updates(alias, fails, rows[i]) {
        assert rows[i] == if i < pageSize then rows[..pageSize][i] else later[i - pageSize];
      }
    }
  }

  lemma {:induction false} SkippingComplete(rows: seq<Row>, pageSize: nat, alias: Alias, fails: int -> bool)
    requires pageSize > 0
    ensures SkippingScan(rows, pageSize, alias, fails) == rows <==> NothingWrittenEarly(rows, pageSize, alias, fails)
    ensures |SkippingScan(rows, pageSize, alias, fails)| == |rows| ==>
      SkippingScan(rows, pageSize, alias, fails) == rows
    decreases |rows|
  {
    if |rows| >= pageSize {
      var page, after, rest := rows[..pageSize], rows[pageSize..], AfterSkip(rows, pageSize, alias, fails);
      assert rows == page + after;
      StuckLength(page, alias, fails);
      SkippingLength(rest, pageSize, alias, fails);
      if |after| == 0 {
        assert SkippingScan(rest, pageSize, alias, fails) == [];
        assert page + [] == rows;
      } else {
        EarlyPage(rows, pageSize, alias, fails);
        if Stuck(page, alias, fails) == page {
          assert rest == after;
          SkippingComplete(after, pageSize, alias, fails);
          SamePrefix(page, SkippingScan(after, pageSize, alias, fails), after);
        } else {
          assert |rest| < |after|;
        }
      }
    }
  }

  lemma SamePrefix(page: seq<Row>, a: seq<Row>, b: seq<Row>)
    ensures page + a == page + b <==> a == b
  {
    assert (page + a)[|page|..] == a && (page + b)[|page|..] == b;
  }

  /** So it misses nothing exactly when no row of a page that is followed by further rows is written; else it returns
      fewer rows. */
  lemma OffsetScanComplete(t: Table, pageSize: nat, alias: Alias, fails: int -> bool)
    requires pageSize > 0 && Ordered(t)
    ensures var scan, pending := OffsetScan(t, 0, pageSize, alias, fails), Above(t, false, 0);
      && (scan == pending <==> NothingWrittenEarly(pending, pageSize, alias, fails))
      && (scan != pending ==> |scan| < |pending|)
  {
    OffsetScanSkips(t, pageSize, alias, fails);
    SkippingComplete(Above(t, false, 0), pageSize, alias, fails);
    SkippingLength(Above(t, false, 0), pageSize, alias, fails);
  }

  /** The first, third, fifth, ... page of a list. */
  function EveryOtherPage(rows: seq<Row>, pageSize: nat): seq<Row>
    requires pageSize > 0
    decreases |rows|
  {
    if |rows| <= pageSize then rows else rows[..pageSize] + EveryOtherPage(Drop(rows, 2 * pageSize), pageSize)
  }

  predicate AllWritten(rows: seq<Row>, alias: Alias, fails: int -> bool) {
    forall i :: 0 <= i < |rows| ==> Updates(alias, fails, rows[i])
  }

  lemma {:induction false} NoneStuck(rows: seq<Row>, alias: Alias, fails: int -> bool)
    requires AllWritten(rows, alias, fails)
    ensures Stuck(rows, alias, fails) == []
  {
    if rows != [] {
      NoneStuck(rows[1..], alias, fails);
    }
  }

  lemma {:induction false} SkippingAlternates(rows: seq<Row>, pageSize: nat, alias: Alias, fails: int -> bool)
    requires pageSize > 0 && AllWritten(rows, alias, fails)
    ensures SkippingScan(rows, pageSize, alias, fails) == EveryOtherPage(rows, pageSize)
    decreases |rows|
  {
    if |rows| >= pageSize {
      NoneStuck(rows[..pageSize], alias, fails);
      assert AfterSkip(rows, pageSize, alias, fails) == Drop(rows, 2 * pageSize);
      SkippingAlternates(Drop(rows, 2 * pageSize), pageSize, alias, fails);
      if |rows| == pageSize {
        assert rows[..pageSize] + [] == rows;
      }
    }
  }

  /** In particular, when every null row is written it returns every other page, and misses nothing exactly when there
      is at most one. */
  lemma OffsetScanAlternates(t: Table, pageSize: nat, alias: Alias, fails: int -> bool)
    requires pageSize > 0 && Ordered(t) && AllWritten(Above(t, false, 0), alias, fails)
    ensures OffsetScan(t, 0, pageSize, alias, fails) == EveryOtherPage(Above(t, false, 0), pageSize)
    ensures OffsetScan(t, 0, pageSize, alias, fails) == Above(t, false, 0) <==> |Above(t, false, 0)| <= pageSize
  {
    var pending := Above(t, false, 0);
    OffsetScanSkips(t, pageSize, alias, fails);
    SkippingAlternates(pending, pageSize, alias, fails);
    OffsetScanComplete(t, pageSize, alias, fails);
    if |pending| > pageSize {
      assert LastPage(|pending|, pageSize) >= pageSize && Updates(alias, fails, pending[0]);
    }
  }

  // ----- The script -----

  /** Returning a page and moving `last` to its last id leaves exactly the rows after the page. */
  lemma PageStep(t: Table, recomputeAll: bool, last: int, pageSize: nat)
    requires Ordered(t) && pageSize > 0 && Above(t, recomputeAll, last) != []
    ensures var rest, page := Above(t, recomputeAll, last), Take(Above(t, recomputeAll, last), pageSize);
      var after := Above(t, recomputeAll, page[|page| - 1].id);
      rest == page + after && |after| < |rest| && (|page| < pageSize ==> after == [])
  {
    AboveDrops(t, recomputeAll, last, |Take(Above(t, recomputeAll, last), pageSize)|);
  }

  /** The rows returned so far and those still to come are all the rows. */
  predicate Scanning(t: Table, recomputeAll: bool, rows: seq<Row>, last: int, all: seq<Row>) {
    Ordered(t) && rows + Above(t, recomputeAll, last) == all
  }

  lemma ScanPage(t: Table, recomputeAll: bool, rows: seq<Row>, last: int, all: seq<Row>, pageSize: nat)
    requires Scanning(t, recomputeAll, rows, last, all) && pageSize > 0 && Above(t, recomputeAll, last) != []
    ensures var page := Take(Above(t, recomputeAll, last), pageSize);
      var last' := page[|page| - 1].id;
      && Scanning(t, recomputeAll, rows + page, last', all)
      && |Above(t, recomputeAll, last')| < |Above(t, recomputeAll, last)|
      && (|page| < pageSize ==> rows + page == all)
  {
    PageStep(t, recomputeAll, last, pageSize);
    var page := Take(Above(t, recomputeAll, last), pageSize);
    var after := Above(t, recomputeAll, page[|page| - 1].id);
    assert rows + (page + after) == (rows + page) + after;
  }

  lemma ScanWrite(t: Table, t': Table, recomputeAll: bool, rows: seq<Row>, last: int, all: seq<Row>)
    requires Scanning(t, recomputeAll, rows, last, all) && TouchesOnly(t, t', last)
    ensures Scanning(t', recomputeAll, rows, last, all) && Above(t', recomputeAll, last) == Above(t, recomputeAll, last)
  {
    AboveUntouched(t, t', recomputeAll, last);
  }

  // ----- A run in terms of the columns alone -----

  /** How many rows have a positive id, are active and not deprecated, and have no canonical id unless all are
      recomputed. */
  function Qualifying(t: Table, recomputeAll: bool): nat {
    if t == [] then 0
    else
      var r := t[0];
      (if r.id > 0 && r.active && !r.deprecated && (recomputeAll || r.canonicalId == None) then 1 else 0)
      + Qualifying(t[1..], recomputeAll)
  }

  /** Row `i` comes, among the rows that qualify, before the limit; a negative limit counts from the end. */
  predicate WithinLimit(t: Table, recomputeAll: bool, limit: Option<int>, i: nat)
    requires i < |t|
  {
    match limit
    case None => true
    case Some(n) =>
      Qualifying(t[..i], recomputeAll) < if n >= 0 then n else Qualifying(t, recomputeAll) + n
  }

  /** Row `i` before and after a run. */
  predicate Backfilled(
    t: Table, t': Table, recomputeAll: bool, limit: Option<int>, alias: Alias, fails: int -> bool, i: nat)
    requires i < |t| == |t'|
  {
    var r := t[i];
    if r.id > 0 && r.active && !r.deprecated && (recomputeAll || r.canonicalId == None)
       && WithinLimit(t, recomputeAll, limit, i) && !fails(r.id)
       && (Known(alias, r.providerModelId) || Known(alias, r.modelName))
    then t'[i] == r.(canonicalId := if Known(alias, r.providerModelId) then alias(r.providerModelId.value)
                                    else alias(r.modelName.value))
    else t'[i] == r
  }

  lemma {:induction false} AboveCount(t: Table, recomputeAll: bool)
    ensures |Above(t, recomputeAll, 0)| == Qualifying(t, recomputeAll)
  {
    if t != [] {
      AboveCount(t[1..], recomputeAll);
    }
  }

  lemma AboveConcatStep(r: Row, rest: Table, b: Table, recomputeAll: bool)
    requires Above(rest + b, recomputeAll, 0) == Above(rest, recomputeAll, 0) + Above(b, recomputeAll, 0)
    ensures Above([r] + (rest + b), recomputeAll, 0) == Above([r] + rest, recomputeAll, 0) + Above(b, recomputeAll, 0)
  {
    assert ([r] + (rest + b))[1..] == rest + b && ([r] + rest)[1..] == rest;
    Associate([r], Above(rest, recomputeAll, 0), Above(b, recomputeAll, 0));
  }

  lemma {:induction false} AboveConcat(a: Table, b: Table, recomputeAll: bool)
    ensures Above(a + b, recomputeAll, 0) == Above(a, recomputeAll, 0) + Above(b, recomputeAll, 0)
  {
    if a == [] {
      assert a + b == b;
    } else {
      assert a == [a[0]] + a[1..] && a + b == [a[0]] + (a[1..] + b);
      AboveConcat(a[1..], b, recomputeAll);
      AboveConcatStep(a[0], a[1..], b, recomputeAll);
    }
  }

  /** A target row stands among the targets behind those before it in the table. */
  lemma AbovePlace(t: Table, recomputeAll: bool, i: nat)
    requires i < |t| && Target(recomputeAll, t[i]) && t[i].id > 0
    ensures var k := Qualifying(t[..i], recomputeAll);
      k < |Above(t, recomputeAll, 0)| && Above(t, recomputeAll, 0)[k] == t[i]
  {
    assert t == t[..i] + t[i..];
    AboveConcat(t[..i], t[i..], recomputeAll);
    AboveCount(t[..i], recomputeAll);
    AboveCons(t[i..], recomputeAll, 0);
  }

  lemma OrderedPrefixHas(rows: seq<Row>, n: nat, k: nat)
    requires Ordered(rows) && k < |rows| && n <= |rows|
    ensures rows[k] in rows[..n] <==> k < n
  {
    if k < n {
      assert rows[..n][k] == rows[k];
    }
  }

  lemma SliceHas(rows: seq<Row>, limit: Option<int>, k: nat)
    requires Ordered(rows) && k < |rows|
    ensures rows[k] in Slice(rows, limit)
       <==> limit == None || k < if limit.value >= 0 then limit.value else |rows| + limit.value
  {
    var within := Slice(rows, limit);
    SlicePrefix(rows, limit);
    assert within == rows[..|within|];
    OrderedPrefixHas(rows, |within|, k);
  }

  lemma TargetInSlice(t: Table, recomputeAll: bool, limit: Option<int>, i: nat)
    requires Ordered(t) && i < |t| && Target(recomputeAll, t[i]) && t[i].id > 0
    ensures t[i] in Slice(Above(t, recomputeAll, 0), limit) <==> WithinLimit(t, recomputeAll, limit, i)
  {
    AboveOrdered(t, recomputeAll, 0);
    AboveCount(t, recomputeAll);
    AbovePlace(t, recomputeAll, i);
    SliceHas(Above(t, recomputeAll, 0), limit, Qualifying(t[..i], recomputeAll));
  }

  lemma InSliceIff(t: Table, recomputeAll: bool, limit: Option<int>, i: nat)
    requires Ordered(t) && i < |t|
    ensures t[i] in Slice(Above(t, recomputeAll, 0), limit)
       <==> Target(recomputeAll, t[i]) && t[i].id > 0 && WithinLimit(t, recomputeAll, limit, i)
  {
    if Target(recomputeAll, t[i]) && t[i].id > 0 {
      TargetInSlice(t, recomputeAll, limit, i);
    } else {
      SlicePrefix(Above(t, recomputeAll, 0), limit);
      AboveMembers(t, recomputeAll, 0);
    }
  }

  lemma BackfilledAt(
    t: Table, recomputeAll: bool, limit: Option<int>, alias: Alias, fails: int -> bool, i: nat)
    requires Ordered(t) && i < |t|
    ensures var t' := Written(t, Slice(Above(t, recomputeAll, 0), limit), alias, fails);
      Backfilled(t, t', recomputeAll, limit, alias, fails, i)
  {
    InSliceIff(t, recomputeAll, limit, i);
    CanonicalForMeaning(alias, t[i]);
  }

  class Models {
    var table: Table

    constructor (t: Table)
      ensures table == t
    {
      table := t;
    }

    /** `_snapshot_targets`, with the writes of `write` between the pages. */
    method SnapshotTargets(recomputeAll: bool, pageSize: nat, write: Option<Writer>) returns (rows: seq<Row>)
      requires Ordered(table) && pageSize > 0 && (write.Some? ==> Wellbehaved(write.value))
      modifies this
      ensures rows == Above(old(table), recomputeAll, 0) && IsSnapshot(old(table), recomputeAll, rows)
      ensures |table| == |old(table)| && Ordered(table)
      ensures write.None? ==> table == old(table)
    {
      rows := [];
      var last := 0;
      ghost var start := table;
      ghost var all := Above(table, recomputeAll, 0);
      while true
        invariant Scanning(table, recomputeAll, rows, last, all) && |table| == |old(table)|
        invariant write.None? ==> table == old(table)
        decreases |Above(table, recomputeAll, last)|
      {
        var page := Take(Above(table, recomputeAll, last), pageSize);
        if page == [] {
          break;
        }
        ScanPage(table, recomputeAll, rows, last, all, pageSize);
        rows, last := rows + page, page[|page| - 1].id;
        if |page| < pageSize {
          break;
        }
        if write.Some? {
          ScanWrite(table, write.value(table, last), recomputeAll, rows, last, all);
          table := write.value(table, last);
        }
      }
      AboveIsSnapshot(start, recomputeAll);
    }

    /** The loop body of `backfill`; a failed write is counted and skipped. */
    method WriteRow(row: Row, alias: Alias, fails: int -> bool, tally: Tally) returns (tally': Tally)
      modifies this
      ensures table == if Updates(alias, fails, row)
                       then SetCanonical(old(table), row.id, CanonicalFor(alias, row).value) else old(table)
      ensures tally' == AddRow(alias, fails, tally, row)
    {
      tally' := tally;
      var canonical := CanonicalFor(alias, row);
      if Truthy(canonical) {
        if !fails(row.id) {
          table := SetCanonical(table, row.id, canonical.value);
          tally' := tally'.(updated := tally'.updated + 1);
          if canonical != row.providerModelId {
            tally' := tally'.(viaAlias := tally'.viaAlias + 1);
          }
        } else {
          tally' := tally'.(failed := tally'.failed + 1);
        }
      }
    }

    /** The loop of `backfill`: write the targets one by one. */
    method WriteTargets(targets: seq<Row>, alias: Alias, fails: int -> bool) returns (tally: Tally)
      requires Ordered(table) && forall k :: 0 <= k < |targets| ==> targets[k] in table
      modifies this
      ensures table == Written(old(table), targets, alias, fails) && tally == TallyOf(alias, fails, targets)
    {
      ghost var start := table;
      tally := Tally(0, 0, 0);
      assert table == Written(table, targets[..0], alias, fails);
      for k := 0 to |targets|
        invariant table == Written(start, targets[..k], alias, fails) && tally == TallyOf(alias, fails, targets[..k])
      {
        WrittenStep(start, targets, k, alias, fails);
        TallyStep(alias, fails, targets, k);
        tally := WriteRow(targets[k], alias, fails, tally);
      }
      assert targets[..|targets|] == targets;
    }

    /** `backfill`: read all targets, then write up to `limit` of them. */
    method Backfill(recomputeAll: bool, limit: Option<int>, alias: Alias, fails: int -> bool) returns (tally: Tally)
      requires Ordered(table)
      modifies this
      ensures var targets := Slice(Above(old(table), recomputeAll, 0), limit);
        table == Written(old(table), targets, alias, fails) && tally == TallyOf(alias, fails, targets)
      ensures |table| == |old(table)|
      ensures forall i | 0 <= i < |table| :: Backfilled(old(table), table, recomputeAll, limit, alias, fails, i)
    {
      ghost var t := table;
      var all := SnapshotTargets(recomputeAll, PAGE, None);
      AboveMeaning(table, recomputeAll, 0);
      SlicePrefix(all, limit);
      tally := WriteTargets(Slice(all, limit), alias, fails);
      forall i | 0 <= i < |t| ensures Backfilled(t, table, recomputeAll, limit, alias, fails, i) {
        BackfilledAt(t, recomputeAll, limit, alias, fails, i);
      }
    }
  }
}
