/** The quality-score backfill: provider rows folded into families, and inferred scores upserted chunk by chunk. */
module QualityScores {
  import opened Lists
  import opened Outcomes

  // ----- Families -----

  datatype RawContext = Missing | Number(value: int) | Text(text: string)

  /** An active row of `models`; a null canonical id reads as the empty string. */
  datatype ModelRow = ModelRow(canonicalId: string, isReasoning: bool, context: RawContext)

  datatype Signals = Signals(name: string, isReasoning: bool, context: Option<int>)

  /** `int(text)`, where it succeeds. */
  type ParseInt = string -> Option<int>

  /** `n or None` */
  function OrNone(n: int): Option<int> {
    if n == 0 then None else Some(n)
  }

  /** `x or 0` */
  function OrZero(x: Option<int>): int {
    match x
    case Some(n) => n
    case None => 0
  }

  /** The context length of a row, with zero and unreadable values as `None`. */
  function Context(parse: ParseInt, r: ModelRow): Option<int> {
    match r.context
    case Missing => None
    case Number(n) => OrNone(n)
    case Text(s) => if s == "" || parse(s) == None then None else OrNone(parse(s).value)
  }

  predicate InFamily(r: ModelRow, cid: string) {
    r.canonicalId == cid && cid != ""
  }

  predicate HasRow(rows: seq<ModelRow>, cid: string) {
    exists r <- rows :: InFamily(r, cid)
  }

  /** The largest context among the rows of a family, unknown ones counting as zero. */
  function MaxContext(parse: ParseInt, rows: seq<ModelRow>, cid: string): int
    requires HasRow(rows, cid)
  {
    var init, last := rows[..|rows| - 1], rows[|rows| - 1];
    assert rows == init + [last];
    var own := OrZero(Context(parse, last));
    if !InFamily(last, cid) then MaxContext(parse, init, cid)
    else if HasRow(init, cid) then Max(MaxContext(parse, init, cid), own)
    else own
  }

  /** The signals of a family as a whole: OR of the reasoning flags, largest context, the canonical id as its name. */
  function Family(parse: ParseInt, rows: seq<ModelRow>, cid: string): Signals
    requires HasRow(rows, cid)
  {
    Signals(cid, exists r <- rows :: InFamily(r, cid) && r.isReasoning, OrNone(MaxContext(parse, rows, cid)))
  }

  function Families(parse: ParseInt, rows: seq<ModelRow>): map<string, Signals> {
    map r | r in rows && r.canonicalId != "" :: r.canonicalId := Family(parse, rows, r.canonicalId)
  }

  lemma {:induction false} MaxContextMeaning(parse: ParseInt, rows: seq<ModelRow>, cid: string)
    requires HasRow(rows, cid)
    ensures forall r <- rows :: InFamily(r, cid) ==> OrZero(Context(parse, r)) <= MaxContext(parse, rows, cid)
    ensures exists r <- rows :: InFamily(r, cid) && OrZero(Context(parse, r)) == MaxContext(parse, rows, cid)
  {
    var init, last := rows[..|rows| - 1], rows[|rows| - 1];
    assert rows == init + [last];
    if HasRow(init, cid) {
      MaxContextMeaning(parse, init, cid);
      var r :| r in init && InFamily(r, cid) && OrZero(Context(parse, r)) == MaxContext(parse, init, cid);
      assert r in rows;
    }
    assert last in rows;
  }

  lemma FamiliesAt(parse: ParseInt, rows: seq<ModelRow>, cid: string)
    ensures cid in Families(parse, rows) <==> HasRow(rows, cid)
    ensures HasRow(rows, cid) ==> Families(parse, rows)[cid] == Family(parse, rows, cid)
  {
  }

  lemma SameMap(a: map<string, Signals>, b: map<string, Signals>)
    requires forall k :: k in a <==> k in b
    requires forall k :: k in a ==> a[k] == b[k]
    ensures a == b
  {
  }

  lemma SameRows(a: seq<ModelRow>, b: seq<ModelRow>)
    requires multiset(a) == multiset(b)
    ensures forall r :: r in a <==> r in b
  {
    assert forall r :: r in a <==> r in multiset(a);
    assert forall r :: r in b <==> r in multiset(b);
  }

  lemma FamilySameRows(parse: ParseInt, a: seq<ModelRow>, b: seq<ModelRow>, cid: string)
    requires forall r :: r in a <==> r in b
    ensures HasRow(a, cid) <==> HasRow(b, cid)
    ensures HasRow(a, cid) ==> Family(parse, a, cid) == Family(parse, b, cid)
  {
    if HasRow(a, cid) {
      assert HasRow(b, cid);
      MaxContextMeaning(parse, a, cid);
      MaxContextMeaning(parse, b, cid);
    }
  }

  /** The families do not depend on the order of the rows. */
  lemma FamiliesPermutation(parse: ParseInt, a: seq<ModelRow>, b: seq<ModelRow>)
    requires multiset(a) == multiset(b)
    ensures Families(parse, a) == Families(parse, b)
  {
    SameRows(a, b);
    var x, y := Families(parse, a), Families(parse, b);
    forall cid ensures cid in x <==> cid in y ensures cid in x ==> x[cid] == y[cid] {
      FamilySameRows(parse, a, b, cid);
      FamiliesAt(parse, a, cid);
      FamiliesAt(parse, b, cid);
    }
    SameMap(x, y);
  }

  /** `prev` updated with one more row of its family. */
  function Merge(parse: ParseInt, prev: Signals, r: ModelRow): Signals {
    Signals(prev.name, prev.isReasoning || r.isReasoning,
            OrNone(Max(OrZero(prev.context), OrZero(Context(parse, r)))))
  }

  lemma FamilyAppend(parse: ParseInt, rows: seq<ModelRow>, r: ModelRow, cid: string)
    ensures HasRow(rows + [r], cid) <==> HasRow(rows, cid) || InFamily(r, cid)
    ensures HasRow(rows + [r], cid) ==>
      Family(parse, rows + [r], cid)
      == if !InFamily(r, cid) then Family(parse, rows, cid)
         else if HasRow(rows, cid) then Merge(parse, Family(parse, rows, cid), r)
         else Signals(cid, r.isReasoning, Context(parse, r))
  {
    var all := rows + [r];
    assert all[..|all| - 1] == rows && all[|all| - 1] == r;
    assert forall x :: x in all <==> x in rows || x == r;
  }

  /** What one more row makes of the signals of its family. */
  function Absorbed(parse: ParseInt, before: map<string, Signals>, r: ModelRow): Signals {
    if r.canonicalId in before then Merge(parse, before[r.canonicalId], r)
    else Signals(r.canonicalId, r.isReasoning, Context(parse, r))
  }

  lemma FamiliesAppendAt(parse: ParseInt, rows: seq<ModelRow>, r: ModelRow, cid: string)
    ensures var before, after := Families(parse, rows), Families(parse, rows + [r]);
      && (cid in after <==> cid in before || InFamily(r, cid))
      && (cid in after ==> after[cid] == if InFamily(r, cid) then Absorbed(parse, before, r) else before[cid])
  {
    FamiliesAt(parse, rows, cid);
    FamiliesAt(parse, rows + [r], cid);
    FamilyAppend(parse, rows, r, cid);
  }

  /** One more row. */
  lemma FamiliesAppend(parse: ParseInt, rows: seq<ModelRow>, r: ModelRow)
    ensures var before := Families(parse, rows);
      Families(parse, rows + [r])
      == if r.canonicalId == "" then before else before[r.canonicalId := Absorbed(parse, before, r)]
  {
    var before, after := Families(parse, rows), Families(parse, rows + [r]);
    forall cid
      ensures cid in after <==> cid in before || InFamily(r, cid)
      ensures cid in after ==> after[cid] == if InFamily(r, cid) then Absorbed(parse, before, r) else before[cid]
    {
      FamiliesAppendAt(parse, rows, r, cid);
    }
    SameMap(after, if r.canonicalId == "" then before else before[r.canonicalId := Absorbed(parse, before, r)]);
  }

  /** The context length a row gives, zero when it gives none. */
  function Reading(parse: ParseInt, r: ModelRow): int {
    match r.context
    case Missing => 0
    case Number(n) => n
    case Text(s) => if s != "" && parse(s).Some? then parse(s).value else 0
  }

  /** The signals of a family: its id as the name, whether some row reasons, and the largest of the rows' context
      lengths unless that is zero. */
  ghost predicate Describes(parse: ParseInt, rows: seq<ModelRow>, cid: string, f: Signals) {
    var longest := if f.context == None then 0 else f.context.value;
    && f.name == cid && f.context != Some(0)
    && (f.isReasoning <==> exists r <- rows :: r.canonicalId == cid && r.isReasoning)
    && (forall r <- rows :: r.canonicalId == cid ==> Reading(parse, r) <= longest)
    && (exists r <- rows :: r.canonicalId == cid && Reading(parse, r) == longest)
  }

  lemma ContextReads(parse: ParseInt, r: ModelRow)
    ensures OrZero(Context(parse, r)) == Reading(parse, r)
  {
  }

  lemma FamilyDescribed(parse: ParseInt, rows: seq<ModelRow>, cid: string)
    requires cid != "" && HasRow(rows, cid)
    ensures Describes(parse, rows, cid, Family(parse, rows, cid))
  {
    MaxContextMeaning(parse, rows, cid);
    forall r | r in rows ensures OrZero(Context(parse, r)) == Reading(parse, r) {
      ContextReads(parse, r);
    }
  }

  /** The families of the rows with a canonical id, each described by its rows. */
  lemma FamiliesMeaning(parse: ParseInt, rows: seq<ModelRow>, cid: string)
    ensures cid in Families(parse, rows) <==> cid != "" && exists r <- rows :: r.canonicalId == cid
    ensures cid in Families(parse, rows) ==> Describes(parse, rows, cid, Families(parse, rows)[cid])
  {
    FamiliesAt(parse, rows, cid);
    if HasRow(rows, cid) {
      FamilyDescribed(parse, rows, cid);
    }
  }

  /** The families are named after their canonical ids. */
  lemma FamilyNames(parse: ParseInt, rows: seq<ModelRow>)
    ensures forall cid <- Families(parse, rows) :: Families(parse, rows)[cid].name == cid
  {
  }

  /** The loop body for a row with a canonical id: the larger variant gives the name, which is the canonical id. */
  method AddRow(
    families: map<string, Signals>, best: map<string, real>, r: ModelRow, parse: ParseInt, params: ModelRow -> real)
    returns (families': map<string, Signals>, best': map<string, real>)
    requires r.canonicalId in families ==> r.canonicalId in best && families[r.canonicalId].name == r.canonicalId
    ensures families' == families[r.canonicalId := Absorbed(parse, families, r)]
    ensures best'.Keys == best.Keys + {r.canonicalId}
  {
    var cid := r.canonicalId;
    var name, ctx := cid, Context(parse, r);
    if cid !in families {
      return families[cid := Signals(name, r.isReasoning, ctx)], best[cid := params(r)];
    }
    var prev := families[cid];
    var larger := params(r) > best[cid];
    families' := families[cid := Signals(if larger then name else prev.name, prev.isReasoning || r.isReasoning,
                                         OrNone(Max(OrZero(prev.context), OrZero(ctx))))];
    best' := best[cid := if larger then params(r) else best[cid]];
  }

  /** The rows of one page, after those already `seen`. */
  method AddPage(
    families: map<string, Signals>, best: map<string, real>, rows: seq<ModelRow>, parse: ParseInt,
    params: ModelRow -> real, ghost seen: seq<ModelRow>)
    returns (families': map<string, Signals>, best': map<string, real>)
    requires families == Families(parse, seen) && families.Keys <= best.Keys
    ensures families' == Families(parse, seen + rows) && families'.Keys <= best'.Keys
  {
    families', best' := families, best;
    ghost var before := seen;
    for k := 0 to |rows|
      invariant before == seen + rows[..k]
      invariant families' == Families(parse, before) && families'.Keys <= best'.Keys
    {
      FamiliesAppend(parse, before, rows[k]);
      FamilyNames(parse, before);
      before := before + [rows[k]];
      if rows[k].canonicalId != "" {
        families', best' := AddRow(families', best', rows[k], parse, params);
      }
    }
    assert rows[..|rows|] == rows;
  }

  /** The paged fold over the active rows. */
  method AggregateFamilies(table: seq<ModelRow>, pageSize: nat, parse: ParseInt, params: ModelRow -> real)
    returns (families: map<string, Signals>)
    requires pageSize > 0
    ensures families == Families(parse, table)
    ensures forall cid :: cid in families <==> cid != "" && exists r <- table :: r.canonicalId == cid
    ensures forall cid <- families :: Describes(parse, table, cid, families[cid])
  {
    families := map[];
    var best: map<string, real> := map[];
    var offset := 0;
    ghost var seen := [];
    while true
      invariant offset <= |table| && seen == table[..offset]
      invariant families == Families(parse, seen) && families.Keys <= best.Keys
      decreases |table| - offset
    {
      var end := if offset + pageSize < |table| then offset + pageSize else |table|;
      var rows := table[offset..end];
      if rows == [] {
        break;
      }
      families, best := AddPage(families, best, rows, parse, params, seen);
      seen := seen + rows;
      assert seen == table[..end];
      if |rows| < pageSize {
        break;
      }
      offset := offset + pageSize;
    }
    assert seen == table;
    forall cid
      ensures cid in families <==> cid != "" && exists r <- table :: r.canonicalId == cid
      ensures cid in families ==> Describes(parse, table, cid, families[cid])
    {
      FamiliesMeaning(parse, table, cid);
    }
  }

  // ----- Scores -----

  /** Keys are `(model_id, task_type)`, which is unique. */
  type Key = (string, string)

  datatype Score = Score(value: real, source: string)

  type ScoreTable = map<Key, Score>

  datatype ScoreRow = ScoreRow(modelId: string, task: string, value: real) {
    function Key(): Key {
      (modelId, task)
    }
  }

  predicate Curated(s: Score) {
    s.source == "manual" || s.source == "benchmark"
  }

  function CuratedIds(table: ScoreTable): set<string> {
    set k | k in table && Curated(table[k]) :: k.0
  }

  /** A dictionary from tasks to scores, in its iteration order. */
  type TaskScores = s: seq<(string, real)> | forall i, j :: 0 <= i < j < |s| ==> s[i].0 != s[j].0
    witness []

  /** `infer_quality` */
  type Infer = Signals -> TaskScores

  /** `sorted(families)` */
  type Sorting = set<string> -> seq<string>

  ghost predicate Enumerates(sorting: Sorting) {
    forall s ::
      && (forall x :: x in sorting(s) <==> x in s)
      && forall i, j :: 0 <= i < j < |sorting(s)| ==> sorting(s)[i] != sorting(s)[j]
  }

  function Excluding(ids: seq<string>, curated: set<string>): seq<string> {
    if ids == [] then [] else (if ids[0] in curated then [] else [ids[0]]) + Excluding(ids[1..], curated)
  }

  function Targets(families: map<string, Signals>, table: ScoreTable, limit: Option<int>, sorting: Sorting)
    : seq<string>
  {
    Slice(Excluding(sorting(families.Keys), CuratedIds(table)), limit)
  }

  function FamilyRows(cid: string, scores: seq<(string, real)>): seq<ScoreRow> {
    seq(|scores|, i requires 0 <= i < |scores| => ScoreRow(cid, scores[i].0, scores[i].1))
  }

  function Rows(targets: seq<string>, families: map<string, Signals>, infer: Infer): seq<ScoreRow>
    requires forall cid <- targets :: cid in families
  {
    if targets == [] then []
    else
      var init, last := targets[..|targets| - 1], targets[|targets| - 1];
      Rows(init, families, infer) + FamilyRows(last, infer(families[last]))
  }

  predicate DistinctKeys(rows: seq<ScoreRow>) {
    forall i, j :: 0 <= i < j < |rows| ==> rows[i].Key() != rows[j].Key()
  }

  function Put(table: ScoreTable, rows: seq<ScoreRow>): ScoreTable {
    if rows == [] then table
    else Put(table, rows[..|rows| - 1])[rows[|rows| - 1].Key() := Score(rows[|rows| - 1].value, "inferred")]
  }

  /** An upsert on `(model_id, task_type)`: the database refuses a statement that touches one key twice. */
  function Upsert(table: ScoreTable, chunk: seq<ScoreRow>): Try<ScoreTable> {
    if DistinctKeys(chunk) then Ok(Put(table, chunk)) else Raise
  }

  /** The table after a run over the given families. */
  function AfterRun(
    table: ScoreTable, families: map<string, Signals>, limit: Option<int>, infer: Infer, sorting: Sorting): ScoreTable
    requires forall cid <- Targets(families, table, limit, sorting) :: cid in families
  {
    Put(table, Rows(Targets(families, table, limit, sorting), families, infer))
  }

  predicate DistinctIds(ids: seq<string>) {
    forall i, j :: 0 <= i < j < |ids| ==> ids[i] != ids[j]
  }

  lemma {:induction false} ExcludingMeaning(ids: seq<string>, curated: set<string>)
    requires DistinctIds(ids)
    ensures DistinctIds(Excluding(ids, curated))
    ensures forall cid :: cid in Excluding(ids, curated) <==> cid in ids && cid !in curated
  {
    if ids != [] {
      ExcludingMeaning(ids[1..], curated);
      var rest := Excluding(ids[1..], curated);
      assert forall i :: 0 <= i < |rest| ==> rest[i] in rest;
    }
  }

  lemma TargetsMeaning(families: map<string, Signals>, table: ScoreTable, limit: Option<int>, sorting: Sorting)
    requires Enumerates(sorting)
    ensures var targets := Targets(families, table, limit, sorting);
      DistinctIds(targets) && forall cid <- targets :: cid in families && cid !in CuratedIds(table)
  {
    var ids := sorting(families.Keys);
    assert DistinctIds(ids);
    ExcludingMeaning(ids, CuratedIds(table));
    var all, targets := Excluding(ids, CuratedIds(table)), Targets(families, table, limit, sorting);
    assert targets == all[..|targets|];
    assert forall i :: 0 <= i < |targets| ==> targets[i] in all;
  }

  /** There is exactly one row for each target and each of its tasks. */
  lemma {:induction false} RowsMeaning(targets: seq<string>, families: map<string, Signals>, infer: Infer)
    requires DistinctIds(targets) && forall cid <- targets :: cid in families
    ensures DistinctKeys(Rows(targets, families, infer))
    ensures forall row :: (row in Rows(targets, families, infer)
                           <==> row.modelId in targets && (row.task, row.value) in infer(families[row.modelId]))
  {
    if targets != [] {
      var init, last := targets[..|targets| - 1], targets[|targets| - 1];
      assert targets == init + [last];
      RowsMeaning(init, families, infer);
      var before, own := Rows(init, families, infer), FamilyRows(last, infer(families[last]));
      forall row ensures row in own <==> row.modelId == last && (row.task, row.value) in infer(families[last]) {
        if row.modelId == last && (row.task, row.value) in infer(families[last]) {
          var i :| 0 <= i < |own| && infer(families[last])[i] == (row.task, row.value);
          assert own[i] == row;
        }
      }
      forall i, j | 0 <= i < |before| && 0 <= j < |own| ensures before[i].Key() != own[j].Key() {
        assert before[i] in before && own[j] in own;
      }
    }
  }

  lemma {:induction false} PutMeaning(table: ScoreTable, rows: seq<ScoreRow>)
    requires DistinctKeys(rows)
    ensures forall row <- rows ::
      row.Key() in Put(table, rows) && Put(table, rows)[row.Key()] == Score(row.value, "inferred")
    ensures forall k :: (forall row <- rows :: row.Key() != k) ==>
      (k in Put(table, rows) <==> k in table) && (k in table ==> Put(table, rows)[k] == table[k])
  {
    if rows != [] {
      var init, last := rows[..|rows| - 1], rows[|rows| - 1];
      assert rows == init + [last];
      PutMeaning(table, init);
    }
  }

  lemma {:induction false} PutConcat(table: ScoreTable, a: seq<ScoreRow>, b: seq<ScoreRow>)
    ensures Put(table, a + b) == Put(Put(table, a), b)
  {
    if b == [] {
      assert a + b == a;
    } else {
      assert (a + b)[..|a + b| - 1] == a + b[..|b| - 1];
      PutConcat(table, a, b[..|b| - 1]);
    }
  }

  /** Upserting the next chunk never repeats a key, and continues the whole upsert. */
  lemma ChunkUpsert(table: ScoreTable, rows: seq<ScoreRow>, a: nat, b: nat)
    requires DistinctKeys(rows) && a <= b <= |rows|
    ensures Upsert(Put(table, rows[..a]), rows[a..b]) == Ok(Put(table, rows[..b]))
  {
    PutConcat(table, rows[..a], rows[a..b]);
    assert rows[..b] == rows[..a] + rows[a..b];
  }

  // ----- A run in terms of the sources alone -----

  /** Some score of the family was entered by hand or measured. */
  predicate HasCurated(table: ScoreTable, cid: string) {
    exists k <- table :: k.0 == cid && (table[k].source == "manual" || table[k].source == "benchmark")
  }

  lemma CuratedIdsMeaning(table: ScoreTable, cid: string)
    ensures cid in CuratedIds(table) <==> HasCurated(table, cid)
  {
  }

  /** How many of the families have no such score. */
  function Uncurated(table: ScoreTable, ids: seq<string>): nat {
    if ids == [] then 0 else (if HasCurated(table, ids[0]) then 0 else 1) + Uncurated(table, ids[1..])
  }

  /** Family `i` comes, among those without such a score, before the limit; a negative limit counts from the end. */
  predicate WithinLimit(table: ScoreTable, ids: seq<string>, limit: Option<int>, i: nat)
    requires i < |ids|
  {
    match limit
    case None => true
    case Some(n) => Uncurated(table, ids[..i]) < if n >= 0 then n else Uncurated(table, ids) + n
  }

  lemma {:induction false} ExcludingCount(table: ScoreTable, ids: seq<string>)
    ensures |Excluding(ids, CuratedIds(table))| == Uncurated(table, ids)
  {
    if ids != [] {
      CuratedIdsMeaning(table, ids[0]);
      ExcludingCount(table, ids[1..]);
    }
  }

  lemma Associate(a: seq<string>, b: seq<string>, c: seq<string>)
    ensures (a + b) + c == a + (b + c)
  {
  }

  lemma {:induction false} ExcludingConcat(a: seq<string>, b: seq<string>, curated: set<string>)
    ensures Excluding(a + b, curated) == Excluding(a, curated) + Excluding(b, curated)
  {
    if a == [] {
      assert a + b == b;
    } else {
      assert (a + b)[1..] == a[1..] + b;
      ExcludingConcat(a[1..], b, curated);
      Associate(if a[0] in curated then [] else [a[0]], Excluding(a[1..], curated), Excluding(b, curated));
    }
  }

  lemma ExcludingPlace(table: ScoreTable, ids: seq<string>, i: nat)
    requires i < |ids| && !HasCurated(table, ids[i])
    ensures var all, k := Excluding(ids, CuratedIds(table)), Uncurated(table, ids[..i]);
      k < |all| && all[k] == ids[i]
  {
    assert ids == ids[..i] + ids[i..];
    ExcludingConcat(ids[..i], ids[i..], CuratedIds(table));
    ExcludingCount(table, ids[..i]);
    CuratedIdsMeaning(table, ids[i]);
  }

  lemma SliceHas(ids: seq<string>, limit: Option<int>, k: nat)
    requires DistinctIds(ids) && k < |ids|
    ensures ids[k] in Slice(ids, limit)
       <==> limit == None || k < if limit.value >= 0 then limit.value else |ids| + limit.value
  {
    var within := Slice(ids, limit);
    SlicePrefix(ids, limit);
    assert within == ids[..|within|];
    if k < |within| {
      assert within[k] == ids[k];
    }
  }

  /** The targets are the families without such a score that come before the limit. */
  lemma TargetIff(
    families: map<string, Signals>, table: ScoreTable, limit: Option<int>, sorting: Sorting, ids: seq<string>, i: nat)
    requires Enumerates(sorting) && ids == sorting(families.Keys) && i < |ids|
    ensures ids[i] in Targets(families, table, limit, sorting)
       <==> !HasCurated(table, ids[i]) && WithinLimit(table, ids, limit, i)
  {
    CuratedIdsMeaning(table, ids[i]);
    if HasCurated(table, ids[i]) {
      TargetsMeaning(families, table, limit, sorting);
    } else {
      assert DistinctIds(ids);
      ExcludingMeaning(ids, CuratedIds(table));
      ExcludingCount(table, ids);
      ExcludingPlace(table, ids, i);
      SliceHas(Excluding(ids, CuratedIds(table)), limit, Uncurated(table, ids[..i]));
    }
  }

  /** The score of a task is as before. */
  predicate Kept(table: ScoreTable, after: ScoreTable, k: Key) {
    (k in after <==> k in table) && (k in table ==> after[k] == table[k])
  }

  predicate Holds(after: ScoreTable, k: Key, value: real) {
    k in after && after[k] == Score(value, "inferred")
  }

  /** The inferred tasks of the family have their scores, its other tasks are as before. */
  ghost predicate Inferred(table: ScoreTable, after: ScoreTable, cid: string, scores: TaskScores) {
    && (forall i :: 0 <= i < |scores| ==> Holds(after, (cid, scores[i].0), scores[i].1))
    && (forall task :: (forall i :: 0 <= i < |scores| ==> scores[i].0 != task) ==> Kept(table, after, (cid, task)))
  }

  /** Every score after a run: those of families without a provider row or with a score entered by hand or measured are
      as before; of the others, in sorted order, those before the limit get their inferred scores. */
  ghost predicate Backfilled(
    table: ScoreTable, after: ScoreTable, models: seq<ModelRow>, families: map<string, Signals>, limit: Option<int>,
    infer: Infer, ids: seq<string>)
    requires forall cid <- ids :: cid in families
  {
    && (forall k: Key :: HasCurated(table, k.0) ==> Kept(table, after, k))
    && (forall k: Key :: k.0 == "" || (forall r <- models :: r.canonicalId != k.0) ==> Kept(table, after, k))
    && (forall i :: 0 <= i < |ids| && !HasCurated(table, ids[i]) ==>
          if WithinLimit(table, ids, limit, i) then Inferred(table, after, ids[i], infer(families[ids[i]]))
          else forall task :: Kept(table, after, (ids[i], task)))
  }

  /** After a run a key holds the inferred score of a target family's task, and every other key is as before: curated
      families keep exactly their rows. */
  lemma RunMeaning(
    table: ScoreTable, families: map<string, Signals>, limit: Option<int>, infer: Infer, sorting: Sorting, k: Key)
    requires Enumerates(sorting)
    ensures var targets := Targets(families, table, limit, sorting);
      && (forall cid <- targets :: cid in families)
      && var after := AfterRun(table, families, limit, infer, sorting);
      && (forall x :: k.0 in targets && (k.1, x) in infer(families[k.0]) ==>
            k in after && after[k] == Score(x, "inferred"))
      && ((k.0 !in targets || forall x :: (k.1, x) !in infer(families[k.0])) ==>
            (k in after <==> k in table) && (k in table ==> after[k] == table[k]))
      && (HasCurated(table, k.0) ==> (k in after <==> k in table) && (k in table ==> after[k] == table[k]))
  {
    CuratedIdsMeaning(table, k.0);
    TargetsMeaning(families, table, limit, sorting);
    var targets := Targets(families, table, limit, sorting);
    RowsMeaning(targets, families, infer);
    var rows := Rows(targets, families, infer);
    PutMeaning(table, rows);
    forall x | k.0 in targets && (k.1, x) in infer(families[k.0]) ensures ScoreRow(k.0, k.1, x) in rows {
    }
  }

  lemma TaskInferred(
    table: ScoreTable, families: map<string, Signals>, limit: Option<int>, infer: Infer, sorting: Sorting, k: Key,
    x: real)
    requires Enumerates(sorting) && k.0 in Targets(families, table, limit, sorting)
    ensures forall cid <- Targets(families, table, limit, sorting) :: cid in families
    ensures (k.1, x) in infer(families[k.0]) ==> Holds(AfterRun(table, families, limit, infer, sorting), k, x)
    ensures (forall y :: (k.1, y) !in infer(families[k.0])) ==>
      Kept(table, AfterRun(table, families, limit, infer, sorting), k)
  {
    RunMeaning(table, families, limit, infer, sorting, k);
  }

  lemma TargetInferred(
    table: ScoreTable, families: map<string, Signals>, limit: Option<int>, infer: Infer, sorting: Sorting, cid: string)
    requires Enumerates(sorting) && cid in Targets(families, table, limit, sorting)
    ensures forall cid <- Targets(families, table, limit, sorting) :: cid in families
    ensures Inferred(table, AfterRun(table, families, limit, infer, sorting), cid, infer(families[cid]))
  {
    TargetsMeaning(families, table, limit, sorting);
    var scores := infer(families[cid]);
    var after := AfterRun(table, families, limit, infer, sorting);
    forall i | 0 <= i < |scores| ensures Holds(after, (cid, scores[i].0), scores[i].1) {
      var task, x := scores[i].0, scores[i].1;
      assert (task, x) == scores[i];
      TaskInferred(table, families, limit, infer, sorting, (cid, task), x);
    }
    forall task | forall i :: 0 <= i < |scores| ==> scores[i].0 != task ensures Kept(table, after, (cid, task)) {
      forall y ensures (task, y) !in scores {
      }
      TaskInferred(table, families, limit, infer, sorting, (cid, task), 0.0);
    }
  }

  lemma OthersKept(
    table: ScoreTable, families: map<string, Signals>, limit: Option<int>, infer: Infer, sorting: Sorting, k: Key)
    requires Enumerates(sorting) && k.0 !in Targets(families, table, limit, sorting)
    ensures forall cid <- Targets(families, table, limit, sorting) :: cid in families
    ensures Kept(table, AfterRun(table, families, limit, infer, sorting), k)
  {
    RunMeaning(table, families, limit, infer, sorting, k);
  }

  lemma RunBackfills(
    table: ScoreTable, models: seq<ModelRow>, parse: ParseInt, limit: Option<int>, infer: Infer, sorting: Sorting)
    requires Enumerates(sorting)
    ensures var families := Families(parse, models);
      && (forall cid <- Targets(families, table, limit, sorting) :: cid in families)
      && Backfilled(table, AfterRun(table, families, limit, infer, sorting), models, families, limit, infer,
                    sorting(families.Keys))
  {
    var families := Families(parse, models);
    var ids := sorting(families.Keys);
    TargetsMeaning(families, table, limit, sorting);
    var after := AfterRun(table, families, limit, infer, sorting);
    forall k: Key | HasCurated(table, k.0) ensures Kept(table, after, k) {
      CuratedIdsMeaning(table, k.0);
      OthersKept(table, families, limit, infer, sorting, k);
    }
    forall k: Key | k.0 == "" || (forall r <- models :: r.canonicalId != k.0) ensures Kept(table, after, k) {
      FamiliesMeaning(parse, models, k.0);
      OthersKept(table, families, limit, infer, sorting, k);
    }
    forall i | 0 <= i < |ids| && !HasCurated(table, ids[i])
      ensures if WithinLimit(table, ids, limit, i) then Inferred(table, after, ids[i], infer(families[ids[i]]))
              else forall task :: Kept(table, after, (ids[i], task))
    {
      TargetIff(families, table, limit, sorting, ids, i);
      if WithinLimit(table, ids, limit, i) {
        TargetInferred(table, families, limit, infer, sorting, ids[i]);
      } else {
        forall task ensures Kept(table, after, (ids[i], task)) {
          OthersKept(table, families, limit, infer, sorting, (ids[i], task));
        }
      }
    }
  }

  class ScoreDb {
    var table: ScoreTable

    constructor (t: ScoreTable)
      ensures table == t
    {
      table := t;
    }

    /** The rows of the curated sources, in whatever order the database lists them. */
    ghost predicate Lists(listing: seq<(Key, Score)>)
      reads this
    {
      && (forall i :: 0 <= i < |listing| ==> listing[i].0 in table && Curated(table[listing[i].0]))
      && (forall k <- table :: Curated(table[k]) ==> exists i :: 0 <= i < |listing| && listing[i].0 == k)
    }

    method CuratedCanonicalIds(listing: seq<(Key, Score)>, pageSize: nat) returns (curated: set<string>)
      requires pageSize > 0 && Lists(listing)
      ensures curated == CuratedIds(table)
      ensures forall cid :: cid in curated <==> HasCurated(table, cid)
    {
      curated := {};
      var offset := 0;
      while true
        invariant offset <= |listing| && curated == set i | 0 <= i < offset :: listing[i].0.0
        decreases |listing| - offset
      {
        var end := if offset + pageSize < |listing| then offset + pageSize else |listing|;
        for k := offset to end
          invariant curated == set i | 0 <= i < k :: listing[i].0.0
        {
          curated := curated + {listing[k].0.0};
        }
        if end - offset < pageSize {
          offset := end;
          break;
        }
        offset := end;
      }
      assert offset == |listing|;
      forall cid ensures cid in CuratedIds(table) <==> HasCurated(table, cid) {
        CuratedIdsMeaning(table, cid);
      }
    }

    /** The loop of `backfill`: upsert the rows in chunks. */
    method UpsertRows(rows: seq<ScoreRow>, pageSize: nat) returns (written: nat)
      requires pageSize > 0 && DistinctKeys(rows)
      modifies this
      ensures table == Put(old(table), rows) && written == |rows|
    {
      written := 0;
      while written < |rows|
        invariant written <= |rows| && table == Put(old(table), rows[..written])
      {
        var end := if written + pageSize < |rows| then written + pageSize else |rows|;
        var chunk := rows[written..end];
        ChunkUpsert(old(table), rows, written, end);
        var result := Upsert(table, chunk);
        table := result.value;
        written := end;
      }
      assert rows[..written] == rows;
    }

    /** `backfill`: aggregate, leave curated families out, infer the rest and upsert the rows. */
    method Backfill(
      models: seq<ModelRow>, listing: seq<(Key, Score)>, pageSize: nat, limit: Option<int>, dryRun: bool,
      parse: ParseInt, params: ModelRow -> real, infer: Infer, sorting: Sorting) returns (written: nat)
      requires pageSize > 0 && Lists(listing) && Enumerates(sorting)
      modifies this
      ensures forall cid <- Targets(Families(parse, models), old(table), limit, sorting) ::
        cid in Families(parse, models)
      ensures dryRun ==> written == 0 && table == old(table)
      ensures !dryRun ==>
        && table == AfterRun(old(table), Families(parse, models), limit, infer, sorting)
        && written
           == |Rows(Targets(Families(parse, models), old(table), limit, sorting), Families(parse, models), infer)|
      ensures !dryRun ==>
        Backfilled(old(table), table, models, Families(parse, models), limit, infer,
                   sorting(Families(parse, models).Keys))
    {
      var families := AggregateFamilies(models, pageSize, parse, params);
      var curated := CuratedCanonicalIds(listing, pageSize);
      var targets := Slice(Excluding(sorting(families.Keys), curated), limit);
      TargetsMeaning(families, table, limit, sorting);
      var rows := Rows(targets, families, infer);
      if dryRun {
        return 0;
      }
      RowsMeaning(targets, families, infer);
      written := UpsertRows(rows, pageSize);
      RunBackfills(old(table), models, parse, limit, infer, sorting);
    }
  }

  lemma {:induction false} PutFixed(table: ScoreTable, rows: seq<ScoreRow>)
    requires forall i :: 0 <= i < |rows| ==>
      rows[i].Key() in table && table[rows[i].Key()] == Score(rows[i].value, "inferred")
    ensures Put(table, rows) == table
  {
    if rows != [] {
      PutFixed(table, rows[..|rows| - 1]);
    }
  }

  lemma CuratedStays(table: ScoreTable, rows: seq<ScoreRow>)
    requires DistinctKeys(rows) && forall row <- rows :: row.modelId !in CuratedIds(table)
    ensures CuratedIds(Put(table, rows)) == CuratedIds(table)
  {
    PutMeaning(table, rows);
    var after := Put(table, rows);
    forall k ensures (k in after && Curated(after[k])) <==> (k in table && Curated(table[k])) {
      if k in table && Curated(table[k]) {
        assert k.0 in CuratedIds(table);
      }
      if row :| row in rows && row.Key() == k {
        assert after[k].source == "inferred";
      }
    }
  }

  /** A second run over unchanged models is the identity. */
  lemma SecondRunIdentity(
    table: ScoreTable, families: map<string, Signals>, limit: Option<int>, infer: Infer, sorting: Sorting)
    requires Enumerates(sorting)
    ensures forall cid <- Targets(families, table, limit, sorting) :: cid in families
    ensures var after := AfterRun(table, families, limit, infer, sorting);
      && (forall cid <- Targets(families, after, limit, sorting) :: cid in families)
      && AfterRun(after, families, limit, infer, sorting) == after
  {
    TargetsMeaning(families, table, limit, sorting);
    var targets := Targets(families, table, limit, sorting);
    RowsMeaning(targets, families, infer);
    var rows := Rows(targets, families, infer);
    CuratedStays(table, rows);
    PutMeaning(table, rows);
    var after := Put(table, rows);
    forall i | 0 <= i < |rows|
      ensures rows[i].Key() in after && after[rows[i].Key()] == Score(rows[i].value, "inferred")
    {
      assert rows[i] in rows;
    }
    PutFixed(after, rows);
  }
}
