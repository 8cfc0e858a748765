/** Rows of the judge (repogauge/runner/judge.py): dataset rows, predictions, result rows, and how one
    harness report becomes the result rows of one batch.  Rows are as
    `_coerce_text` leaves their fields. */
module JudgeRows {
  import opened Wrappers
  import opened Text

  /** Predictions and dataset rows as read: texts stripped, a missing one empty. `solver` is what
      `solver_id or model_name_or_path` holds. */
  datatype Prediction = Prediction(instance: string, solver: string, model: string, patch: string)

  datatype DatasetRow = DatasetRow(instance: string, solver: string, repo: string, version: string, payload: string)

  datatype Status = Resolved | NotResolved | Skipped | Errored

  /** `data` stands for the fields copied from the dataset row. */
  datatype ResultRow = ResultRow(instance: string, solver: string, status: Status, resolved: bool,
                                 reason: Option<string>, error: Option<string>, environment: string,
                                 batchKey: Option<string>, data: DatasetRow)

  /** (solver, instance) */
  type Key = (string, string)

  // ---------- keys ----------

  function MakeKey(solver: string, instance: string): Option<Key> {
    if instance == "" || solver == "" then None else Some((solver, instance))
  }

  function PredictionKey(p: Prediction): Option<Key> {
    MakeKey(p.solver, p.instance)
  }

  function RowKey(r: ResultRow): Option<Key> {
    MakeKey(r.solver, r.instance)
  }

  // ---------- statuses and rows ----------

  function Lower(s: string): string {
    if s == "" then "" else [if 'A' <= s[0] <= 'Z' then s[0] - 'A' + 'a' else s[0]] + Lower(s[1..])
  }

  function NormalizeStatus(text: string): Status {
    var value := Lower(text);
    if value in {"resolved", "passed", "pass"} then Resolved
    else if value in {"not_resolved", "unresolved", "failed"} then NotResolved
    else if value in {"skipped", "missing_prediction"} then Skipped
    else if value in {"error", "errored", "crash", "failed_with_exception"} then Errored
    else NotResolved
  }

  /** `_result_row_from_instance`, with the status already normalized. */
  function FromInstance(d: DatasetRow, status: Status, resolved: Option<bool>, reason: Option<string>,
                        error: Option<string>): ResultRow {
    ResultRow(
      d.instance, d.solver, status,
      if resolved.Some? then resolved.value else status == Resolved,
      reason,
      if status == Errored && (error == None || error == Some("")) then reason else error,
      Or(d.version, "default"), None, d)
  }

  function ErrorRow(d: DatasetRow, reason: string): ResultRow {
    FromInstance(d, Errored, None, Some(reason), None)
  }

  function ErrorRows(ds: seq<DatasetRow>, reason: string): seq<ResultRow> {
    seq(|ds|, i requires 0 <= i < |ds| => ErrorRow(ds[i], reason))
  }

  // ---------- harness reports ----------

  datatype RawRow = RawRow(instance: string, status: string, resolved: Option<bool>, reason: Option<string>,
                           error: Option<string>)

  datatype RawResult = RawResult(status: Status, resolved: Option<bool>, reason: Option<string>, error: Option<string>)

  /** The shapes `_parse_harness_results` understands: four lists of ids, a list of rows, or nothing usable. */
  datatype Report =
    | IdLists(resolved: seq<string>, unresolved: seq<string>, errors: seq<string>, incomplete: seq<string>)
    | RowList(rows: seq<RawRow>)
    | Unusable

  function Ids(texts: seq<string>): set<string> {
    set i | 0 <= i < |texts| && texts[i] != "" :: texts[i]
  }

  const RESOLVED := RawResult(Resolved, Some(true), None, None)
  const UNRESOLVED := RawResult(NotResolved, Some(false), None, None)
  const ERRORED := RawResult(Errored, Some(false), Some("harness error"), Some("harness error"))
  const INCOMPLETE := RawResult(Errored, Some(false), Some("incomplete"), Some("incomplete"))

  /** What a report says about one instance: an unresolved id overrides a resolved one, and either overrides
      the error lists; of several rows for one instance the last counts. */
  function Verdict(report: Report, id: string): Option<RawResult> {
    match report
    case IdLists(resolved, unresolved, errors, incomplete) =>
      if id in Ids(unresolved) then Some(UNRESOLVED)
      else if id in Ids(resolved) then Some(RESOLVED)
      else if id in Ids(errors) then Some(ERRORED)
      else if id in Ids(incomplete) then Some(INCOMPLETE)
      else None
    case RowList(rows) => LastRow(rows, id)
    case Unusable => None
  }

  function RowResult(row: RawRow): RawResult {
    RawResult(if row.status == "" then NotResolved else NormalizeStatus(row.status), row.resolved, row.reason,
              row.error)
  }

  function LastRow(rows: seq<RawRow>, id: string): Option<RawResult> {
    if rows == [] || id == "" then None
    else
      var last := rows[|rows| - 1];
      if last.instance == id then Some(RowResult(last))
      else LastRow(rows[..|rows| - 1], id)
  }

  /** `dict.get` */
  function Get<V>(m: map<string, V>, id: string): Option<V> {
    if id in m then Some(m[id]) else None
  }

  /** `m` is the dictionary form of `Verdict`. */
  ghost predicate Tabulates(m: map<string, RawResult>, report: Report) {
    forall id: string {:trigger Get(m, id)} :: Get(m, id) == Verdict(report, id)
  }

  lemma TabulatesEmpty(m: map<string, RawResult>, report: Report)
    requires Tabulates(m, report)
    ensures m == map[] <==> SaysNothing(report)
  {
    if m == map[] {
      forall id: string ensures Verdict(report, id) == None {
        assert Get(m, id) == None;
      }
    } else {
      var id :| id in m;
      assert Get(m, id) == Some(m[id]);
    }
  }

  lemma IdsAppend(texts: seq<string>, i: nat)
    requires i < |texts|
    ensures Ids(texts[..i + 1]) == Ids(texts[..i]) + (if texts[i] != "" then {texts[i]} else {})
  {
    var more := texts[..i + 1];
    assert forall j | 0 <= j < i :: more[j] == texts[..i][j];
    assert more[i] == texts[i];
  }

  /** `by_instance`, filled list by list exactly as the parser does. */
  method ByInstance(report: Report) returns (m: map<string, RawResult>)
    ensures Tabulates(m, report)
  {
    m := map[];
    match report
    case IdLists(resolved, unresolved, errors, incomplete) =>
      m := SetAll(m, resolved, RESOLVED);
      m := SetAll(m, unresolved, UNRESOLVED);
      m := SetMissing(m, errors, ERRORED);
      m := SetMissing(m, incomplete, INCOMPLETE);
    case RowList(rows) =>
      for i := 0 to |rows|
        invariant Tabulates(m, RowList(rows[..i]))
      {
        assert rows[..i + 1][..i] == rows[..i];
        var id := rows[i].instance;
        ghost var before := m;
        if id != "" {
          m := m[id := RowResult(rows[i])];
        }
        forall other: string ensures Get(m, other) == Verdict(RowList(rows[..i + 1]), other) {
          assert Get(before, other) == LastRow(rows[..i], other);
        }
      }
      assert rows[..|rows|] == rows;
    case Unusable =>
      assert forall id: string :: Get(m, id) == Verdict(report, id);
  }

  method SetAll(m0: map<string, RawResult>, texts: seq<string>, result: RawResult) returns (m: map<string, RawResult>)
    ensures m.Keys == m0.Keys + Ids(texts)
    ensures forall id | id in m :: m[id] == if id in Ids(texts) then result else m0[id]
  {
    m := m0;
    for i := 0 to |texts|
      invariant m.Keys == m0.Keys + Ids(texts[..i])
      invariant forall id | id in m :: m[id] == if id in Ids(texts[..i]) then result else m0[id]
    {
      IdsAppend(texts, i);
      var id := texts[i];
      if id != "" {
        m := m[id := result];
      }
    }
    assert texts[..|texts|] == texts;
  }

  method SetMissing(m0: map<string, RawResult>, texts: seq<string>, result: RawResult)
    returns (m: map<string, RawResult>)
    ensures m.Keys == m0.Keys + Ids(texts)
    ensures forall id | id in m :: m[id] == if id in m0 then m0[id] else result
  {
    m := m0;
    for i := 0 to |texts|
      invariant m.Keys == m0.Keys + Ids(texts[..i])
      invariant forall id | id in m :: m[id] == if id in m0 then m0[id] else result
    {
      IdsAppend(texts, i);
      var id := texts[i];
      if id != "" && id !in m {
        m := m[id := result];
      }
    }
    assert texts[..|texts|] == texts;
  }

  /** The row for one dataset row, given what the report says about its instance. */
  function VerdictRow(d: DatasetRow, verdict: Option<RawResult>): ResultRow {
    match verdict
    case None => FromInstance(d, NotResolved, None, Some("no harness result for instance"), None)
    case Some(raw) => FromInstance(d, raw.status, raw.resolved, raw.reason, raw.error)
  }

  function ParsedRow(d: DatasetRow, report: Report): ResultRow {
    VerdictRow(d, Verdict(report, d.instance))
  }

  function ParsedAll(ds: seq<DatasetRow>, report: Report): (rows: seq<ResultRow>)
    ensures |rows| == |ds|
  {
    if ds == [] then [] else ParsedAll(ds[..|ds| - 1], report) + [ParsedRow(ds[|ds| - 1], report)]
  }

  ghost predicate SaysNothing(report: Report) {
    forall id: string :: Verdict(report, id) == None
  }

  // ---------- solver ids ----------

  /** Predictions for one instance, in order. */
  function Matches(ps: seq<Prediction>, id: string): seq<Prediction> {
    if ps == [] then []
    else
      var last := ps[|ps| - 1];
      var before := Matches(ps[..|ps| - 1], id);
      if last.instance == id then before + [last] else before
  }

  /** A row without a solver takes that of the one prediction for its instance, if there is exactly one. */
  function AugmentRow(r: ResultRow, ps: seq<Prediction>): ResultRow {
    var id := r.instance;
    if r.solver != "" || id == "" then r
    else
      var matches := Matches(ps, id);
      if |matches| != 1 || matches[0].solver == "" then r
      else r.(solver := matches[0].solver)
  }

  function Augment(rs: seq<ResultRow>, ps: seq<Prediction>): seq<ResultRow> {
    seq(|rs|, i requires 0 <= i < |rs| => AugmentRow(rs[i], ps))
  }

  /** `index` is the dictionary from instance to its predictions. */
  ghost predicate Indexes(index: map<string, seq<Prediction>>, ps: seq<Prediction>) {
    forall id: string | id != "" ::
      if Matches(ps, id) == [] then id !in index else id in index && index[id] == Matches(ps, id)
  }

  method IndexByInstance(ps: seq<Prediction>) returns (index: map<string, seq<Prediction>>)
    ensures Indexes(index, ps)
  {
    index := map[];
    for i := 0 to |ps|
      invariant Indexes(index, ps[..i])
    {
      assert ps[..i + 1][..i] == ps[..i];
      var id := ps[i].instance;
      if id != "" {
        index := index[id := (if id in index then index[id] else []) + [ps[i]]];
      }
    }
    assert ps[..|ps|] == ps;
  }

  /** `_augment_instance_rows_with_prediction_solver_ids`: rows are changed in place. */
  method AugmentInPlace(rows: array<ResultRow>, ps: seq<Prediction>)
    modifies rows
    ensures rows[..] == Augment(old(rows[..]), ps)
  {
    var index := IndexByInstance(ps);
    for i := 0 to rows.Length
      invariant forall j | 0 <= j < i :: rows[j] == AugmentRow(old(rows[j]), ps)
      invariant forall j | i <= j < rows.Length :: rows[j] == old(rows[j])
    {
      var row := rows[i];
      var id := row.instance;
      if row.solver == "" && id != "" {
        assert if Matches(ps, id) == [] then id !in index else id in index && index[id] == Matches(ps, id);
        var matches := if id in index then index[id] else [];
        if |matches| == 1 && matches[0].solver != "" {
          rows[i] := row.(solver := matches[0].solver);
        }
      }
    }
  }

  /** The rows of one batch: those the report leads to, with solver ids filled in; a report that says nothing
      about any instance makes every row an error, and those rows stay without a solver id. */
  ghost function BatchRows(ds: seq<DatasetRow>, ps: seq<Prediction>, report: Report): seq<ResultRow> {
    if SaysNothing(report) then ErrorRows(ds, "missing harness per-instance results")
    else Augment(ParsedAll(ds, report), ps)
  }

  /** The second half of `_parse_harness_results`: one row per dataset row, unless the report says nothing. */
  method ParsedRows(ds: seq<DatasetRow>, report: Report) returns (rows: seq<ResultRow>)
    ensures rows == if SaysNothing(report) then [] else ParsedAll(ds, report)
  {
    var byInstance := ByInstance(report);
    TabulatesEmpty(byInstance, report);
    if byInstance == map[] {
      return [];
    }
    rows := LookupRows(ds, byInstance, report);
  }

  method LookupRows(ds: seq<DatasetRow>, byInstance: map<string, RawResult>, ghost report: Report)
    returns (rows: seq<ResultRow>)
    requires Tabulates(byInstance, report)
    ensures rows == ParsedAll(ds, report)
  {
    rows := [];
    for i := 0 to |ds|
      invariant rows == ParsedAll(ds[..i], report)
    {
      assert ds[..i + 1][..i] == ds[..i];
      rows := rows + [VerdictRow(ds[i], Get(byInstance, ds[i].instance))];
    }
    assert ds[..|ds|] == ds;
  }

  /** The result-row part of `_run_batch`. */
  method RunBatch(ds: seq<DatasetRow>, ps: seq<Prediction>, report: Report) returns (rows: seq<ResultRow>)
    ensures rows == BatchRows(ds, ps, report)
  {
    rows := ParsedRows(ds, report);
    ghost var parsed := rows;
    var cells := new ResultRow[|rows|](i requires 0 <= i < |rows| => rows[i]);
    assert cells[..] == parsed;
    AugmentInPlace(cells, ps);
    rows := cells[..];
    assert rows == Augment(parsed, ps);
    if rows == [] {
      rows := ErrorRows(ds, "missing harness per-instance results");
    }
  }
}
