/** The advisory diff judge (repogauge/runner/diff_judge.py): a rerun reuses the scored rows of the rows file and asks
    the model again only for the others. What a model call and the parsing of its answer give is a parameter
    (`Reply`), and so is the hash of the prompt (`keyOf`). */
module DiffJudge {
  import opened Wrappers
  import opened Text
  import opened Sorting

  /** A SHA-256 digest in hex: never empty. */
  type CacheKey = s: string | s != "" witness "0"

  datatype JoinedRow = JoinedRow(attempt: string, job: string, instance: string, solver: string, patch: string,
                                 details: string)

  datatype JudgeRow = JudgeRow(attempt: string, job: string, instance: string, solver: string, status: string,
                               cacheKey: string, cacheHit: bool, verdict: string)

  /** A line of the rows file; blank lines and lines that are no JSON object are unreadable. An object whose metadata
      is no object has no fields to look up, and loading raises. */
  datatype Line = Unreadable | Malformed | Readable(row: JudgeRow)

  datatype Reply = Scored(verdict: string) | Failed(error: string)

  /** What a run judges against: the dataset rows by instance and the hash of the prompt they lead to. */
  datatype Source = Source(dataset: map<string, string>, keyOf: (JoinedRow, string) -> CacheKey)

  type Pair = (string, string)

  // ---------- the cache ----------

  predicate Usable(line: Line) {
    line.Readable? && line.row.attempt != "" && line.row.cacheKey != "" && line.row.status == "scored"
  }

  function PairOf(row: JudgeRow): Pair {
    (row.attempt, row.cacheKey)
  }

  /** `_load_existing_rows`: scored rows by (attempt, cache key), the last one winning. */
  function Loaded(lines: seq<Line>): map<Pair, JudgeRow> {
    if lines == [] then map[]
    else
      var before := Loaded(lines[..|lines| - 1]);
      var last := lines[|lines| - 1];
      if Usable(last) then before[PairOf(last.row) := last.row] else before
  }

  method LoadExistingRows(lines: seq<Line>) returns (rows: Option<map<Pair, JudgeRow>>)
    ensures rows == if Malformed in lines then None else Some(Loaded(lines))
  {
    var loaded: map<Pair, JudgeRow> := map[];
    for i := 0 to |lines|
      invariant loaded == Loaded(lines[..i]) && Malformed !in lines[..i]
    {
      assert lines[..i + 1][..i] == lines[..i];
      match lines[i] {
        case Unreadable =>
        case Malformed =>
          return None;
        case Readable(row) =>
          if row.attempt != "" && row.cacheKey != "" && row.status == "scored" {
            loaded := loaded[(row.attempt, row.cacheKey) := row];
          }
      }
    }
    assert lines[..|lines|] == lines;
    rows := Some(loaded);
  }

  ghost predicate Stored(lines: seq<Line>, row: JudgeRow) {
    Readable(row) in lines && Usable(Readable(row))
  }

  /** A pair is in the cache iff a scored row carries it, and then the cached row is such a row. */
  lemma {:induction false} LoadedContents(lines: seq<Line>, pair: Pair)
    ensures pair in Loaded(lines) ==> Stored(lines, Loaded(lines)[pair]) && PairOf(Loaded(lines)[pair]) == pair
    ensures forall row :: Stored(lines, row) && PairOf(row) == pair ==> pair in Loaded(lines)
  {
    if lines != [] {
      var n := |lines| - 1;
      LoadedContents(lines[..n], pair);
      assert lines == lines[..n] + [lines[n]];
      forall row | Stored(lines, row) && PairOf(row) == pair ensures pair in Loaded(lines) {
        assert Readable(row) == lines[n] || Stored(lines[..n], row);
      }
    }
  }

  // ---------- the rows file ----------

  predicate RowLess(a: JudgeRow, b: JudgeRow) {
    Less(a.instance, b.instance)
    || (a.instance == b.instance
        && (Less(a.solver, b.solver) || (a.solver == b.solver && Less(a.attempt, b.attempt))))
  }

  predicate RowLe(a: JudgeRow, b: JudgeRow) {
    !RowLess(b, a)
  }

  function Readables(rows: seq<JudgeRow>): (lines: seq<Line>)
    ensures |lines| == |rows| && forall i | 0 <= i < |rows| :: lines[i] == Readable(rows[i])
  {
    seq(|rows|, i requires 0 <= i < |rows| => Readable(rows[i]))
  }

  /** `_write_rows` */
  function Written(rows: seq<JudgeRow>): seq<Line> {
    Readables(Sort(rows, RowLe))
  }

  lemma RowLessTransitive(a: JudgeRow, b: JudgeRow, c: JudgeRow)
    requires RowLess(a, b) && RowLess(b, c)
    ensures RowLess(a, c)
  {
    if Less(a.instance, b.instance) && Less(b.instance, c.instance) {
      LessTransitive(a.instance, b.instance, c.instance);
    }
    if Less(a.solver, b.solver) && Less(b.solver, c.solver) {
      LessTransitive(a.solver, b.solver, c.solver);
    }
    if Less(a.attempt, b.attempt) && Less(b.attempt, c.attempt) {
      LessTransitive(a.attempt, b.attempt, c.attempt);
    }
  }

  lemma RowLessTotal(a: JudgeRow, b: JudgeRow)
    ensures !(RowLess(a, b) && RowLess(b, a))
    ensures !RowLess(a, b) && !RowLess(b, a)
            ==> a.instance == b.instance && a.solver == b.solver && a.attempt == b.attempt
  {
    LessTotal(a.instance, b.instance);
    LessTotal(a.solver, b.solver);
    LessTotal(a.attempt, b.attempt);
  }

  lemma RowOrderIsTotal()
    ensures TotalPreorder(RowLe)
  {
    forall x, y ensures RowLe(x, y) || RowLe(y, x) {
      RowLessTotal(x, y);
    }
    forall x, y, z | RowLe(x, y) && RowLe(y, z) ensures RowLe(x, z) {
      RowLessTotal(x, y);
      RowLessTotal(y, z);
      if RowLess(z, x) {
        if RowLess(x, y) { RowLessTransitive(z, x, y); }
        if RowLess(y, z) { RowLessTransitive(y, z, x); }
        RowLessTotal(z, y);
      }
    }
  }

  /** The file holds exactly the judged rows, in order of instance, solver and attempt. */
  lemma WrittenContents(rows: seq<JudgeRow>, row: JudgeRow)
    ensures Readable(row) in Written(rows) <==> row in rows
    ensures |Written(rows)| == |rows| && Ordered(Sort(rows, RowLe), RowLe)
  {
    SortContents(rows, RowLe);
    RowOrderIsTotal();
    SortOrdered(rows, RowLe);
    var sorted := Sort(rows, RowLe);
    assert row in sorted <==> row in rows;
    if row in sorted {
      var i :| 0 <= i < |sorted| && sorted[i] == row;
      assert Written(rows)[i] == Readable(row);
    }
  }

  // ---------- judging ----------

  function Candidates(joined: seq<JoinedRow>): seq<JoinedRow> {
    if joined == [] then []
    else
      var before := Candidates(joined[..|joined| - 1]);
      if Strip(joined[|joined| - 1].patch) != "" then before + [joined[|joined| - 1]] else before
  }

  function Decimal(n: nat): (s: string)
    ensures s != ""
  {
    var digit := ['0' + (n % 10) as char];
    if n < 10 then digit else Decimal(n / 10) + digit
  }

  function JobOf(row: JoinedRow): string {
    if row.job != "" then row.job else row.solver + ":" + row.instance
  }

  /** The attempt's id, or one made up from the candidate's position. */
  function AttemptOf(row: JoinedRow, i: nat): (s: string)
    ensures s != ""
  {
    if row.attempt != "" then row.attempt else row.solver + ":" + row.instance + ":" + Decimal(i)
  }

  ghost predicate AllKnown(src: Source, rows: seq<JoinedRow>) {
    forall i | 0 <= i < |rows| :: rows[i].instance in src.dataset
  }

  /** The pair under which candidate i is cached. */
  ghost function CandidatePair(src: Source, rows: seq<JoinedRow>, i: nat): Pair
    requires i < |rows| && AllKnown(src, rows)
  {
    (AttemptOf(rows[i], i), src.keyOf(rows[i], src.dataset[rows[i].instance]))
  }

  function Hit(row: JudgeRow): JudgeRow {
    row.(cacheHit := true)
  }

  function NewRow(row: JoinedRow, i: nat, key: CacheKey, reply: Reply): JudgeRow {
    match reply
    case Scored(verdict) =>
      JudgeRow(AttemptOf(row, i), JobOf(row), row.instance, row.solver, "scored", key, false, verdict)
    case Failed(error) =>
      JudgeRow(AttemptOf(row, i), JobOf(row), row.instance, row.solver, "error", key, false, error)
  }

  /** The row for every candidate, in candidate order. */
  ghost function Judged(cache: map<Pair, JudgeRow>, src: Source, rows: seq<JoinedRow>, replies: nat -> Reply)
    : (judged: seq<JudgeRow>)
    requires AllKnown(src, rows)
    ensures |judged| == |rows|
  {
    if rows == [] then []
    else
      var n := |rows| - 1;
      assert AllKnown(src, rows[..n]);
      var pair := CandidatePair(src, rows, n);
      Judged(cache, src, rows[..n], replies)
      + [if pair in cache then Hit(cache[pair]) else NewRow(rows[n], n, pair.1, replies(n))]
  }

  /** The candidates the model is asked about. */
  ghost function Asked(cache: map<Pair, JudgeRow>, src: Source, rows: seq<JoinedRow>): seq<nat>
    requires AllKnown(src, rows)
  {
    if rows == [] then []
    else
      var n := |rows| - 1;
      assert AllKnown(src, rows[..n]);
      var before := Asked(cache, src, rows[..n]);
      if CandidatePair(src, rows, n) in cache then before else before + [n]
  }

  /** The first k candidates are judged; the next one names no dataset row. */
  ghost predicate StopsAt(src: Source, rows: seq<JoinedRow>, k: int) {
    0 <= k < |rows| && AllKnown(src, rows[..k]) && rows[k].instance !in src.dataset
  }

  /** What makes a run raise: a row that cannot be loaded, or a candidate whose instance is not in the dataset. */
  datatype RunError = MalformedRow | UnknownInstance(instance: string)

  class RowsFile {
    var lines: seq<Line>

    /** `run_diff_judge`. When it raises, the file is left alone; a malformed row does so before any question, an
        unknown instance after the answers before it have been paid for. */
    method Run(src: Source, joined: seq<JoinedRow>, replies: nat -> Reply)
        returns (r: Result<seq<JudgeRow>, RunError>, asked: seq<nat>)
      modifies this
      ensures r.Ok? <==> Malformed !in old(lines) && AllKnown(src, Candidates(joined))
      ensures r.Ok? ==>
        && r.value == Judged(Loaded(old(lines)), src, Candidates(joined), replies)
        && asked == Asked(Loaded(old(lines)), src, Candidates(joined))
        && lines == Written(r.value)
      ensures r.Err? ==> lines == old(lines)
      ensures Malformed in old(lines) ==> r == Err(MalformedRow) && asked == []
      ensures Malformed !in old(lines) && r.Err? ==> exists k ::
        && StopsAt(src, Candidates(joined), k) && r.error == UnknownInstance(Candidates(joined)[k].instance)
        && asked == Asked(Loaded(lines), src, Candidates(joined)[..k])
    {
      var cache := LoadExistingRows(lines);
      if cache == None {
        return Err(MalformedRow), [];
      }
      var rows := FilterCandidates(joined);
      var judged, numbers := JudgeCandidates(cache.value, src, rows, replies);
      asked := numbers;
      if judged.Err? {
        return Err(UnknownInstance(judged.error)), asked;
      }
      lines := Written(judged.value);
      r := Ok(judged.value);
    }
  }

  /** What one more candidate adds. */
  lemma JudgeStep(cache: map<Pair, JudgeRow>, src: Source, rows: seq<JoinedRow>, replies: nat -> Reply, n: nat)
    requires n < |rows| && AllKnown(src, rows[..n]) && rows[n].instance in src.dataset
    ensures AllKnown(src, rows[..n + 1])
    ensures var pair := (AttemptOf(rows[n], n), src.keyOf(rows[n], src.dataset[rows[n].instance]));
      && Judged(cache, src, rows[..n + 1], replies) == Judged(cache, src, rows[..n], replies)
         + [if pair in cache then Hit(cache[pair]) else NewRow(rows[n], n, pair.1, replies(n))]
      && Asked(cache, src, rows[..n + 1])
         == if pair in cache then Asked(cache, src, rows[..n]) else Asked(cache, src, rows[..n]) + [n]
  {
    var done := rows[..n + 1];
    assert done[..n] == rows[..n] && done[n] == rows[n];
    assert AllKnown(src, done);
  }

  method JudgeCandidates(cache: map<Pair, JudgeRow>, src: Source, rows: seq<JoinedRow>, replies: nat -> Reply)
      returns (r: Result<seq<JudgeRow>, string>, asked: seq<nat>)
    ensures r.Ok? <==> AllKnown(src, rows)
    ensures r.Ok? ==> r.value == Judged(cache, src, rows, replies) && asked == Asked(cache, src, rows)
    ensures r.Err? ==> exists k :: StopsAt(src, rows, k) && r.error == rows[k].instance
                                   && asked == Asked(cache, src, rows[..k])
  {
    var judged: seq<JudgeRow> := [];
    asked := [];
    var counter := 0;
    while counter < |rows|
      invariant counter <= |rows| && AllKnown(src, rows[..counter])
      invariant judged == Judged(cache, src, rows[..counter], replies)
      invariant asked == Asked(cache, src, rows[..counter])
    {
      var row := rows[counter];
      if row.instance !in src.dataset {
        assert StopsAt(src, rows, counter);
        return Err(row.instance), asked;
      }
      var attempt := AttemptOf(row, counter);
      var key := src.keyOf(row, src.dataset[row.instance]);
      JudgeStep(cache, src, rows, replies, counter);
      if (attempt, key) in cache {
        judged := judged + [Hit(cache[(attempt, key)])];
      } else {
        judged := judged + [NewRow(row, counter, key, replies(counter))];
        asked := asked + [counter];
      }
      counter := counter + 1;
    }
    assert rows[..|rows|] == rows;
    r := Ok(judged);
  }

  method FilterCandidates(joined: seq<JoinedRow>) returns (rows: seq<JoinedRow>)
    ensures rows == Candidates(joined)
  {
    rows := [];
    for i := 0 to |joined|
      invariant rows == Candidates(joined[..i])
    {
      assert joined[..i + 1][..i] == joined[..i];
      if Strip(joined[i].patch) != "" {
        rows := rows + [joined[i]];
      }
    }
    assert joined[..|joined|] == joined;
  }

  // ---------- one run ----------

  lemma {:induction false} JudgedAt(cache: map<Pair, JudgeRow>, src: Source, rows: seq<JoinedRow>,
                                    replies: nat -> Reply, i: nat)
    requires AllKnown(src, rows) && i < |rows|
    ensures var pair := CandidatePair(src, rows, i);
      Judged(cache, src, rows, replies)[i]
      == if pair in cache then Hit(cache[pair]) else NewRow(rows[i], i, pair.1, replies(i))
  {
    var n := |rows| - 1;
    if i < n {
      JudgedAt(cache, src, rows[..n], replies, i);
    }
  }

  lemma {:induction false} AskedAt(cache: map<Pair, JudgeRow>, src: Source, rows: seq<JoinedRow>, i: nat)
    requires AllKnown(src, rows)
    ensures i in Asked(cache, src, rows) <==> i < |rows| && CandidatePair(src, rows, i) !in cache
  {
    if rows != [] {
      AskedAt(cache, src, rows[..|rows| - 1], i);
    }
  }

  /** Every judged row carries its candidate's pair, cached or not. */
  lemma JudgedPair(lines: seq<Line>, src: Source, rows: seq<JoinedRow>, replies: nat -> Reply, i: nat)
    requires AllKnown(src, rows) && i < |rows|
    ensures PairOf(Judged(Loaded(lines), src, rows, replies)[i]) == CandidatePair(src, rows, i)
  {
    JudgedAt(Loaded(lines), src, rows, replies, i);
    LoadedContents(lines, CandidatePair(src, rows, i));
  }

  // ---------- a rerun ----------

  ghost predicate ScoredIn(rows: seq<JudgeRow>, i: int) {
    0 <= i < |rows| && rows[i].status == "scored"
  }

  /** What the cache of the next run holds for candidate i: the row of some scored candidate with the same pair. */
  lemma NextCache(lines: seq<Line>, src: Source, rows: seq<JoinedRow>, replies: nat -> Reply, i: nat)
    requires AllKnown(src, rows) && i < |rows|
    ensures var judged := Judged(Loaded(lines), src, rows, replies); var next := Loaded(Written(judged));
      var pair := CandidatePair(src, rows, i);
      && (pair in next ==> exists j ::
            ScoredIn(judged, j) && CandidatePair(src, rows, j) == pair && next[pair] == judged[j])
      && (forall j | ScoredIn(judged, j) && CandidatePair(src, rows, j) == pair :: pair in next)
  {
    var judged := Judged(Loaded(lines), src, rows, replies);
    var file := Written(judged);
    var pair := CandidatePair(src, rows, i);
    LoadedContents(file, pair);
    if pair in Loaded(file) {
      var row := Loaded(file)[pair];
      WrittenContents(judged, row);
      var j :| 0 <= j < |judged| && judged[j] == row;
      JudgedPair(lines, src, rows, replies, j);
      assert ScoredIn(judged, j);
    }
    forall j | ScoredIn(judged, j) && CandidatePair(src, rows, j) == pair ensures pair in Loaded(file) {
      JudgedPair(lines, src, rows, replies, j);
      WrittenContents(judged, judged[j]);
      assert Stored(file, judged[j]);
    }
  }

  /** Scored rows that share a pair say the same. */
  ghost predicate Unambiguous(judged: seq<JudgeRow>) {
    forall i, j | ScoredIn(judged, i) && ScoredIn(judged, j) && PairOf(judged[i]) == PairOf(judged[j]) ::
      Hit(judged[i]) == Hit(judged[j])
  }

  ghost predicate KeepsScored(judged: seq<JudgeRow>, again: seq<JudgeRow>) {
    forall i | ScoredIn(judged, i) :: i < |again| && again[i] == Hit(judged[i])
  }

  /** What a rerun is to a run, by position: each scored row comes back as some scored row of its pair, and rows of
      one pair come back alike. */
  ghost predicate RerunOf(judged: seq<JudgeRow>, again: seq<JudgeRow>) {
    && |again| == |judged|
    && (forall i | ScoredIn(judged, i) :: FromPair(judged, PairOf(judged[i]), again[i]))
    && (forall i, j | ScoredIn(judged, i) && ScoredIn(judged, j) && PairOf(judged[i]) == PairOf(judged[j]) ::
          again[i] == again[j])
  }

  ghost predicate FromPair(judged: seq<JudgeRow>, pair: Pair, row: JudgeRow) {
    exists j :: ScoredIn(judged, j) && PairOf(judged[j]) == pair && row == Hit(judged[j])
  }

  lemma KeepsScoredIff(judged: seq<JudgeRow>, again: seq<JudgeRow>)
    requires RerunOf(judged, again)
    ensures KeepsScored(judged, again) <==> Unambiguous(judged)
  {
  }

  lemma IsRerunOf(lines: seq<Line>, src: Source, rows: seq<JoinedRow>, first: nat -> Reply, second: nat -> Reply,
                  judged: seq<JudgeRow>, again: seq<JudgeRow>)
    requires AllKnown(src, rows) && judged == Judged(Loaded(lines), src, rows, first)
    requires again == Judged(Loaded(Written(judged)), src, rows, second)
    ensures RerunOf(judged, again)
  {
    forall i | ScoredIn(judged, i) ensures FromPair(judged, PairOf(judged[i]), again[i]) {
      RerunAtScored(lines, src, rows, first, second, i);
    }
    forall i, j | ScoredIn(judged, i) && ScoredIn(judged, j) && PairOf(judged[i]) == PairOf(judged[j])
      ensures again[i] == again[j]
    {
      RerunSharesPairs(lines, src, rows, first, second, i, j);
    }
  }

  /** A rerun returns every scored row unchanged but for its cache flag exactly when no two scored rows with one
      pair differ. */
  lemma RerunKeepsScoredIff(lines: seq<Line>, src: Source, rows: seq<JoinedRow>, first: nat -> Reply,
                            second: nat -> Reply)
    requires AllKnown(src, rows)
    ensures var judged := Judged(Loaded(lines), src, rows, first);
      var again := Judged(Loaded(Written(judged)), src, rows, second);
      KeepsScored(judged, again) <==> Unambiguous(judged)
  {
    var judged := Judged(Loaded(lines), src, rows, first);
    var again := Judged(Loaded(Written(judged)), src, rows, second);
    IsRerunOf(lines, src, rows, first, second, judged, again);
    KeepsScoredIff(judged, again);
  }

  // ---------- which inputs a rerun is safe for ----------

  /** Candidates the file holds no scored row for have pairs of their own. */
  ghost predicate MissesAreDistinct(lines: seq<Line>, src: Source, rows: seq<JoinedRow>)
    requires AllKnown(src, rows)
  {
    forall i, j | 0 <= i < |rows| && 0 <= j < |rows| && i != j ::
      CandidatePair(src, rows, i) == CandidatePair(src, rows, j) ==> CandidatePair(src, rows, i) in Loaded(lines)
  }

  ghost predicate KeepsScoredFor(lines: seq<Line>, src: Source, rows: seq<JoinedRow>, first: nat -> Reply,
                                 second: nat -> Reply)
    requires AllKnown(src, rows)
  {
    var judged := Judged(Loaded(lines), src, rows, first);
    KeepsScored(judged, Judged(Loaded(Written(judged)), src, rows, second))
  }

  lemma SamePairSameHit(lines: seq<Line>, src: Source, rows: seq<JoinedRow>, replies: nat -> Reply, i: nat, j: nat)
    requires AllKnown(src, rows) && MissesAreDistinct(lines, src, rows) && i < |rows| && j < |rows|
    requires CandidatePair(src, rows, i) == CandidatePair(src, rows, j)
    ensures var judged := Judged(Loaded(lines), src, rows, replies); Hit(judged[i]) == Hit(judged[j])
  {
    JudgedAt(Loaded(lines), src, rows, replies, i);
    JudgedAt(Loaded(lines), src, rows, replies, j);
  }

  lemma DistinctMissesKeep(lines: seq<Line>, src: Source, rows: seq<JoinedRow>, first: nat -> Reply,
                           second: nat -> Reply)
    requires AllKnown(src, rows) && MissesAreDistinct(lines, src, rows)
    ensures KeepsScoredFor(lines, src, rows, first, second)
  {
    var judged := Judged(Loaded(lines), src, rows, first);
    forall i, j | ScoredIn(judged, i) && ScoredIn(judged, j) && PairOf(judged[i]) == PairOf(judged[j])
      ensures Hit(judged[i]) == Hit(judged[j])
    {
      JudgedPair(lines, src, rows, first, i);
      JudgedPair(lines, src, rows, first, j);
      SamePairSameHit(lines, src, rows, first, i, j);
    }
    RerunKeepsScoredIff(lines, src, rows, first, second);
  }

  /** The model scores candidate i one way and all others another way. */
  function Divided(i: nat): nat -> Reply {
    k => if k == i then Scored("x") else Scored("y")
  }

  /** Two candidates with one pair that the file does not hold: answered differently, one of them loses its row. */
  lemma SharedMissLoses(lines: seq<Line>, src: Source, rows: seq<JoinedRow>, i: nat, j: nat, second: nat -> Reply)
    requires AllKnown(src, rows) && i < |rows| && j < |rows| && i != j
    requires CandidatePair(src, rows, i) == CandidatePair(src, rows, j) && CandidatePair(src, rows, i) !in Loaded(lines)
    ensures !KeepsScoredFor(lines, src, rows, Divided(i), second)
  {
    var judged := Judged(Loaded(lines), src, rows, Divided(i));
    JudgedAt(Loaded(lines), src, rows, Divided(i), i);
    JudgedAt(Loaded(lines), src, rows, Divided(i), j);
    JudgedPair(lines, src, rows, Divided(i), i);
    JudgedPair(lines, src, rows, Divided(i), j);
    assert Hit(judged[i]).verdict == "x" && Hit(judged[j]).verdict == "y";
    assert ScoredIn(judged, i) && ScoredIn(judged, j) && Hit(judged[i]) != Hit(judged[j]);
    RerunKeepsScoredIff(lines, src, rows, Divided(i), second);
  }

  /** For any file and any candidates: whatever the model answers, a rerun returns every scored row unchanged but for
      its cache flag, iff the candidates the file holds no scored row for have distinct pairs. */
  lemma RerunAlwaysKeepsIff(lines: seq<Line>, src: Source, rows: seq<JoinedRow>)
    requires AllKnown(src, rows)
    ensures (forall first, second :: KeepsScoredFor(lines, src, rows, first, second))
            <==> MissesAreDistinct(lines, src, rows)
  {
    if MissesAreDistinct(lines, src, rows) {
      forall first, second ensures KeepsScoredFor(lines, src, rows, first, second) {
        DistinctMissesKeep(lines, src, rows, first, second);
      }
    } else {
      var i, j :| 0 <= i < |rows| && 0 <= j < |rows| && i != j
                  && CandidatePair(src, rows, i) == CandidatePair(src, rows, j)
                  && CandidatePair(src, rows, i) !in Loaded(lines);
      SharedMissLoses(lines, src, rows, i, j, Divided(i));
    }
  }

  lemma RerunAtScored(lines: seq<Line>, src: Source, rows: seq<JoinedRow>, first: nat -> Reply,
                      second: nat -> Reply, i: nat)
    requires AllKnown(src, rows) && ScoredIn(Judged(Loaded(lines), src, rows, first), i)
    ensures var judged := Judged(Loaded(lines), src, rows, first);
      var again := Judged(Loaded(Written(judged)), src, rows, second);
      FromPair(judged, PairOf(judged[i]), again[i])
  {
    var judged := Judged(Loaded(lines), src, rows, first);
    var next := Loaded(Written(judged));
    var pair := CandidatePair(src, rows, i);
    NextCache(lines, src, rows, first, i);
    JudgedAt(next, src, rows, second, i);
    assert pair in next;
    var j :| ScoredIn(judged, j) && CandidatePair(src, rows, j) == pair && next[pair] == judged[j];
    JudgedPair(lines, src, rows, first, i);
    JudgedPair(lines, src, rows, first, j);
  }

  lemma RerunSharesPairs(lines: seq<Line>, src: Source, rows: seq<JoinedRow>, first: nat -> Reply,
                         second: nat -> Reply, i: nat, j: nat)
    requires AllKnown(src, rows)
    requires var judged := Judged(Loaded(lines), src, rows, first);
      ScoredIn(judged, i) && ScoredIn(judged, j) && PairOf(judged[i]) == PairOf(judged[j])
    ensures var judged := Judged(Loaded(lines), src, rows, first);
      var again := Judged(Loaded(Written(judged)), src, rows, second);
      again[i] == again[j]
  {
    var judged := Judged(Loaded(lines), src, rows, first);
    var next := Loaded(Written(judged));
    JudgedPair(lines, src, rows, first, i);
    JudgedPair(lines, src, rows, first, j);
    NextCache(lines, src, rows, first, i);
    JudgedAt(next, src, rows, second, i);
    JudgedAt(next, src, rows, second, j);
  }

  /** The model is asked again exactly for the candidates whose pair has no scored row. */
  lemma RerunAsksUnscored(lines: seq<Line>, src: Source, rows: seq<JoinedRow>, replies: nat -> Reply, i: nat)
    requires AllKnown(src, rows) && i < |rows|
    ensures var judged := Judged(Loaded(lines), src, rows, replies);
      i in Asked(Loaded(Written(judged)), src, rows)
      <==> forall j | ScoredIn(judged, j) :: CandidatePair(src, rows, j) != CandidatePair(src, rows, i)
  {
    NextCache(lines, src, rows, replies, i);
    AskedAt(Loaded(Written(Judged(Loaded(lines), src, rows, replies))), src, rows, i);
  }

  /** An input that loses: two candidates of one attempt and one prompt, and an empty file. */
  lemma RerunCanLose() returns (src: Source, rows: seq<JoinedRow>)
    ensures AllKnown(src, rows) && !KeepsScoredFor([], src, rows, Divided(0), Divided(0))
  {
    src := Source(map["i" := ""], (row, d) => "k");
    var row := JoinedRow("a", "", "i", "s", "+", "");
    rows := [row, row];
    assert CandidatePair(src, rows, 0) == CandidatePair(src, rows, 1);
    SharedMissLoses([], src, rows, 0, 1, Divided(0));
  }

  // ---------- any number of reruns ----------

  ghost predicate DistinctPairs(src: Source, rows: seq<JoinedRow>)
    requires AllKnown(src, rows)
  {
    forall i, j | 0 <= i < j < |rows| :: CandidatePair(src, rows, i) != CandidatePair(src, rows, j)
  }

  /** The rows file before run k, and the rows of run k; `replies(k)` answers run k. */
  ghost function FileBefore(lines: seq<Line>, src: Source, rows: seq<JoinedRow>, replies: nat -> nat -> Reply,
                            k: nat): seq<Line>
    requires AllKnown(src, rows)
    decreases k, 0
  {
    if k == 0 then lines else Written(RowsOfRun(lines, src, rows, replies, k - 1))
  }

  ghost function RowsOfRun(lines: seq<Line>, src: Source, rows: seq<JoinedRow>, replies: nat -> nat -> Reply,
                           k: nat): seq<JudgeRow>
    requires AllKnown(src, rows)
    decreases k, 1
  {
    Judged(Loaded(FileBefore(lines, src, rows, replies, k)), src, rows, replies(k))
  }

  ghost function AskedInRun(lines: seq<Line>, src: Source, rows: seq<JoinedRow>, replies: nat -> nat -> Reply,
                            k: nat): seq<nat>
    requires AllKnown(src, rows)
  {
    Asked(Loaded(FileBefore(lines, src, rows, replies, k)), src, rows)
  }

  lemma RerunOnDistinct(lines: seq<Line>, src: Source, rows: seq<JoinedRow>, first: nat -> Reply,
                        second: nat -> Reply, i: nat)
    requires AllKnown(src, rows) && DistinctPairs(src, rows)
    requires ScoredIn(Judged(Loaded(lines), src, rows, first), i)
    ensures var judged := Judged(Loaded(lines), src, rows, first);
      Judged(Loaded(Written(judged)), src, rows, second)[i] == Hit(judged[i])
  {
    var judged := Judged(Loaded(lines), src, rows, first);
    var row := Judged(Loaded(Written(judged)), src, rows, second)[i];
    RerunAtScored(lines, src, rows, first, second, i);
    var j :| ScoredIn(judged, j) && PairOf(judged[j]) == PairOf(judged[i]) && row == Hit(judged[j]);
    JudgedPair(lines, src, rows, first, i);
    JudgedPair(lines, src, rows, first, j);
  }

  lemma AskedOnDistinct(lines: seq<Line>, src: Source, rows: seq<JoinedRow>, replies: nat -> Reply, i: nat)
    requires AllKnown(src, rows) && DistinctPairs(src, rows) && i < |rows|
    ensures var judged := Judged(Loaded(lines), src, rows, replies);
      i in Asked(Loaded(Written(judged)), src, rows) <==> !ScoredIn(judged, i)
  {
    RerunAsksUnscored(lines, src, rows, replies, i);
  }

  /** One rerun on distinct pairs: a scored row comes back with its flag set and is not asked about; the others are
      asked about. */
  lemma NextRun(lines: seq<Line>, src: Source, rows: seq<JoinedRow>, replies: nat -> nat -> Reply, k: nat, i: nat)
    requires AllKnown(src, rows) && DistinctPairs(src, rows) && i < |rows|
    ensures var before := RowsOfRun(lines, src, rows, replies, k);
      && (i in AskedInRun(lines, src, rows, replies, k + 1) <==> !ScoredIn(before, i))
      && (ScoredIn(before, i) ==> RowsOfRun(lines, src, rows, replies, k + 1)[i] == Hit(before[i]))
  {
    var file := FileBefore(lines, src, rows, replies, k);
    AskedOnDistinct(file, src, rows, replies(k), i);
    if ScoredIn(RowsOfRun(lines, src, rows, replies, k), i) {
      RerunOnDistinct(file, src, rows, replies(k), replies(k + 1), i);
    }
  }

  /** Once scored, a candidate keeps that very row in every later run and is never asked about again. */
  lemma {:induction false} ScoredForGood(lines: seq<Line>, src: Source, rows: seq<JoinedRow>,
                                         replies: nat -> nat -> Reply, k: nat, m: nat, i: nat)
    requires AllKnown(src, rows) && DistinctPairs(src, rows) && k < m
    requires ScoredIn(RowsOfRun(lines, src, rows, replies, k), i)
    ensures i < |rows| && i !in AskedInRun(lines, src, rows, replies, m)
    ensures RowsOfRun(lines, src, rows, replies, m)[i] == Hit(RowsOfRun(lines, src, rows, replies, k)[i])
    decreases m
  {
    if k < m - 1 {
      ScoredForGood(lines, src, rows, replies, k, m - 1, i);
    }
    NextRun(lines, src, rows, replies, m - 1, i);
  }

  /** Once every candidate is scored no run asks the model again, and from the second such run on neither the rows
      nor the file change. */
  lemma AllScoredIsFixed(lines: seq<Line>, src: Source, rows: seq<JoinedRow>, replies: nat -> nat -> Reply, k: nat,
                         m: nat)
    requires AllKnown(src, rows) && DistinctPairs(src, rows) && k < m
    requires forall i | 0 <= i < |rows| :: ScoredIn(RowsOfRun(lines, src, rows, replies, k), i)
    ensures AskedInRun(lines, src, rows, replies, m) == []
    ensures RowsOfRun(lines, src, rows, replies, m) == RowsOfRun(lines, src, rows, replies, k + 1)
    ensures FileBefore(lines, src, rows, replies, m + 1) == FileBefore(lines, src, rows, replies, k + 2)
  {
    var now, before := RowsOfRun(lines, src, rows, replies, m), RowsOfRun(lines, src, rows, replies, k + 1);
    forall i | 0 <= i < |rows| ensures i !in AskedInRun(lines, src, rows, replies, m) && now[i] == before[i] {
      ScoredForGood(lines, src, rows, replies, k, m, i);
      ScoredForGood(lines, src, rows, replies, k, k + 1, i);
    }
    var cache := Loaded(FileBefore(lines, src, rows, replies, m));
    forall i | 0 <= i < |rows| ensures CandidatePair(src, rows, i) in cache {
      ScoredForGood(lines, src, rows, replies, k, m, i);
      AskedAt(cache, src, rows, i);
    }
    NoneAsked(cache, src, rows);
    assert now == before;
  }

  lemma {:induction false} NoneAsked(cache: map<Pair, JudgeRow>, src: Source, rows: seq<JoinedRow>)
    requires AllKnown(src, rows) && forall i | 0 <= i < |rows| :: CandidatePair(src, rows, i) in cache
    ensures Asked(cache, src, rows) == []
  {
    if rows != [] {
      var n := |rows| - 1;
      forall i | 0 <= i < n ensures CandidatePair(src, rows[..n], i) in cache {
        assert CandidatePair(src, rows, i) in cache;
      }
      NoneAsked(cache, src, rows[..n]);
      assert CandidatePair(src, rows, n) in cache;
    }
  }
}
