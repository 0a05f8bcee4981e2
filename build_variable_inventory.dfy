/**
 * The variable inventory builder: the variable names and labels of every
 * release's data dictionary (columns E and F of its first sheet), the
 * presence matrix of variables against releases, and one summary row per
 * variable saying in which releases it is present and in which it is not.
 */
module BuildVariableInventory {
  import opened Wrappers
  import opened Text
  import opened Seqs
  import ReleaseNames
  import VariableInventory
  import Reals

  /** Column E holds the variable name, column F its label. */
  const VarColumn: nat := 4
  const LabelColumn: nat := 5

  /** A row of the first sheet, read as text; an empty cell is None. */
  type Row = seq<Option<string>>

  /** The first sheet of a workbook: its column count and its rows. */
  datatype Table = Table(width: nat, rows: seq<Row>)

  /** One variable of one release. */
  datatype Record = Record(
    file: string,
    release: string,
    year: Option<int>,
    month: Option<nat>,
    variable: string,
    labelText: string)

  /** What a record takes from its workbook: file name, release (the file's stem) and sheet width. */
  datatype Source = Source(file: string, release: string, width: nat)

  function CellAt(row: Row, i: nat): Option<string> {
    if i < |row| then row[i] else None
  }

  /** A name cell that is empty, blank, or the text of a missing value is not a variable. */
  predicate SkippedName(raw: Option<string>) {
    raw.None? || Strip(raw.value) in {"", "nan", "None"}
  }

  /** The record one row yields, if its name cell holds a variable. */
  function RecordOf(src: Source, row: Row): Option<Record> {
    var raw := CellAt(row, VarColumn);
    if SkippedName(raw) then None
    else
      var rawLabel := if src.width > LabelColumn then CellAt(row, LabelColumn) else None;
      var release := ReleaseNames.ParseRelease(src.release);
      Some(Record(src.file, src.release, release.0, release.1, Strip(raw.value),
                  if rawLabel.Some? then Strip(rawLabel.value) else ""))
  }

  function Reader(src: Source): Row -> Option<Record> {
    row => RecordOf(src, row)
  }

  /** The records of one workbook: none when it cannot be read or is narrower than five columns. */
  function Variables(file: string, release: string, table: Option<Table>): seq<Record> {
    match table
    case None => []
    case Some(t) =>
      if t.width <= VarColumn then []
      else Kept(Mapped(Reader(Source(file, release, t.width)), t.rows))
  }

  /** Which rows become records, and what a record holds. */
  lemma RecordAccepted(src: Source, row: Row)
    ensures RecordOf(src, row).Some? <==> !SkippedName(CellAt(row, VarColumn))
    ensures RecordOf(src, row).Some? ==>
      var r := RecordOf(src, row).value;
      && r.file == src.file && r.release == src.release
      && (r.year, r.month) == ReleaseNames.ExtractYearMonth(src.release)
      && r.variable == Strip(CellAt(row, VarColumn).value)
      && r.variable !in {"", "nan", "None"}
      && (src.width <= LabelColumn || CellAt(row, LabelColumn).None? ==> r.labelText == "")
      && (src.width > LabelColumn && CellAt(row, LabelColumn).Some? ==>
            r.labelText == Strip(CellAt(row, LabelColumn).value))
  {
  }

  /** A record comes from a workbook exactly when one of its rows yields it. */
  lemma VariablesExact(file: string, release: string, table: Option<Table>, r: Record)
    ensures r in Variables(file, release, table) <==>
      && table.Some? && table.value.width > VarColumn
      && exists i :: 0 <= i < |table.value.rows| &&
           RecordOf(Source(file, release, table.value.width), table.value.rows[i]) == Some(r)
  {
    if table.Some? && table.value.width > VarColumn {
      var t := table.value;
      var f := Reader(Source(file, release, t.width));
      KeptExact(Mapped(f, t.rows), r);
      forall i | 0 <= i < |t.rows|
        ensures Mapped(f, t.rows)[i] == RecordOf(Source(file, release, t.width), t.rows[i])
      {
        MappedAt(f, t.rows, i);
      }
    }
  }

  /** read_variables: the rows of the first sheet, one after the other. */
  method ReadVariables(file: string, release: string, table: Option<Table>) returns (records: seq<Record>)
    ensures records == Variables(file, release, table)
  {
    if table.None? || table.value.width <= VarColumn {
      return [];
    }
    var t := table.value;
    var f := Reader(Source(file, release, t.width));
    records := [];
    var i := 0;
    while i < |t.rows|
      invariant 0 <= i <= |t.rows|
      invariant records == Kept(Mapped(f, t.rows[..i]))
    {
      MappedPrefix(f, t.rows, i);
      KeptSnoc(Mapped(f, t.rows[..i]), f(t.rows[i]));
      var o := RecordOf(Source(file, release, t.width), t.rows[i]);
      if o.Some? {
        records := records + [o.value];
      }
      i := i + 1;
    }
    WholePrefix(t.rows, i);
  }

  // ---------------------------------------------------------------------
  // All workbooks
  // ---------------------------------------------------------------------

  /** A dictionary workbook: its file name, its stem, and its first sheet if it could be read. */
  datatype Workbook = Workbook(name: string, stem: string, table: Option<Table>)

  function Extracted(w: Workbook): seq<Record> {
    Variables(w.name, w.stem, w.table)
  }

  /** The records of all workbooks, in file order. */
  function AllRecords(ws: seq<Workbook>): seq<Record> {
    if ws == [] then [] else AllRecords(ws[..|ws| - 1]) + Extracted(ws[|ws| - 1])
  }

  /** The names of the workbooks that yielded no record. */
  function Failed(ws: seq<Workbook>): seq<string> {
    if ws == [] then []
    else Failed(ws[..|ws| - 1]) + (if Extracted(ws[|ws| - 1]) == [] then [ws[|ws| - 1].name] else [])
  }

  /** The number of workbooks that yielded records. */
  function Succeeded(ws: seq<Workbook>): nat {
    if ws == [] then 0
    else Succeeded(ws[..|ws| - 1]) + (if Extracted(ws[|ws| - 1]) == [] then 0 else 1)
  }

  /** The main loop: every workbook either adds its records or is reported as failed. */
  method CollectRecords(ws: seq<Workbook>) returns (all: seq<Record>, errors: seq<string>)
    ensures all == AllRecords(ws) && errors == Failed(ws)
  {
    all, errors := [], [];
    var i := 0;
    while i < |ws|
      invariant 0 <= i <= |ws|
      invariant all == AllRecords(ws[..i]) && errors == Failed(ws[..i])
    {
      PrefixStep(ws, i);
      var records := ReadVariables(ws[i].name, ws[i].stem, ws[i].table);
      if records != [] {
        all := all + records;
      } else {
        errors := errors + [ws[i].name];
      }
      i := i + 1;
    }
    WholePrefix(ws, i);
  }

  /** Files processed plus failed files is the number of files. */
  lemma {:induction false} FilesAccounted(ws: seq<Workbook>)
    ensures Succeeded(ws) + |Failed(ws)| == |ws|
  {
    if ws != [] {
      FilesAccounted(ws[..|ws| - 1]);
    }
  }

  /** A record is collected exactly when some workbook yields it. */
  lemma {:induction false} AllRecordsExact(ws: seq<Workbook>, r: Record)
    ensures r in AllRecords(ws) <==> exists i :: 0 <= i < |ws| && r in Extracted(ws[i])
  {
    if ws != [] {
      var front := ws[..|ws| - 1];
      AllRecordsExact(front, r);
      if r in AllRecords(ws) {
        if r !in AllRecords(front) {
          assert r in Extracted(ws[|ws| - 1]);
        }
      }
      if exists i :: 0 <= i < |ws| && r in Extracted(ws[i]) {
        var i :| 0 <= i < |ws| && r in Extracted(ws[i]);
        if i < |ws| - 1 {
          assert front[i] == ws[i];
        }
      }
    }
  }

  /** A name is reported as failed exactly when a workbook of that name yields no record. */
  lemma FailedExact(ws: seq<Workbook>, name: string)
    ensures name in Failed(ws) <==> exists i :: 0 <= i < |ws| && ws[i].name == name && Extracted(ws[i]) == []
  {
    if name in Failed(ws) {
      FailedSound(ws, name);
    }
    if exists i :: 0 <= i < |ws| && ws[i].name == name && Extracted(ws[i]) == [] {
      var i :| 0 <= i < |ws| && ws[i].name == name && Extracted(ws[i]) == [];
      FailedComplete(ws, name, i);
    }
  }

  /** A failed name belongs to a workbook that yielded no record. */
  lemma {:induction false} FailedSound(ws: seq<Workbook>, name: string)
    requires name in Failed(ws)
    ensures exists i :: 0 <= i < |ws| && ws[i].name == name && Extracted(ws[i]) == []
  {
    var front := ws[..|ws| - 1];
    if name in Failed(front) {
      FailedSound(front, name);
      var i :| 0 <= i < |front| && front[i].name == name && Extracted(front[i]) == [];
      assert ws[i] == front[i];
    } else {
      assert ws[|ws| - 1].name == name && Extracted(ws[|ws| - 1]) == [];
    }
  }

  /** A workbook that yielded no record has its name reported. */
  lemma {:induction false} FailedComplete(ws: seq<Workbook>, name: string, i: nat)
    requires i < |ws| && ws[i].name == name && Extracted(ws[i]) == []
    ensures name in Failed(ws)
  {
    var front := ws[..|ws| - 1];
    if i < |front| {
      assert front[i] == ws[i];
      FailedComplete(front, name, i);
    }
  }

  // ---------------------------------------------------------------------
  // Releases, variables and the presence matrix
  // ---------------------------------------------------------------------

  function ReleasesOf(records: seq<Record>): seq<string> {
    if records == [] then [] else ReleasesOf(records[..|records| - 1]) + [records[|records| - 1].release]
  }

  function NamesOf(records: seq<Record>): seq<string> {
    if records == [] then [] else NamesOf(records[..|records| - 1]) + [records[|records| - 1].variable]
  }

  lemma {:induction false} ReleasesOfExact(records: seq<Record>, rel: string)
    ensures rel in ReleasesOf(records) <==> exists k :: 0 <= k < |records| && records[k].release == rel
  {
    if records != [] {
      var front := records[..|records| - 1];
      ReleasesOfExact(front, rel);
      if exists k :: 0 <= k < |records| && records[k].release == rel {
        var k :| 0 <= k < |records| && records[k].release == rel;
        if k < |records| - 1 {
          assert front[k] == records[k];
        }
      }
    }
  }

  lemma {:induction false} NamesOfExact(records: seq<Record>, v: string)
    ensures v in NamesOf(records) <==> exists k :: 0 <= k < |records| && records[k].variable == v
  {
    if records != [] {
      var front := records[..|records| - 1];
      NamesOfExact(front, v);
      if exists k :: 0 <= k < |records| && records[k].variable == v {
        var k :| 0 <= k < |records| && records[k].variable == v;
        if k < |records| - 1 {
          assert front[k] == records[k];
        }
      }
    }
  }

  /** The releases, each once (the order by year and month is not modelled). */
  function Releases(records: seq<Record>): seq<string> {
    Unique(ReleasesOf(records))
  }

  /** The variables, each once (the alphabetical order is not modelled). */
  function VariableNames(records: seq<Record>): seq<string> {
    Unique(NamesOf(records))
  }

  /** The releases listed are exactly those of some record, each once. */
  lemma ReleasesExact(records: seq<Record>, rel: string)
    ensures NoDup(Releases(records))
    ensures rel in Releases(records) <==> exists k :: 0 <= k < |records| && records[k].release == rel
  {
    UniqueExact(ReleasesOf(records));
    ReleasesOfExact(records, rel);
  }

  /** The variables listed are exactly those of some record, each once. */
  lemma VariableNamesExact(records: seq<Record>, v: string)
    ensures NoDup(VariableNames(records))
    ensures v in VariableNames(records) <==> exists k :: 0 <= k < |records| && records[k].variable == v
  {
    UniqueExact(NamesOf(records));
    NamesOfExact(records, v);
  }

  /** The variables of one release. */
  function ReleaseVars(records: seq<Record>, rel: string): set<string> {
    set k | 0 <= k < |records| && records[k].release == rel :: records[k].variable
  }

  /** Whether some record puts a variable in a release. */
  predicate Present(records: seq<Record>, v: string, rel: string) {
    exists k :: 0 <= k < |records| && records[k].variable == v && records[k].release == rel
  }

  lemma ReleaseVarsExact(records: seq<Record>, v: string, rel: string)
    ensures v in ReleaseVars(records, rel) <==> Present(records, v, rel)
  {
    if Present(records, v, rel) {
      var k :| 0 <= k < |records| && records[k].variable == v && records[k].release == rel;
      assert records[k].variable in ReleaseVars(records, rel);
    }
  }

  function Mark(b: bool): string {
    if b then "YES" else "NO"
  }

  /** The presence matrix: a row per variable, a column per release, YES where a record puts the variable in the release. */
  method PresenceMatrix(records: seq<Record>, releases: seq<string>, vars: seq<string>)
    returns (matrix: seq<seq<string>>)
    ensures |matrix| == |vars|
    ensures forall i :: 0 <= i < |vars| ==> |matrix[i]| == |releases|
    ensures forall i, j :: 0 <= i < |vars| && 0 <= j < |releases| ==>
      (matrix[i][j] == "YES" <==> Present(records, vars[i], releases[j])) &&
      (matrix[i][j] == "NO" <==> !Present(records, vars[i], releases[j]))
  {
    var releaseSets := map rel | rel in releases :: ReleaseVars(records, rel);
    matrix := [];
    var i := 0;
    while i < |vars|
      invariant 0 <= i <= |vars|
      invariant |matrix| == i
      invariant forall a :: 0 <= a < i ==> |matrix[a]| == |releases|
      invariant forall a, j :: 0 <= a < i && 0 <= j < |releases| ==>
        matrix[a][j] == Mark(Present(records, vars[a], releases[j]))
    {
      var row := [];
      var j := 0;
      while j < |releases|
        invariant 0 <= j <= |releases|
        invariant |row| == j
        invariant forall b :: 0 <= b < j ==> row[b] == Mark(Present(records, vars[i], releases[b]))
      {
        ReleaseVarsExact(records, vars[i], releases[j]);
        row := row + [Mark(vars[i] in releaseSets[releases[j]])];
        j := j + 1;
      }
      matrix := matrix + [row];
      i := i + 1;
    }
  }

  // ---------------------------------------------------------------------
  // Summary per variable
  // ---------------------------------------------------------------------

  /** The records of one variable, in order. */
  function Matching(records: seq<Record>, v: string): seq<Record> {
    if records == [] then []
    else
      var last := records[|records| - 1];
      Matching(records[..|records| - 1], v) + (if last.variable == v then [last] else [])
  }

  lemma {:induction false} MatchingExact(records: seq<Record>, v: string, r: Record)
    ensures r in Matching(records, v) <==> r in records && r.variable == v
  {
    if records != [] {
      var front := records[..|records| - 1];
      MatchingExact(front, v, r);
      assert records == front + [records[|records| - 1]];
    }
  }

  /** The years of a list of records that have one. */
  function YearsOf(records: seq<Record>): set<int> {
    set k | 0 <= k < |records| && records[k].year.Some? :: records[k].year.value
  }

  /** One row of the variable summary. */
  datatype VariableSummary = VariableSummary(
    variable: string,
    labelSample: string,
    nReleases: nat,
    nMissing: nat,
    pctCoverage: real,
    firstYear: Option<int>,
    lastYear: Option<int>,
    presentIn: seq<string>,
    missingIn: seq<string>)

  /** The releases a variable's own records name are the releases it is present in. */
  lemma PresentInExact(records: seq<Record>, v: string, rel: string)
    ensures NoDup(Unique(ReleasesOf(Matching(records, v))))
    ensures rel in Unique(ReleasesOf(Matching(records, v))) <==> Present(records, v, rel)
  {
    var sub := Matching(records, v);
    UniqueExact(ReleasesOf(sub));
    ReleasesOfExact(sub, rel);
    if Present(records, v, rel) {
      var k :| 0 <= k < |records| && records[k].variable == v && records[k].release == rel;
      MatchingExact(records, v, records[k]);
      var m :| 0 <= m < |sub| && sub[m] == records[k];
    }
    if rel in ReleasesOf(sub) {
      var m :| 0 <= m < |sub| && sub[m].release == rel;
      MatchingExact(records, v, sub[m]);
      var k :| 0 <= k < |records| && records[k] == sub[m];
    }
  }

  /** The releases a variable is present in and those it is missing from add up to all releases. */
  lemma {:induction false} PresentMissingCount(records: seq<Record>, v: string)
    requires records != []
    ensures var present := Unique(ReleasesOf(Matching(records, v)));
      && |Releases(records)| > 0
      && |Outside(Releases(records), Elems(present))| + |present| == |Releases(records)|
  {
    var present := Unique(ReleasesOf(Matching(records, v)));
    var releases := Releases(records);
    forall rel | rel in Elems(present)
      ensures rel in releases
    {
      PresentInExact(records, v, rel);
      ReleasesExact(records, rel);
    }
    PresentInExact(records, v, "");
    ReleasesExact(records, records[0].release);
    OutsideCount(releases, Elems(present));
    NoDupCard(present);
  }

  /** A coverage of n releases out of m is a percentage, full exactly when n is m and zero exactly when n is. */
  lemma CoverageBounds(n: nat, m: nat)
    requires 0 < m && n <= m
    ensures 0.0 <= (n as real) / (m as real) * 100.0 <= 100.0
    ensures (n as real) / (m as real) * 100.0 == 100.0 <==> n == m
    ensures (n as real) / (m as real) * 100.0 == 0.0 <==> n == 0
  {
    var q := (n as real) / (m as real);
    Reals.DivMul(n as real, m as real);
    Reals.DivNonNeg(n as real, m as real);
    Reals.DivMonotone(n as real, m as real, m as real);
    Reals.DivSelf(m as real);
    if q == 1.0 {
      assert n as real == m as real;
    }
    if q == 0.0 {
      assert 0.0 * (m as real) == 0.0;
    }
    if n == 0 {
      Reals.MulCancel(q, 0.0, m as real);
    }
  }

  /** The summary of variable v among the given releases. */
  method Summarize(records: seq<Record>, releases: seq<string>, v: string) returns (row: VariableSummary)
    requires releases == Releases(records) && records != []
    ensures row.variable == v
    ensures forall rel :: rel in row.presentIn <==> Present(records, v, rel)
    ensures NoDup(row.presentIn) && row.nReleases == |row.presentIn|
    ensures forall rel :: rel in row.missingIn <==> rel in releases && !Present(records, v, rel)
    ensures row.nMissing == |row.missingIn|
    ensures row.nReleases + row.nMissing == |releases|
    ensures row.pctCoverage == (row.nReleases as real) / (|releases| as real) * 100.0
    ensures 0.0 <= row.pctCoverage <= 100.0
    ensures row.nMissing == 0 <==> row.pctCoverage == 100.0
    ensures row.labelSample == (if Matching(records, v) == [] then "" else Matching(records, v)[0].labelText)
    ensures row.firstYear.None? <==> YearsOf(Matching(records, v)) == {}
    ensures row.firstYear.Some? ==> VariableInventory.Least(YearsOf(Matching(records, v)), row.firstYear.value)
    ensures row.lastYear.None? <==> YearsOf(Matching(records, v)) == {}
    ensures row.lastYear.Some? ==> VariableInventory.Greatest(YearsOf(Matching(records, v)), row.lastYear.value)
  {
    var sub := Matching(records, v);
    var present := Unique(ReleasesOf(sub));
    forall rel
      ensures rel in present <==> Present(records, v, rel)
    {
      PresentInExact(records, v, rel);
    }
    PresentInExact(records, v, "");
    var missing := Outside(releases, Elems(present));
    PresentMissingCount(records, v);
    CoverageBounds(|present|, |releases|);

    var years := YearsOf(sub);
    var first, last := None, None;
    if years != {} {
      var lo, hi := VariableInventory.Bounds(years);
      first, last := Some(lo), Some(hi);
    }
    var pct := (|present| as real) / (|releases| as real) * 100.0;
    row := VariableSummary(v, if sub == [] then "" else sub[0].labelText,
                           |present|, |missing|, pct, first, last, present, missing);
  }
}
